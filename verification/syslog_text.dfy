/** The command lines of the remote syslog configuration: how a typed line is understood, how the
    running configuration is printed, and why printing and typing again is lossless. */
module SyslogText {
  import opened Options
  import opened Sequences
  import opened Text
  import opened SyslogTable

  // ----- the command forms -----

  predicate IsTransport(t: string) {
    t == "udp" || t == "tcp"
  }

  predicate IsPort(t: string) {
    t != [] && AllDigits(t) && MIN_PORT_NUMBER_SUPPORTED <= Atoi(t) <= MAX_PORT_NUMBER_SUPPORTED
  }

  /** What follows the host: nothing, a transport, a transport and a port, each with or without a
      severity, or a severity alone. */
  function ParseSeverity(q: Row, ts: seq<string>): Option<Row> {
    if ts == [] then Some(q)
    else if |ts| == 2 && ts[0] == "severity" && ts[1] in SEVERITIES then Some(q.(severity := Some(ts[1])))
    else None
  }

  function ParseSettings(host: string, ts: seq<string>): Option<Row> {
    var q := Row(host, None, None, None);
    if ts == [] || !IsTransport(ts[0]) then ParseSeverity(q, ts)
    else if |ts| > 1 && IsPort(ts[1]) then
      ParseSeverity(q.(transport := Some(ts[0]), port := Some(Atoi(ts[1]))), ts[2..])
    else ParseSeverity(q.(transport := Some(ts[0])), ts[1..])
  }

  /** A typed line as a command; `no logging` alone goes on with a question. */
  function CommandOf(line: string, keys: string): Option<Command> {
    var ts := Tokens(line);
    if |ts| >= 2 && ts[0] == "logging" then
      var q := ParseSettings(ts[1], ts[2..]);
      if q == None then None else Some(Logging(true, q.value))
    else if ts == ["no", "logging"] then Some(RemoveAll(keys))
    else if |ts| >= 3 && ts[0] == "no" && ts[1] == "logging" then
      var q := ParseSettings(ts[2], ts[3..]);
      if q == None then None else Some(Logging(false, q.value))
    else None
  }

  lemma {:induction false} TokensAreTokens(cur: string, s: string)
    requires ' ' !in cur
    ensures forall t :: t in TokensFrom(cur, s, ' ') ==> Token(t)
    decreases |s|
  {
    if s != [] {
      TokensAreTokens(if s[0] == ' ' then [] else cur + [s[0]], s[1..]);
    }
  }

  /** Whatever is typed, the command is one the table's invariant allows for. */
  lemma {:induction false} TypedIsFromCommandLine(line: string, keys: string)
    ensures var c := CommandOf(line, keys);
      c.Some? && c.value.Logging? ==> FromCommandLine(c.value.q)
  {
    TokensAreTokens([], line);
    hide Tokens, Split, TokensFrom;
  }

  // ----- the running configuration -----

  function OptionalTokens(o: Option<string>): seq<string> {
    if o == None then [] else [o.value]
  }

  function LineTokens(r: Row): seq<string> {
    ["logging", r.host] + OptionalTokens(r.transport)
    + (if r.port == None then [] else [DecInt(r.port.value)])
    + (if r.severity == None then [] else ["severity", r.severity.value])
  }

  /** The line the printer assembles from its pieces. */
  function PrintLine(r: Row): string {
    Join(LineTokens(r), ' ')
  }

  /** The printer: one line per row, from pieces that are reassigned for every row. */
  method PrintRunningConfig(rows: map<nat, Row>, order: seq<nat>) returns (lines: seq<string>)
    requires forall i :: 0 <= i < |order| ==> order[i] in rows
    ensures |lines| == |order| && forall i :: 0 <= i < |order| ==> lines[i] == PrintLine(rows[order[i]])
  {
    hide PrintLine, DecInt;
    var transport, transkey, severity, sevkey := "", " ", "", " severity ";
    lines := [];
    for i := 0 to |order|
      invariant |lines| == i && forall j :: 0 <= j < i ==> lines[j] == PrintLine(rows[order[j]])
    {
      var row := rows[order[i]];
      if row.transport == None {
        transport, transkey := "", "";
      } else {
        transport, transkey := row.transport.value, " ";
      }
      if row.severity == None {
        severity, sevkey := "", "";
      } else {
        severity, sevkey := row.severity.value, " severity ";
      }
      var line;
      if row.port == None {
        line := "logging " + row.host + transkey + transport + sevkey + severity;
      } else {
        line := "logging " + row.host + transkey + transport + " " + DecInt(row.port.value) + sevkey + severity;
      }
      LineIsJoin(row, line);
      lines := lines + [line];
    }
  }

  /** The pieces, put together, are the tokens joined by single spaces. */
  lemma {:induction false} LineIsJoin(r: Row, line: string)
    requires line == "logging " + r.host + (if r.transport == None then "" else " " + r.transport.value)
      + (if r.port == None then "" else " " + DecInt(r.port.value))
      + (if r.severity == None then "" else " severity " + r.severity.value)
    ensures line == PrintLine(r)
  {
    hide Join, DecInt, Piece;
    var a := ["logging", r.host];
    var b, c := OptionalTokens(r.transport), if r.port == None then [] else [DecInt(r.port.value)];
    var d := if r.severity == None then [] else ["severity", r.severity.value];
    JoinAppend(a + b + c, d);
    JoinAppend(a + b, c);
    JoinAppend(a, b);
    Pieces(r.host);
    if r.transport.Some? { Pieces(r.transport.value); }
    if r.port.Some? { Pieces(DecInt(r.port.value)); }
    if r.severity.Some? { Pieces(r.severity.value); }
    assert LineTokens(r) == a + b + c + d;
  }

  /** Tokens as they follow others on a line. */
  function Piece(ts: seq<string>): string {
    if ts == [] then "" else [' '] + Join(ts, ' ')
  }

  lemma Pieces(t: string)
    ensures Piece([]) == "" && Piece([t]) == " " + t && Piece(["severity", t]) == " severity " + t
    ensures Join(["logging", t], ' ') == "logging " + t
  {
    assert ["severity", t][1..] == [t] && ["logging", t][1..] == [t];
    assert [' '] + ("severity" + [' '] + t) == " severity " + t;
    assert "logging" + [' '] + t == "logging " + t;
  }

  lemma {:induction false} JoinAppend(a: seq<string>, b: seq<string>)
    requires a != []
    ensures Join(a + b, ' ') == Join(a, ' ') + Piece(b)
  {
    if b == [] {
      assert a + b == a && Join(a, ' ') + "" == Join(a, ' ');
    } else if |a| == 1 {
      assert (a + b)[1..] == b;
      assert a[0] + [' '] + Join(b, ' ') == a[0] + ([' '] + Join(b, ' '));
    } else {
      assert (a + b)[1..] == a[1..] + b;
      JoinAppend(a[1..], b);
      assert a[0] + [' '] + (Join(a[1..], ' ') + Piece(b)) == a[0] + [' '] + Join(a[1..], ' ') + Piece(b);
    }
  }

  // ----- typing what was printed -----

  /** Everything the command forms promise about a row, except that a port comes with a transport. */
  predicate Printable(r: Row) {
    && Token(r.host)
    && (r.transport.Some? ==> IsTransport(r.transport.value))
    && (r.port.Some? ==> MIN_PORT_NUMBER_SUPPORTED <= r.port.value <= MAX_PORT_NUMBER_SUPPORTED)
    && (r.severity.Some? ==> r.severity.value in SEVERITIES)
  }

  lemma SeveritiesAreTokens()
    ensures forall s :: s in SEVERITIES ==> Token(s)
  {
    forall s | s in SEVERITIES ensures Token(s) {
      assert s == "debug" || s == "info" || s == "notice" || s == "warning" || s == "err" || s == "crit" ||
        s == "alert" || s == "emerg";
    }
  }

  lemma LineTokensAreTokens(r: Row)
    requires Printable(r)
    ensures forall t :: t in LineTokens(r) ==> Token(t)
  {
    SeveritiesAreTokens();
    assert Token("logging") && Token("severity") && Token("udp") && Token("tcp");
    if r.port.Some? {
      assert Token(Dec(r.port.value)) by {
        assert forall c :: c in Dec(r.port.value) ==> IsDigit(c);
      }
    }
  }

  lemma NotAPort(r: Row)
    ensures !IsPort("severity") && !IsTransport("severity")
    ensures r.port.Some? && r.port.value >= 0 ==> !IsTransport(Dec(r.port.value)) && Dec(r.port.value) != "severity"
  {
    assert !IsDigit("severity"[0]) && !IsDigit("udp"[0]) && !IsDigit("tcp"[0]);
    assert "severity"[0] in "severity" && "udp"[0] in "udp" && "tcp"[0] in "tcp";
  }

  lemma ParseEnd(q: Row, d: seq<string>)
    requires q.severity.Some? ==> q.severity.value in SEVERITIES
    requires d == if q.severity == None then [] else ["severity", q.severity.value]
    ensures ParseSeverity(q.(severity := None), d) == Some(q)
  {
  }

  lemma ParseTokens(r: Row)
    requires Printable(r)
    ensures ParseSettings(r.host, LineTokens(r)[2..]) == if r.port.Some? && r.transport == None then None else Some(r)
  {
    hide Atoi, Dec, AllDigits, ParseSeverity;
    NotAPort(r);
    if r.port.Some? { AtoiDec(r.port.value); }
    var d := if r.severity == None then [] else ["severity", r.severity.value];
    var ts := LineTokens(r)[2..];
    ParseEnd(r, d);
    if r.transport.Some? && r.port.Some? {
      assert ts == [r.transport.value, DecInt(r.port.value)] + d && ts[2..] == d;
    } else if r.transport.Some? {
      assert ts == [r.transport.value] + d && ts[1..] == d;
    } else if r.port.Some? {
      assert ts == [DecInt(r.port.value)] + d;
      NoSeverity(Row(r.host, None, None, None), ts);
    } else {
      assert ts == d;
    }
  }

  lemma NoSeverity(q: Row, ts: seq<string>)
    requires ts != [] && ts[0] != "severity"
    ensures ParseSeverity(q, ts) == None
  {
  }

  /** Typing a printed line gives the same row back exactly when the row does not have a port
      without a transport; such a line is no command at all. */
  lemma {:induction false} TypedAgain(r: Row, keys: string)
    requires Printable(r)
    ensures CommandOf(PrintLine(r), keys) ==
      if r.port.Some? && r.transport == None then None else Some(Logging(true, r))
  {
    LineTokensAreTokens(r);
    SplitOfJoin(LineTokens(r), ' ');
    ParseTokens(r);
  }

  // ----- replaying a whole configuration -----

  ghost function RowSet(rows: map<nat, Row>): set<Row> {
    set id | id in rows :: rows[id]
  }

  lemma InsertRowSet(db: Db, id: nat, q: Row)
    requires id !in db.rows && FromCommandLine(q)
    ensures RowSet(Insert(db, id, q).rows) == RowSet(db.rows) + {q}
  {
    var rows' := Insert(db, id, q).rows;
    assert rows'[id] == q;
    forall r | r in RowSet(db.rows) ensures r in RowSet(rows') {
      var x :| x in db.rows && db.rows[x] == r;
      assert x in rows' && rows'[x] == r;
    }
  }

  /** Adding a host that is not there yet. */
  lemma AddNew(db: Db, q: Row, e: Env)
    requires Inv(db, e.valid) && EnvOk(db, e) && Visits(e.order, db.rows.Keys)
    requires FromCommandLine(q) && Works(e, q) && |db.refs| < MAX_REMOTE_SERVERS
    requires forall id :: id in db.rows ==> db.rows[id].host != q.host
    ensures Exec(db, Logging(true, q), e) == (Insert(db, e.id, q), Success)
  {
    SearchFinds(db.rows, e.order, 0, q, false, true);
    SearchFinds(db.rows, e.order, 0, q, true, false);
  }

  /** The steps type the printed lines of the rows in the given order, and nothing goes wrong. */
  ghost predicate Replays(steps: seq<Step>, rows: map<nat, Row>, order: seq<nat>, keys: string) {
    && |steps| == |order|
    && forall i :: 0 <= i < |steps| ==> order[i] in rows && ReplaysRow(steps[i], rows[order[i]], keys)
  }

  predicate ReplaysRow(s: Step, r: Row, keys: string) {
    CommandOf(PrintLine(r), keys) == Some(s.c) && (s.c.Logging? ==> Works(s.e, s.c.q))
  }

  /** The rows that come in the order before position k. */
  ghost function Done(rows: map<nat, Row>, order: seq<nat>, k: nat): set<Row>
    requires k <= |order| && forall i :: 0 <= i < |order| ==> order[i] in rows
  {
    set i | 0 <= i < k :: rows[order[i]]
  }

  lemma {:induction false} ReplayFrom(db: Db, steps: seq<Step>, order: seq<nat>, k: nat, cur: Db,
      valid: string -> bool, keys: string)
    requires Inv(db, valid) && Visits(order, db.rows.Keys) && Replays(steps, db.rows, order, keys)
    requires k <= |steps| && IsRun(cur, steps[k..], valid) && Inv(cur, valid)
    requires RowSet(cur.rows) == Done(db.rows, order, k) && |cur.refs| == k && |order| <= MAX_REMOTE_SERVERS
    ensures RowSet(End(cur, steps[k..], valid).rows) == Done(db.rows, order, |order|)
    decreases |steps| - k
  {
    if k < |steps| {
      ReplayOne(db, steps, order, k, cur, valid, keys);
      assert steps[k..][1..] == steps[k + 1..];
      ReplayFrom(db, steps, order, k + 1, Exec(cur, steps[k].c, steps[k].e).0, valid, keys);
    }
  }

  lemma ReplayOne(db: Db, steps: seq<Step>, order: seq<nat>, k: nat, cur: Db, valid: string -> bool, keys: string)
    requires Inv(db, valid) && Visits(order, db.rows.Keys) && Replays(steps, db.rows, order, keys)
    requires k < |steps| && IsRun(cur, steps[k..], valid) && Inv(cur, valid)
    requires RowSet(cur.rows) == Done(db.rows, order, k) && |cur.refs| == k && |order| <= MAX_REMOTE_SERVERS
    ensures var next := Exec(cur, steps[k].c, steps[k].e).0;
      Inv(next, valid) && RowSet(next.rows) == Done(db.rows, order, k + 1) && |next.refs| == k + 1
  {
    hide CommandOf, PrintLine, Exec, Distinct;
    var s, r := steps[k], db.rows[order[k]];
    assert FromCommandLine(r) && ReplaysRow(s, r, keys) && s == steps[k..][0];
    PrintedTyped(s, r, keys);
    HostsBefore(db, order, k, cur);
    AddNew(cur, r, s.e);
    ExecKeeps(cur, s.c, s.e);
    InsertRowSet(cur, s.e.id, r);
    assert Done(db.rows, order, k + 1) == Done(db.rows, order, k) + {r};
  }

  lemma PrintedTyped(s: Step, r: Row, keys: string)
    requires FromCommandLine(r) && ReplaysRow(s, r, keys)
    ensures s.c == Logging(true, r) && Works(s.e, r)
  {
    TypedAgain(r, keys);
  }

  /** The rows rebuilt so far are for other hosts. */
  lemma HostsBefore(db: Db, order: seq<nat>, k: nat, cur: Db)
    requires HostsDistinct(db.rows) && Visits(order, db.rows.Keys) && k < |order|
    requires RowSet(cur.rows) == Done(db.rows, order, k)
    ensures forall id :: id in cur.rows ==> cur.rows[id].host != db.rows[order[k]].host
  {
    forall id | id in cur.rows ensures cur.rows[id].host != db.rows[order[k]].host {
      assert cur.rows[id] in RowSet(cur.rows);
      var i :| 0 <= i < k && db.rows[order[i]] == cur.rows[id];
      assert order[i] != order[k];
    }
  }

  /** Printing the running configuration of any table the commands can produce, in any order of
      iteration, and typing its lines on an empty table rebuilds the same set of rows. */
  lemma {:induction false} Replay(history: seq<Step>, order: seq<nat>, steps: seq<Step>, valid: string -> bool,
      keys: string)
    requires IsRun(EMPTY, history, valid)
    requires var db := End(EMPTY, history, valid);
      Visits(order, db.rows.Keys) && Replays(steps, db.rows, order, keys)
    requires IsRun(EMPTY, steps, valid)
    ensures RowSet(End(EMPTY, steps, valid).rows) == RowSet(End(EMPTY, history, valid).rows)
  {
    var db := End(EMPTY, history, valid);
    RunKeeps(history, valid);
    OrderSize(db, order, valid);
    assert steps[0..] == steps;
    ReplayFrom(db, steps, order, 0, EMPTY, valid, keys);
    assert Done(db.rows, order, |order|) == RowSet(db.rows);
  }

  lemma {:induction false} ElementCount(s: seq<nat>)
    requires Distinct(s)
    ensures |Elements(s)| == |s|
  {
    if s != [] {
      assert s == [s[0]] + s[1..] && s[0] !in s[1..];
      ElementCount(s[1..]);
      assert Elements(s) == {s[0]} + Elements(s[1..]);
    }
  }

  lemma OrderSize(db: Db, order: seq<nat>, valid: string -> bool)
    requires Inv(db, valid) && Visits(order, db.rows.Keys)
    ensures |order| <= MAX_REMOTE_SERVERS
  {
    ElementCount(order);
    ElementCount(db.refs);
    assert Elements(order) == Elements(db.refs);
  }
}
