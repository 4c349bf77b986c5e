/** What can be typed to configure remote syslog servers: exactly which lines are commands, and what
    the two forms of removal lead to after any sequence of commands. */
module SyslogForms {
  import opened Options
  import opened Sequences
  import opened Text
  import opened SyslogTable
  import opened SyslogText

  // ----- which lines are commands -----

  /** The words of a command about one host, with the port as it is typed. */
  function Words(isAdd: bool, q: Row, port: Option<string>): seq<string> {
    (if isAdd then [] else ["no"]) + ["logging", q.host]
    + OptionalTokens(q.transport) + OptionalTokens(port)
    + (if q.severity == None then [] else ["severity", q.severity.value])
  }

  /** A port is typed in decimal, in range and after a transport. */
  predicate TypedAs(q: Row, port: Option<string>) {
    && (q.transport.Some? ==> q.transport.value == "udp" || q.transport.value == "tcp")
    && (q.severity.Some? ==> q.severity.value in SEVERITIES)
    && (match port
        case None => q.port == None
        case Some(p) => q.transport.Some? && IsPortNumber(p) && q.port == Some(Atoi(p)))
  }

  predicate IsPortNumber(p: string) {
    p != [] && AllDigits(p) && 1 <= Atoi(p) <= 65535
  }

  ghost predicate Typed(line: string, isAdd: bool, q: Row) {
    exists port :: TypedAs(q, port) && Tokens(line) == Words(isAdd, q, port)
  }

  /** The port that follows the transport on a line. */
  function PortWord(ts: seq<string>): Option<string> {
    if |ts| > 1 && IsTransport(ts[0]) && IsPort(ts[1]) then Some(ts[1]) else None
  }

  lemma SeverityWords(q: Row, ts: seq<string>)
    requires q.severity == None && ParseSeverity(q, ts).Some?
    ensures var r := ParseSeverity(q, ts).value;
      && r == q.(severity := r.severity) && (r.severity.Some? ==> r.severity.value in SEVERITIES)
      && ts == if r.severity == None then [] else ["severity", r.severity.value]
  {
  }

  /** What is understood as settings is spelled like them. */
  lemma SettingsWords(host: string, ts: seq<string>)
    requires ParseSettings(host, ts).Some?
    ensures var q := ParseSettings(host, ts).value;
      && q.host == host && TypedAs(q, PortWord(ts))
      && [host] + ts == Words(true, q, PortWord(ts))[1..]
  {
    hide ParseSeverity, Atoi, AllDigits;
    var q := Row(host, None, None, None);
    var r := ParseSettings(host, ts).value;
    var severity := if r.severity == None then [] else ["severity", r.severity.value];
    if ts == [] || !IsTransport(ts[0]) {
      SeverityWords(q, ts);
      assert ts == severity;
    } else if |ts| > 1 && IsPort(ts[1]) {
      SeverityWords(q.(transport := Some(ts[0]), port := Some(Atoi(ts[1]))), ts[2..]);
      assert ts == [ts[0], ts[1]] + severity;
    } else {
      SeverityWords(q.(transport := Some(ts[0])), ts[1..]);
      assert ts == [ts[0]] + severity;
    }
  }

  lemma SeverityRead(q: Row, ts: seq<string>, severity: Option<string>)
    requires q.severity == None && (severity.Some? ==> severity.value in SEVERITIES)
    requires ts == if severity == None then [] else ["severity", severity.value]
    ensures ParseSeverity(q, ts) == Some(q.(severity := severity))
  {
  }

  /** Settings spelled out are understood. */
  lemma SettingsRead(q: Row, port: Option<string>)
    requires TypedAs(q, port)
    ensures ParseSettings(q.host, Words(true, q, port)[2..]) == Some(q)
  {
    hide ParseSeverity, Atoi, AllDigits;
    var bare := Row(q.host, None, None, None);
    var ts := Words(true, q, port)[2..];
    var severity := if q.severity == None then [] else ["severity", q.severity.value];
    assert !IsTransport("severity") && !IsPort("severity") by { NoPortNamed(); }
    if q.transport == None {
      assert ts == severity;
      SeverityRead(bare, ts, q.severity);
    } else if port.Some? {
      assert ts == [q.transport.value, port.value] + severity && ts[2..] == severity;
      SeverityRead(bare.(transport := q.transport, port := q.port), severity, q.severity);
    } else {
      assert ts == [q.transport.value] + severity && ts[1..] == severity;
      SeverityRead(bare.(transport := q.transport), severity, q.severity);
    }
  }

  lemma NoPortNamed()
    ensures !IsTransport("severity") && !IsPort("severity")
  {
    assert "severity"[0] in "severity" && !IsDigit("severity"[0]) && "udp"[0] == 'u' && "tcp"[0] == 't';
  }

  lemma Understood(line: string, keys: string, isAdd: bool, q: Row)
    requires CommandOf(line, keys) == Some(Logging(isAdd, q))
    ensures Typed(line, isAdd, q)
  {
    hide Tokens, ParseSettings, TypedAs, Words, PortWord;
    var ts, n := Tokens(line), if isAdd then 2 else 3;
    SettingsWords(ts[n - 1], ts[n..]);
    var port := PortWord(ts[n..]);
    WordsBegin(isAdd, q, port);
    assert ts == (if isAdd then ["logging"] else ["no", "logging"]) + ([ts[n - 1]] + ts[n..]);
    assert ts == Words(isAdd, q, port);
  }

  lemma WordsBegin(isAdd: bool, q: Row, port: Option<string>)
    ensures Words(true, q, port) != []
    ensures Words(isAdd, q, port) == (if isAdd then ["logging"] else ["no", "logging"]) + Words(true, q, port)[1..]
  {
  }

  lemma SpelledOut(line: string, keys: string, isAdd: bool, q: Row)
    requires Typed(line, isAdd, q)
    ensures CommandOf(line, keys) == Some(Logging(isAdd, q))
  {
    hide Tokens, ParseSettings, TypedAs;
    var port :| TypedAs(q, port) && Tokens(line) == Words(isAdd, q, port);
    SettingsRead(q, port);
    var n := if isAdd then 2 else 3;
    assert Tokens(line)[n..] == Words(true, q, port)[2..];
  }

  /** A line is the command that sets or removes a host with some settings exactly when its words spell
      that out; the question is asked exactly for the two words alone. */
  lemma {:induction false} AcceptedExactly(line: string, keys: string, isAdd: bool, q: Row)
    ensures CommandOf(line, keys) == Some(Logging(isAdd, q)) <==> Typed(line, isAdd, q)
    ensures CommandOf(line, keys) == Some(RemoveAll(keys)) <==> Tokens(line) == ["no", "logging"]
  {
    hide Tokens, ParseSettings, Typed;
    if CommandOf(line, keys) == Some(Logging(isAdd, q)) { Understood(line, keys, isAdd, q); }
    if Typed(line, isAdd, q) { SpelledOut(line, keys, isAdd, q); }
  }

  // ----- removing one server -----

  lemma NoLine(r: Row)
    requires Printable(r)
    ensures Tokens("no " + PrintLine(r)) == ["no"] + LineTokens(r)
  {
    hide Join;
    LineTokensAreTokens(r);
    assert Token("no");
    var ts := ["no"] + LineTokens(r);
    assert forall t :: t in ts ==> t == "no" || t in LineTokens(r);
    assert ts[1..] == LineTokens(r);
    assert Join(ts, ' ') == "no" + [' '] + Join(ts[1..], ' ') by { JoinFirst(ts); }
    assert "no" + [' '] + PrintLine(r) == "no " + PrintLine(r);
    SplitOfJoin(ts, ' ');
  }

  lemma JoinFirst(ts: seq<string>)
    requires |ts| > 1
    ensures Join(ts, ' ') == ts[0] + [' '] + Join(ts[1..], ' ')
  {
  }

  /** A printed line with "no" before it is the command to remove that row. */
  lemma {:induction false} NoTyped(r: Row, keys: string)
    requires FromCommandLine(r)
    ensures CommandOf("no " + PrintLine(r), keys) == Some(Logging(false, r))
  {
    hide PrintLine, Tokens, ParseSettings;
    NoLine(r);
    ParseTokens(r);
    var ts := ["no"] + LineTokens(r);
    assert ts[3..] == LineTokens(r)[2..];
  }

  /** After any sequence of commands, typing "no" and a line of the running configuration removes the
      entry of its host and no other. */
  lemma {:induction false} NoPrintedLine(history: seq<Step>, id: nat, e: Env, keys: string)
    requires IsRun(EMPTY, history, e.valid)
    requires var db := End(EMPTY, history, e.valid);
      id in db.rows && EnvOk(db, e) && Visits(e.order, db.rows.Keys) && Works(e, db.rows[id])
    ensures var db := End(EMPTY, history, e.valid);
      var c := CommandOf("no " + PrintLine(db.rows[id]), keys);
      && c.Some? && HostsDistinct(db.rows) && HostsDistinct(Exec(db, c.value, e).0.rows)
      && Abs(Exec(db, c.value, e).0.rows) == Abs(db.rows) - {db.rows[id].host}
      && Exec(db, c.value, e).1 == Success
  {
    hide CommandOf, PrintLine, Exec, Abs, Visits;
    var db := End(EMPTY, history, e.valid);
    RunKeeps(history, e.valid);
    var r := db.rows[id];
    NoTyped(r, keys);
    RemoveRefines(db, r, e);
    assert Abs(db.rows)[r.host] == Eff(r);
  }

  // ----- removing all servers -----

  lemma NoLogging(keys: string)
    ensures CommandOf("no logging", keys) == Some(RemoveAll(keys))
  {
    hide Tokens;
    SplitPair("no", "logging", ' ');
    assert Tokens("no logging") == Split("no logging", ' ') by { AreSplit("no logging"); }
    assert "no" + [' '] + "logging" == "no logging";
  }

  lemma AreSplit(line: string)
    ensures Tokens(line) == Split(line, ' ')
  {
  }

  /** No host is configured, nothing is referred to, and the running configuration has no line. */
  ghost predicate NothingLeft(db: Db) {
    && HostsDistinct(db.rows) && Abs(db.rows) == map[] && db.refs == []
    && forall order :: Visits(order, db.rows.Keys) ==> order == []
  }

  lemma EmptyIsNothing()
    ensures NothingLeft(EMPTY)
  {
    hide Abs, Visits;
    assert Abs(EMPTY.rows) == map[] by { AbsSize(EMPTY, _ => true); }
    forall order | Visits(order, EMPTY.rows.Keys) ensures order == [] {
      if order != [] { FirstVisited(order, EMPTY.rows.Keys); }
    }
  }

  lemma FirstVisited(order: seq<nat>, ids: set<nat>)
    requires Visits(order, ids) && order != []
    ensures order[0] in ids
  {
  }

  /** For any table, typing `no logging` and answering y removes everything, when nothing fails.  With
      the answer n, whatever the database does, with the answer y when something fails, and without an
      answer, the table stays as it is.  Keys other than y and n before the answer do not matter. */
  lemma {:induction false} RemoveAllRefines(db: Db, e: Env, others: string, more: string)
    requires EnvOk(db, e) && 'y' !in others && 'n' !in others
    ensures var yes, no, none := CommandOf("no logging", others + ['y'] + more),
        CommandOf("no logging", others + ['n'] + more), CommandOf("no logging", others);
      && yes.Some? && no.Some? && none.Some?
      && (if e.txn && e.system && e.commit
          then NothingLeft(Exec(db, yes.value, e).0) && Exec(db, yes.value, e).1 == Success
          else Exec(db, yes.value, e) == (db, DatabaseFailure))
      && Exec(db, no.value, e) == (db, Success) && Exec(db, none.value, e) == (db, Unanswered)
  {
    hide CommandOf, NothingLeft, Search;
    NoLogging(others + ['y'] + more);
    NoLogging(others + ['n'] + more);
    NoLogging(others);
    AnswerIs(others, 'y', more);
    AnswerIs(others, 'n', more);
    NoAnswer(others);
    EmptyIsNothing();
  }

  lemma {:induction false} NoAnswer(others: string)
    requires 'y' !in others && 'n' !in others
    ensures Answer(others) == None
  {
    if others != [] {
      assert others[0] in others;
      NoAnswer(others[1..]);
    }
  }
}
