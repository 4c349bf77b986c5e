/** The daemon that turns the remote syslog table into an rsyslog configuration file: the lines
    it renders, when it installs the file and restarts rsyslog, and what its main loop
    guarantees whenever it blocks. */
module SyslogDaemon {
  import opened Options
  import opened Text
  import opened SyslogTable

  // ----- one line of the file -----

  /** How the host itself is written. */
  function Address(host: string, ipv6: string -> bool): string {
    if ipv6(host) then "[" + host + "]" else host
  }

  function At(transport: string): string {
    if transport == "udp" then "@" else "@@"
  }

  /** The rsyslog line for effective settings. */
  function Line(host: string, f: Effective, ipv6: string -> bool): string {
    "*." + f.severity + " " + At(f.transport) + Address(host, ipv6) + ":" + DecInt(f.port) + "\n"
  }

  /** A transport other than udp and tcp writes nothing. */
  function Render(r: Row, ipv6: string -> bool): string {
    if TransportOf(r.transport) == "udp" || TransportOf(r.transport) == "tcp" then Line(r.host, Eff(r), ipv6) else ""
  }

  function RenderAll(rows: seq<Row>, ipv6: string -> bool): string {
    if rows == [] then "" else Render(rows[0], ipv6) + RenderAll(rows[1..], ipv6)
  }

  /** The last colon separates the address from the port. */
  lemma SplitAtLastColon(a: string, b: string, c: string, d: string)
    requires ':' !in b && ':' !in d && a + [':'] + b == c + [':'] + d
    ensures a == c && b == d
  {
    var s, t := a + [':'] + b, c + [':'] + d;
    assert s[|a|] == ':' && t[|c|] == ':';
    assert forall i :: |a| < i < |s| ==> s[i] == b[i - |a| - 1] && s[i] != ':';
    assert forall i :: |c| < i < |t| ==> t[i] == d[i - |c| - 1] && t[i] != ':';
    assert s[..|a|] == a && t[..|c|] == c && s[|a| + 1..] == b && t[|c| + 1..] == d;
  }

  /** A number can be read back from its digits and sign. */
  lemma DecIntValue(n: int)
    ensures DecInt(n) != []
    ensures if n < 0 then DecInt(n)[0] == '-' && AllDigits(DecInt(n)[1..]) && Atoi(DecInt(n)[1..]) == -n
            else IsDigit(DecInt(n)[0]) && AllDigits(DecInt(n)) && Atoi(DecInt(n)) == n
  {
    if n < 0 {
      AtoiDec(-n);
      assert DecInt(n)[1..] == Dec(-n);
    } else {
      AtoiDec(n);
      assert Dec(n)[0] in Dec(n);
    }
  }

  lemma DecIntInjective(m: int, n: int)
    requires DecInt(m) == DecInt(n)
    ensures m == n
  {
    hide DecInt, Atoi, AllDigits;
    DecIntValue(m);
    DecIntValue(n);
  }

  lemma NoColonInPort(n: int)
    ensures ':' !in DecInt(n) + "\n"
  {
    assert !IsDigit(':');
  }

  /** What stands between the severity and the port. */
  function Target(host: string, transport: string, ipv6: string -> bool): string {
    At(transport) + Address(host, ipv6)
  }

  /** One host is an IPv6 address and the other is that address in brackets. */
  predicate Bracketed(h: string, k: string, ipv6: string -> bool) {
    ipv6(h) && !ipv6(k) && k == "[" + h + "]"
  }

  predicate SameAddress(h: string, k: string, ipv6: string -> bool) {
    h == k || Bracketed(h, k, ipv6) || Bracketed(k, h, ipv6)
  }

  /** Two hosts with their transports stand for one target: the same host, up to brackets, over
      the same transport, or a host over udp that starts with the second at sign of the other. */
  predicate SameTarget(h: string, t: string, k: string, u: string, ipv6: string -> bool) {
    if t == u then SameAddress(h, k, ipv6)
    else if t == "udp" then !ipv6(h) && h == "@" + Address(k, ipv6)
    else !ipv6(k) && k == "@" + Address(h, ipv6)
  }

  /** A host that neither starts with an at sign nor with a bracket. */
  predicate PlainHost(h: string) {
    h == "" || (h[0] != '@' && h[0] != '[')
  }

  predicate UdpOrTcp(transport: string) {
    transport == "udp" || transport == "tcp"
  }

  lemma LinePieces(host: string, f: Effective, ipv6: string -> bool)
    ensures Line(host, f, ipv6) ==
      "*." + f.severity + [' '] + (Target(host, f.transport, ipv6) + [':'] + (DecInt(f.port) + "\n"))
  {
    var at, address := At(f.transport), Address(host, ipv6);
    var p := DecInt(f.port);
    assert "*." + f.severity + " " + at + address + ":" + p + "\n" ==
      "*." + f.severity + [' '] + (at + address + [':'] + (p + "\n"));
  }

  lemma {:induction false} AddressesAlike(h: string, k: string, ipv6: string -> bool)
    ensures Address(h, ipv6) == Address(k, ipv6) <==> SameAddress(h, k, ipv6)
  {
    var a, b := Address(h, ipv6), Address(k, ipv6);
    assert ipv6(h) ==> a[1..|a| - 1] == h;
    assert ipv6(k) ==> b[1..|b| - 1] == k;
  }

  /** What may follow the at signs of two equal texts. */
  lemma AfterAts(t: string, a: string, u: string, b: string)
    ensures At(t) + a == At(u) + b <==>
      if (t == "udp") == (u == "udp") then a == b else if t == "udp" then a == "@" + b else b == "@" + a
  {
    var x, y := At(t) + a, At(u) + b;
    assert x[0] == '@' && y[0] == '@';
    assert x[1..] == (if t == "udp" then a else "@" + a);
    assert y[1..] == (if u == "udp" then b else "@" + b);
    assert x == [x[0]] + x[1..] && y == [y[0]] + y[1..];
    assert ("@" + a)[1..] == a && ("@" + b)[1..] == b;
  }

  /** Only a host that begins with an at sign is written as one. */
  lemma AddressAt(h: string, b: string, ipv6: string -> bool)
    ensures Address(h, ipv6) == "@" + b <==> !ipv6(h) && h == "@" + b
  {
    assert ("[" + h + "]")[0] == '[' && ("@" + b)[0] == '@';
  }

  lemma {:induction false} TargetsAlike(h: string, t: string, k: string, u: string, ipv6: string -> bool)
    requires UdpOrTcp(t) && UdpOrTcp(u)
    ensures Target(h, t, ipv6) == Target(k, u, ipv6) <==> SameTarget(h, t, k, u, ipv6)
  {
    hide At, SameAddress, Address;
    AddressesAlike(h, k, ipv6);
    AfterAts(t, Address(h, ipv6), u, Address(k, ipv6));
    AddressAt(h, Address(k, ipv6), ipv6);
    AddressAt(k, Address(h, ipv6), ipv6);
  }

  /** Two targets are rendered alike exactly when severity, port and target are the same, so the
      defaults of the daemon agree with those of the command line. */
  lemma {:induction false} SameLine(h: string, f: Effective, k: string, g: Effective, ipv6: string -> bool)
    requires ' ' !in f.severity && ' ' !in g.severity && UdpOrTcp(f.transport) && UdpOrTcp(g.transport)
    ensures Line(h, f, ipv6) == Line(k, g, ipv6) <==>
      f.severity == g.severity && f.port == g.port && SameTarget(h, f.transport, k, g.transport, ipv6)
  {
    hide Line, Target, DecInt, SameTarget, Dec;
    LinePieces(h, f, ipv6);
    LinePieces(k, g, ipv6);
    TargetsAlike(h, f.transport, k, g.transport, ipv6);
    if Line(h, f, ipv6) == Line(k, g, ipv6) {
      var x, y := "*." + f.severity, "*." + g.severity;
      var p, q := DecInt(f.port) + "\n", DecInt(g.port) + "\n";
      SplitAtFirst(x, Target(h, f.transport, ipv6) + [':'] + p, y, Target(k, g.transport, ipv6) + [':'] + q, ' ');
      assert x[2..] == f.severity && y[2..] == g.severity;
      NoColonInPort(f.port);
      NoColonInPort(g.port);
      SplitAtLastColon(Target(h, f.transport, ipv6), p, Target(k, g.transport, ipv6), q);
      assert p[..|p| - 1] == DecInt(f.port) && q[..|q| - 1] == DecInt(g.port);
      DecIntInjective(f.port, g.port);
    }
  }

  /** Of hosts that start with neither an at sign nor a bracket, only the same stand for one target. */
  lemma {:induction false} PlainTargets(h: string, t: string, k: string, u: string, ipv6: string -> bool)
    requires UdpOrTcp(t) && UdpOrTcp(u) && ((PlainHost(h) && PlainHost(k)) || h == k)
    ensures SameTarget(h, t, k, u, ipv6) <==> h == k && t == u
  {
    assert h == k ==> h != "@" + Address(k, ipv6);
    assert ("@" + Address(k, ipv6))[0] == '@' && ("@" + Address(h, ipv6))[0] == '@';
    assert ("[" + h + "]")[0] == '[' && ("[" + k + "]")[0] == '[';
  }

  /** A host that begins with an at sign over udp, and the rest of it over tcp. */
  lemma {:induction false} SharedLine(f: Effective, ipv6: string -> bool)
    requires f.transport == "udp" && ' ' !in f.severity && !ipv6("@10.0.0.1") && !ipv6("10.0.0.1")
    ensures "@10.0.0.1" != "10.0.0.1" && f != f.(transport := "tcp")
    ensures Line("@10.0.0.1", f, ipv6) == Line("10.0.0.1", f.(transport := "tcp"), ipv6)
  {
    assert f.transport[0] == 'u' && "tcp"[0] == 't';
    assert "@10.0.0.1" == "@" + "10.0.0.1" && "10.0.0.1"[0] == '1';
    SameLine("@10.0.0.1", f, "10.0.0.1", f.(transport := "tcp"), ipv6);
  }

  /** The port of the last row is skipped, and the rest agrees. */
  predicate SkipsPort(r: Row, last: bool, q: Row) {
    last && r.host == q.host && r.port.Some? && q.port.Some?
    && TransportOf(r.transport) == TransportOf(q.transport) && SeverityOf(r.severity) == SeverityOf(q.severity)
  }

  /** The exact search of the command line takes a row for the wanted one exactly when the daemon
      would render the same line for both, or when it skips the port of the last row. */
  lemma {:induction false} ExactMatchIsSameLine(r: Row, last: bool, q: Row, ipv6: string -> bool)
    requires FromCommandLine(r) && FromCommandLine(q)
    ensures Matches(r, last, q, false, true) <==>
      (r.host == q.host && Render(r, ipv6) == Render(q, ipv6)) || SkipsPort(r, last, q)
    ensures PlainHost(r.host) && PlainHost(q.host) ==>
      (Matches(r, last, q, false, true) <==> Render(r, ipv6) == Render(q, ipv6) || SkipsPort(r, last, q))
  {
    hide Line, PlainHost, SameTarget;
    assert ' ' !in SeverityOf(r.severity) && ' ' !in SeverityOf(q.severity) by {
      SeverityNoSpace(r.severity);
      SeverityNoSpace(q.severity);
    }
    SameLine(r.host, Eff(r), q.host, Eff(q), ipv6);
    if (PlainHost(r.host) && PlainHost(q.host)) || r.host == q.host {
      PlainTargets(r.host, TransportOf(r.transport), q.host, TransportOf(q.transport), ipv6);
    }
    ExactMatchMeaning(r, last, q);
    hide Agrees;
  }

  lemma SeverityNoSpace(s: Option<string>)
    requires s.Some? ==> s.value in SEVERITIES
    ensures ' ' !in SeverityOf(s)
  {
    assert SeverityOf(s) in SEVERITIES;
    var v := SeverityOf(s);
    assert v == "debug" || v == "info" || v == "notice" || v == "warning" || v == "err" || v == "crit" ||
      v == "alert" || v == "emerg";
  }

  // ----- the daemon over time -----

  /** A batch of database changes as the replica receives it: the rows in the replica's order of
      iteration, and by how much the change counter grows. */
  datatype Update = Update(rows: seq<Row>, steps: nat)

  /** One round of the main loop: what the replica receives, and whether an exit is requested. */
  datatype Round = Round(update: Option<Update>, exit: bool)

  /** What holds when the daemon blocks: how many batches it has seen, and the two sides. */
  datatype Wait = Wait(batches: nat, installed: Option<string>, rows: seq<Row>)

  predicate Changes(r: Round) {
    r.update.Some? && r.update.value.steps > 0
  }

  /** The file contents rendered in successive rounds, up to the round that exits. */
  function Contents(rounds: seq<Round>, ipv6: string -> bool): seq<string>
    decreases |rounds|
  {
    if rounds == [] then []
    else
      (if Changes(rounds[0]) then [RenderAll(rounds[0].update.value.rows, ipv6)] else [])
      + (if rounds[0].exit then [] else Contents(rounds[1..], ipv6))
  }

  /** How often a sequence of contents differs from what is installed just before. */
  function Restarts(installed: Option<string>, contents: seq<string>): nat
    decreases |contents|
  {
    if contents == [] then 0
    else (if installed == Some(contents[0]) then 0 else 1) + Restarts(Some(contents[0]), contents[1..])
  }

  function Installed(installed: Option<string>, contents: seq<string>): Option<string> {
    if contents == [] then installed else Some(contents[|contents| - 1])
  }

  /** What the daemon knows and has installed each time it blocks; it blocks once in every round
      that does not exit. */
  function Waits(rounds: seq<Round>, batches: nat, installed: Option<string>, rows: seq<Row>,
      ipv6: string -> bool): seq<Wait>
    decreases |rounds|
  {
    if rounds == [] || rounds[0].exit then []
    else if Changes(rounds[0]) then
      var now := rounds[0].update.value.rows;
      var text := Some(RenderAll(now, ipv6));
      [Wait(batches + 1, text, now)] + Waits(rounds[1..], batches + 1, text, now, ipv6)
    else [Wait(batches, installed, rows)] + Waits(rounds[1..], batches, installed, rows, ipv6)
  }

  /** If there was a change at all, the installed file is the rendering of the current rows. */
  predicate UpToDate(w: Wait, ipv6: string -> bool) {
    w.batches > 0 ==> w.installed == Some(RenderAll(w.rows, ipv6))
  }

  /** Whenever the daemon blocks after at least one batch of changes, the installed file is the
      rendering of the current rows. */
  lemma {:induction false} CaughtUp(rounds: seq<Round>, batches: nat, installed: Option<string>, rows: seq<Row>,
      ipv6: string -> bool)
    requires batches > 0 ==> installed == Some(RenderAll(rows, ipv6))
    ensures forall w :: w in Waits(rounds, batches, installed, rows, ipv6) ==> UpToDate(w, ipv6)
    decreases |rounds|
  {
    hide RenderAll;
    if rounds != [] && !rounds[0].exit {
      if Changes(rounds[0]) {
        var now := rounds[0].update.value.rows;
        CaughtUp(rounds[1..], batches + 1, Some(RenderAll(now, ipv6)), now, ipv6);
      } else {
        CaughtUp(rounds[1..], batches, installed, rows, ipv6);
      }
    }
  }

  class Daemon {
    var installed: Option<string>
    var restarts: nat
    var rows: seq<Row>
    var changeSeqno: nat
    var seqno: nat
    var exiting: bool
    const ipv6: string -> bool

    constructor (installed: Option<string>, ipv6: string -> bool)
      ensures this.installed == installed && restarts == 0 && rows == [] && changeSeqno == 0 && this.ipv6 == ipv6
    {
      this.installed, restarts, rows, changeSeqno, seqno, exiting := installed, 0, [], 0, 0, false;
      this.ipv6 := ipv6;
    }

    /** One line, from the template for the transport and the kind of address. */
    method RenderRow(row: Row) returns (line: string)
      ensures line == Render(row, ipv6)
    {
      hide DecInt, Line;
      var severity := if row.severity == None then "info" else row.severity.value;
      var transport := if row.transport == None then "udp" else row.transport.value;
      line := "";
      if transport == "udp" {
        var port := if row.port.Some? then row.port.value else 514;
        if ipv6(row.host) {
          line := "*." + severity + " @[" + row.host + "]:" + DecInt(port) + "\n";
        } else {
          line := "*." + severity + " @" + row.host + ":" + DecInt(port) + "\n";
        }
        UdpLine(row.host, Eff(row), ipv6, line);
      } else if transport == "tcp" {
        var port := if row.port.Some? then row.port.value else 1470;
        if ipv6(row.host) {
          line := "*." + severity + " @@[" + row.host + "]:" + DecInt(port) + "\n";
        } else {
          line := "*." + severity + " @@" + row.host + ":" + DecInt(port) + "\n";
        }
        TcpLine(row.host, Eff(row), ipv6, line);
      }
    }

    /** Renders all rows, and installs the file and restarts rsyslog if it differs. */
    method Reconfigure()
      modifies this`installed, this`restarts
      ensures installed == Some(RenderAll(rows, ipv6))
      ensures restarts == old(restarts) + (if old(installed) == Some(RenderAll(rows, ipv6)) then 0 else 1)
    {
      hide Render;
      var file := "";
      assert rows[0..] == rows;
      for i := 0 to |rows|
        invariant RenderAll(rows, ipv6) == file + RenderAll(rows[i..], ipv6)
        invariant installed == old(installed) && restarts == old(restarts)
      {
        assert rows[i..][1..] == rows[i + 1..];
        var line := RenderRow(rows[i]);
        assert file + (line + RenderAll(rows[i + 1..], ipv6)) == file + line + RenderAll(rows[i + 1..], ipv6);
        file := file + line;
      }
      assert file + RenderAll([], ipv6) == file;
      if installed != Some(file) {
        installed := Some(file);
        restarts := restarts + 1;
      }
    }

    /** Receives what the database has sent, and reconfigures if the change counter moved. */
    method Run(update: Option<Update>)
      requires seqno == changeSeqno
      modifies this`installed, this`restarts, this`rows, this`changeSeqno, this`seqno
      ensures seqno == changeSeqno
      ensures if update.Some? && update.value.steps > 0 then
                var text := RenderAll(update.value.rows, ipv6);
                && rows == update.value.rows && installed == Some(text)
                && restarts == old(restarts) + (if old(installed) == Some(text) then 0 else 1)
              else rows == old(rows) && installed == old(installed) && restarts == old(restarts)
    {
      if update.Some? && update.value.steps > 0 {
        rows, changeSeqno := update.value.rows, changeSeqno + update.value.steps;
      }
      if seqno != changeSeqno {
        Reconfigure();
        seqno := changeSeqno;
      }
    }

    /** The main loop over any sequence of rounds.  Over the whole run, rsyslog is restarted once
        for every rendered content that differs from the file installed just before. */
    method MainLoop(rounds: seq<Round>) returns (waits: seq<Wait>)
      modifies this
      ensures var contents := Contents(rounds, ipv6);
        && installed == Installed(old(installed), contents)
        && restarts == old(restarts) + Restarts(old(installed), contents)
      ensures waits == Waits(rounds, 0, old(installed), old(rows), ipv6)
    {
      hide Contents, Restarts, RenderAll, Waits, Installed;
      waits, seqno, exiting := [], changeSeqno, false;
      var batches := 0;
      var i := 0;
      ghost var done: seq<string> := [];
      assert rounds[0..] == rounds && [] + Contents(rounds, ipv6) == Contents(rounds, ipv6);
      assert [] + Waits(rounds, 0, installed, rows, ipv6) == Waits(rounds, 0, installed, rows, ipv6);
      NothingYet(batches, installed, rows, ipv6);
      while !exiting && i < |rounds|
        invariant i <= |rounds| && seqno == changeSeqno
        invariant Contents(rounds, ipv6) == done + (if exiting then [] else Contents(rounds[i..], ipv6))
        invariant installed == Installed(old(installed), done) &&
          restarts == old(restarts) + Restarts(old(installed), done)
        invariant Waits(rounds, 0, old(installed), old(rows), ipv6) ==
          waits + (if exiting then [] else Waits(rounds[i..], batches, installed, rows, ipv6))
        decreases |rounds| - i
      {
        var round := rounds[i];
        ghost var next := if Changes(round) then [RenderAll(round.update.value.rows, ipv6)] else [];
        NextRound(rounds, i, done, ipv6);
        NextWait(rounds, i, waits, batches, installed, rows, ipv6);
        if Changes(round) { OneMore(old(installed), done, next[0]); } else { assert done + next == done; }
        Run(round.update);
        if Changes(round) {
          batches := batches + 1;
        }
        assert next == if Changes(round) then [next[0]] else [];
        done := done + next;
        i := i + 1;
        if round.exit {
          exiting := true;
        }
        if !exiting && seqno == changeSeqno {
          waits := waits + [Wait(batches, installed, rows)];
        }
      }
      assert rounds[|rounds|..] == [] && done + [] == done && waits + [] == waits;
      NothingYet(batches, installed, rows, ipv6);
    }
  }

  lemma NothingYet(batches: nat, installed: Option<string>, rows: seq<Row>, ipv6: string -> bool)
    ensures Restarts(installed, []) == 0 && Installed(installed, []) == installed && Contents([], ipv6) == []
    ensures Waits([], batches, installed, rows, ipv6) == []
  {
  }

  lemma NextWait(rounds: seq<Round>, i: nat, waits: seq<Wait>, batches: nat, installed: Option<string>,
      rows: seq<Row>, ipv6: string -> bool)
    requires i < |rounds|
    ensures var c := Changes(rounds[i]);
      var now := if c then rounds[i].update.value.rows else rows;
      var text := if c then Some(RenderAll(now, ipv6)) else installed;
      var b := if c then batches + 1 else batches;
      waits + Waits(rounds[i..], batches, installed, rows, ipv6) ==
      if rounds[i].exit then waits else waits + [Wait(b, text, now)] + Waits(rounds[i + 1..], b, text, now, ipv6)
  {
    assert rounds[i..][0] == rounds[i] && rounds[i..][1..] == rounds[i + 1..];
  }

  lemma NextRound(rounds: seq<Round>, i: nat, done: seq<string>, ipv6: string -> bool)
    requires i < |rounds|
    ensures var next := if Changes(rounds[i]) then [RenderAll(rounds[i].update.value.rows, ipv6)] else [];
      done + Contents(rounds[i..], ipv6) ==
        done + next + (if rounds[i].exit then [] else Contents(rounds[i + 1..], ipv6))
  {
    assert rounds[i..][0] == rounds[i] && rounds[i..][1..] == rounds[i + 1..];
  }

  lemma {:induction false} OneMore(installed: Option<string>, done: seq<string>, text: string)
    ensures Restarts(installed, done + [text]) ==
      Restarts(installed, done) + (if Installed(installed, done) == Some(text) then 0 else 1)
    ensures Installed(installed, done + [text]) == Some(text)
    decreases |done|
  {
    if done == [] {
      assert done + [text] == [text] && [text][1..] == [];
    } else {
      assert (done + [text])[1..] == done[1..] + [text];
      OneMore(Some(done[0]), done[1..], text);
    }
  }

  /** The two templates for udp. */
  lemma {:induction false} UdpLine(host: string, f: Effective, ipv6: string -> bool, line: string)
    requires f.transport == "udp"
    requires line == if ipv6(host) then "*." + f.severity + " @[" + host + "]:" + DecInt(f.port) + "\n"
                     else "*." + f.severity + " @" + host + ":" + DecInt(f.port) + "\n"
    ensures line == Line(host, f, ipv6)
  {
  }

  /** The two templates for tcp. */
  lemma {:induction false} TcpLine(host: string, f: Effective, ipv6: string -> bool, line: string)
    requires f.transport == "tcp"
    requires line == if ipv6(host) then "*." + f.severity + " @@[" + host + "]:" + DecInt(f.port) + "\n"
                     else "*." + f.severity + " @@" + host + ":" + DecInt(f.port) + "\n"
    ensures line == Line(host, f, ipv6)
  {
  }

  /** Reconfiguring again for the same rows restarts nothing. */
  lemma {:induction false} RepeatIsNoOp(installed: Option<string>, done: seq<string>, text: string)
    ensures Restarts(installed, done + [text, text]) == Restarts(installed, done + [text])
    ensures Installed(installed, done + [text, text]) == Installed(installed, done + [text])
  {
    OneMore(installed, done + [text], text);
    assert done + [text] + [text] == done + [text, text];
  }

  // ----- what the file says, spelled out -----

  lemma DefaultPorts()
    ensures DecInt(514) == "514" && DecInt(1470) == "1470"
  {
    assert Dec(5) == "5" && Dec(51) == "51" && Dec(1) == "1" && Dec(14) == "14" && Dec(147) == "147";
  }

  lemma Rendered(r: Row, ipv6: string -> bool, line: string)
    requires UdpOrTcp(TransportOf(r.transport)) && line == Line(r.host, Eff(r), ipv6)
    ensures Render(r, ipv6) == line
  {
    hide Line, Eff;
  }

  /** A host without settings: everything from info on, over udp, to port 514. */
  lemma {:induction false} RenderedDefaults(ipv6: string -> bool)
    requires !ipv6("10.0.0.1")
    ensures Render(Row("10.0.0.1", None, None, None), ipv6) == "*.info @10.0.0.1:514\n"
  {
    hide DecInt, Line, Render;
    DefaultPorts();
    assert "*." + "info" + " @" + "10.0.0.1" + ":" + "514" + "\n" == "*.info @10.0.0.1:514\n";
    UdpLine("10.0.0.1", Effective("udp", 514, "info"), ipv6, "*.info @10.0.0.1:514\n");
    Rendered(Row("10.0.0.1", None, None, None), ipv6, "*.info @10.0.0.1:514\n");
  }

  /** A host with the transport tcp only: two at signs and port 1470. */
  lemma {:induction false} RenderedOverTcp(ipv6: string -> bool)
    requires !ipv6("10.0.0.1")
    ensures Render(Row("10.0.0.1", Some("tcp"), None, None), ipv6) == "*.info @@10.0.0.1:1470\n"
  {
    hide DecInt, Line, Render;
    DefaultPorts();
    assert "*." + "info" + " @@" + "10.0.0.1" + ":" + "1470" + "\n" == "*.info @@10.0.0.1:1470\n";
    assert "tcp"[0] != "udp"[0];
    TcpLine("10.0.0.1", Effective("tcp", 1470, "info"), ipv6, "*.info @@10.0.0.1:1470\n");
    Rendered(Row("10.0.0.1", Some("tcp"), None, None), ipv6, "*.info @@10.0.0.1:1470\n");
  }

  /** An IPv6 address with everything given stands in brackets. */
  lemma {:induction false} RenderedInBrackets(ipv6: string -> bool)
    requires ipv6("2001:db8::1")
    ensures Render(Row("2001:db8::1", Some("tcp"), Some(514), Some("err")), ipv6) == "*.err @@[2001:db8::1]:514\n"
  {
    hide DecInt, Line, Render;
    DefaultPorts();
    assert "*." + "err" + " @@[" + "2001:db8::1" + "]:" + "514" + "\n" == "*.err @@[2001:db8::1]:514\n";
    TcpLine("2001:db8::1", Effective("tcp", 514, "err"), ipv6, "*.err @@[2001:db8::1]:514\n");
    Rendered(Row("2001:db8::1", Some("tcp"), Some(514), Some("err")), ipv6, "*.err @@[2001:db8::1]:514\n");
  }

  /** The lines stand in the order of the rows. */
  lemma {:induction false} RenderedInOrder(a: seq<Row>, b: seq<Row>, ipv6: string -> bool)
    ensures RenderAll(a + b, ipv6) == RenderAll(a, ipv6) + RenderAll(b, ipv6)
    decreases |a|
  {
    hide Render;
    if a == [] {
      assert a + b == b;
    } else {
      assert (a + b)[1..] == a[1..] + b;
      RenderedInOrder(a[1..], b, ipv6);
      var x, y, z := Render(a[0], ipv6), RenderAll(a[1..], ipv6), RenderAll(b, ipv6);
      assert x + (y + z) == x + y + z;
    }
  }

  // ----- what the daemon knows when it blocks -----

  /** The replica receives new rows in this round. */
  predicate Receives(r: Round) {
    match r.update
    case None => false
    case Some(u) => u.steps != 0
  }

  /** The daemon blocks once in every round, up to the first that exits. */
  lemma {:induction false} BlocksInEachRound(rounds: seq<Round>, batches: nat, installed: Option<string>,
      rows: seq<Row>, ipv6: string -> bool)
    ensures var n := |Waits(rounds, batches, installed, rows, ipv6)|;
      n <= |rounds| && (forall k :: 0 <= k < n ==> !rounds[k].exit) && (n < |rounds| ==> rounds[n].exit)
    decreases |rounds|
  {
    hide RenderAll;
    if rounds != [] && !rounds[0].exit {
      var r := rounds[0];
      var now := if Changes(r) then r.update.value.rows else rows;
      var text := if Changes(r) then Some(RenderAll(now, ipv6)) else installed;
      var b := if Changes(r) then batches + 1 else batches;
      BlocksInEachRound(rounds[1..], b, text, now, ipv6);
      assert forall k :: 1 <= k < |rounds| ==> rounds[k] == rounds[1..][k - 1];
    }
  }

  /** When the daemon blocks, its rows are those received last, and the installed file is their
      rendering. */
  lemma {:induction false} KnowsTheLast(rounds: seq<Round>, batches: nat, installed: Option<string>,
      rows: seq<Row>, ipv6: string -> bool, j: nat, k: nat)
    requires k < |Waits(rounds, batches, installed, rows, ipv6)| <= |rounds| && j <= k && Receives(rounds[j])
    requires forall m :: j < m <= k ==> !Receives(rounds[m])
    ensures var w := Waits(rounds, batches, installed, rows, ipv6)[k];
      w.rows == rounds[j].update.value.rows && w.installed == Some(RenderAll(w.rows, ipv6))
    decreases |rounds|
  {
    hide RenderAll;
    var r := rounds[0];
    var now := if Changes(r) then r.update.value.rows else rows;
    var text := if Changes(r) then Some(RenderAll(now, ipv6)) else installed;
    var b := if Changes(r) then batches + 1 else batches;
    BlocksInEachRound(rounds[1..], b, text, now, ipv6);
    assert forall m :: 1 <= m < |rounds| ==> rounds[m] == rounds[1..][m - 1];
    if j > 0 {
      KnowsTheLast(rounds[1..], b, text, now, ipv6, j - 1, k - 1);
    } else {
      assert Changes(r);
      if k > 0 { KeepsWithout(rounds[1..], b, text, now, ipv6, k - 1); }
    }
  }

  /** Until something is received, the rows and the installed file stay as they were. */
  lemma {:induction false} KeepsWithout(rounds: seq<Round>, batches: nat, installed: Option<string>,
      rows: seq<Row>, ipv6: string -> bool, k: nat)
    requires k < |Waits(rounds, batches, installed, rows, ipv6)| <= |rounds|
    requires forall m :: 0 <= m <= k ==> !Receives(rounds[m])
    ensures var w := Waits(rounds, batches, installed, rows, ipv6)[k]; w.rows == rows && w.installed == installed
    decreases |rounds|
  {
    hide RenderAll;
    if k > 0 {
      assert !Receives(rounds[0]);
      BlocksInEachRound(rounds[1..], batches, installed, rows, ipv6);
      assert forall m :: 1 <= m < |rounds| ==> rounds[m] == rounds[1..][m - 1];
      KeepsWithout(rounds[1..], batches, installed, rows, ipv6, k - 1);
    }
  }
}
