/** The remote syslog table behind the `logging` and `no logging` commands: rows with optional
    columns, and the list of references to them in the System row.

    A command runs in one transaction.  What it writes is visible at once within the
    transaction; when the transaction is aborted or its commit fails, nothing has changed. */
module SyslogTable {
  import opened Options
  import opened Sequences
  import opened Text

  const DEFAULT_UDP_PORT := 514
  const DEFAULT_TCP_PORT := 1470
  const MAX_REMOTE_SERVERS := 4
  const MIN_PORT_NUMBER_SUPPORTED := 1
  const MAX_PORT_NUMBER_SUPPORTED := 65535
  const MAX_HOST_LENGTH := 255

  datatype Row = Row(host: string, transport: Option<string>, port: Option<int>, severity: Option<string>)

  // ----- what a row means once its defaults are filled in -----

  function TransportOf(t: Option<string>): string {
    if t == None then "udp" else t.value
  }

  function DefaultPort(t: Option<string>): int {
    if TransportOf(t) == "udp" then DEFAULT_UDP_PORT else DEFAULT_TCP_PORT
  }

  function PortOf(t: Option<string>, p: Option<int>): int {
    if p == None then DefaultPort(t) else p.value
  }

  function SeverityOf(s: Option<string>): string {
    if s == None then "info" else s.value
  }

  datatype Effective = Effective(transport: string, port: int, severity: string)

  function Eff(r: Row): Effective {
    Effective(TransportOf(r.transport), PortOf(r.transport, r.port), SeverityOf(r.severity))
  }

  // ----- the search -----

  /** What the row search accepts.  Without an exact match, only the given fields count.  The port of
      the row that is visited last is not compared when both ports are explicit. */
  predicate Matches(r: Row, last: bool, q: Row, hostOnly: bool, exact: bool) {
    r.host == q.host && (hostOnly || Agrees(r, last, q, exact))
  }

  predicate Agrees(r: Row, last: bool, q: Row, exact: bool) {
    && (exact || q.transport.Some? ==> TransportOf(r.transport) == TransportOf(q.transport))
    && (exact || q.port.Some? ==>
      PortOf(r.transport, r.port) == PortOf(r.transport, q.port) || (last && r.port.Some? && q.port.Some?))
    && (exact || q.severity.Some? ==> SeverityOf(r.severity) == SeverityOf(q.severity))
  }

  /** The order in which the database library visits the rows: each exactly once. */
  ghost predicate Visits(order: seq<nat>, ids: set<nat>) {
    && (forall i, j :: 0 <= i < j < |order| ==> order[i] != order[j])
    && (forall i :: 0 <= i < |order| ==> order[i] in ids)
    && (forall id :: id in ids ==> id in order)
  }

  /** The first row in that order that the search accepts. */
  function Search(rows: map<nat, Row>, order: seq<nat>, i: nat, q: Row, hostOnly: bool, exact: bool): Option<nat>
    requires forall k :: 0 <= k < |order| ==> order[k] in rows
    decreases |order| - i
  {
    if i >= |order| then None
    else if Matches(rows[order[i]], i + 1 == |order|, q, hostOnly, exact) then Some(order[i])
    else Search(rows, order, i + 1, q, hostOnly, exact)
  }

  // ----- the commands -----

  datatype Status =
    | Success
    | HostTooLong | HostInvalid | NotFound | LimitReached
    | DatabaseFailure | Unanswered

  /** What the database does during one command: whether the transaction is created, the
      System row is there, a row can be inserted, and the commit succeeds; the order of
      iteration; the identifier a new row would get; and which hosts are valid. */
  datatype Env = Env(
    txn: bool, system: bool, insert: bool, commit: bool,
    order: seq<nat>, id: nat, valid: string -> bool)

  datatype Db = Db(rows: map<nat, Row>, refs: seq<nat>)

  /** The question whether to remove everything comes with the keys that are pressed from then on. */
  datatype Command = Logging(isAdd: bool, q: Row) | RemoveAll(keys: string)

  /** The first y or n; any other key repeats the question. */
  function Answer(keys: string): Option<bool> {
    if keys == [] then None
    else if keys[0] == 'y' then Some(true)
    else if keys[0] == 'n' then Some(false)
    else Answer(keys[1..])
  }

  function Without(refs: seq<nat>, id: nat): seq<nat> {
    if refs == [] then []
    else if refs[0] == id then Without(refs[1..], id)
    else [refs[0]] + Without(refs[1..], id)
  }

  function Delete(db: Db, id: nat): Db {
    Db(db.rows - {id}, Without(db.refs, id))
  }

  /** The new row: a port outside the supported range is not stored. */
  function Stored(q: Row): Row {
    if q.port.Some? && !(MIN_PORT_NUMBER_SUPPORTED <= q.port.value <= MAX_PORT_NUMBER_SUPPORTED)
    then q.(port := None) else q
  }

  function Insert(db: Db, id: nat, q: Row): Db {
    Db(db.rows[id := Stored(q)], db.refs + [id])
  }

  predicate EnvOk(db: Db, e: Env) {
    (forall k :: 0 <= k < |e.order| ==> e.order[k] in db.rows) && e.id !in db.rows && e.id !in db.refs
  }

  /** The table the transaction of a command would commit, or why the command is refused. */
  function Body(db: Db, isAdd: bool, q: Row, e: Env): (Db, Status)
    requires EnvOk(db, e)
  {
    var similar := Search(db.rows, e.order, 0, q, isAdd, false);
    var rest := if similar.Some? then Delete(db, similar.value) else db;
    if !isAdd then (if similar.Some? then (rest, Success) else (db, NotFound))
    else if |rest.refs| >= MAX_REMOTE_SERVERS then (db, LimitReached)
    else if !e.insert then (db, DatabaseFailure)
    else (Insert(rest, e.id, q), Success)
  }

  function Commit(db: Db, x: (Db, Status), e: Env): (Db, Status) {
    if x.1 == Success && !e.commit then (db, DatabaseFailure) else x
  }

  /** One whole command. */
  function Exec(db: Db, c: Command, e: Env): (Db, Status)
    requires EnvOk(db, e)
  {
    match c
    case RemoveAll(keys) =>
      if Answer(keys) == None then (db, Unanswered)
      else if !Answer(keys).value then (db, Success)
      else if !e.txn || !e.system then (db, DatabaseFailure)
      else Commit(db, (Db(map[], []), Success), e)
    case Logging(isAdd, q) =>
      if !e.txn then (db, DatabaseFailure)
      else if |q.host| > MAX_HOST_LENGTH then (db, HostTooLong)
      else if !e.valid(q.host) then (db, HostInvalid)
      else if !e.system then (db, DatabaseFailure)
      else if isAdd && Search(db.rows, e.order, 0, q, false, true).Some? then (db, Success)
      else Commit(db, Body(db, isAdd, q, e), e)
  }

  // ----- the table as the commands update it -----

  class Remotes {
    var rows: map<nat, Row>
    var refs: seq<nat>

    function Contents(): Db
      reads this
    {
      Db(rows, refs)
    }

    constructor ()
      ensures Contents() == Db(map[], [])
    {
      rows, refs := map[], [];
    }

    /** The search, comparison by comparison. */
    method GetConfig(q: Row, hostOnly: bool, exact: bool, order: seq<nat>) returns (r: Option<nat>)
      requires forall k :: 0 <= k < |order| ==> order[k] in rows
      ensures r == Search(rows, order, 0, q, hostOnly, exact)
    {
      for i := 0 to |order|
        invariant Search(rows, order, 0, q, hostOnly, exact) == Search(rows, order, i, q, hostOnly, exact)
      {
        var row := rows[order[i]];
        var hasNext := i + 1 < |order|;
        if row.host != q.host {
          continue;
        }
        if !hostOnly {
          if q.transport.Some? {
            if row.transport.Some? {
              if row.transport.value != q.transport.value {
                continue;
              }
            } else if "udp" != q.transport.value {
              continue;
            }
          } else if exact {
            if row.transport.Some? && row.transport.value != "udp" {
              continue;
            }
          }
          var udp := row.transport == None || row.transport.value == "udp";
          if q.port.Some? {
            if row.port == None {
              if udp && q.port.value != DEFAULT_UDP_PORT {
                continue;
              } else if !udp && q.port.value != DEFAULT_TCP_PORT {
                continue;
              }
            } else if hasNext && row.port.value != q.port.value {
              continue;
            }
          } else if exact && row.port.Some? {
            if udp && row.port.value != DEFAULT_UDP_PORT {
              continue;
            } else if !udp && row.port.value != DEFAULT_TCP_PORT {
              continue;
            }
          }
          if q.severity.Some? {
            if row.severity.Some? {
              if row.severity.value != q.severity.value {
                continue;
              }
            } else if "info" != q.severity.value {
              continue;
            }
          } else if exact && row.severity.Some? && row.severity.value != "info" {
            continue;
          }
        }
        return Some(order[i]);
      }
      return None;
    }

    /** Deletes the matching row and rebuilds the list of references without it. */
    method DeleteConfig(q: Row, hostOnly: bool, errorOnNoMatch: bool, order: seq<nat>) returns (s: Status)
      requires forall k :: 0 <= k < |order| ==> order[k] in rows
      modifies this
      ensures var r := Search(old(rows), order, 0, q, hostOnly, false);
        && (r.Some? ==> s == Success && Contents() == Delete(old(Contents()), r.value))
        && (r == None ==> s == (if errorOnNoMatch then NotFound else Success) && Contents() == old(Contents()))
    {
      var r := GetConfig(q, hostOnly, false, order);
      if r.Some? {
        rows := rows - {r.value};
        var kept: seq<nat> := [];
        assert refs[0..] == refs;
        for i := 0 to |refs|
          invariant Without(refs, r.value) == kept + Without(refs[i..], r.value)
          invariant rows == old(rows) - {r.value} && refs == old(refs)
        {
          assert refs[i..][1..] == refs[i + 1..];
          if refs[i] != r.value {
            kept := kept + [refs[i]];
          }
        }
        refs := kept;
        return Success;
      }
      return if errorOnNoMatch then NotFound else Success;
    }

    /** `logging` and `no logging` with a host. */
    method Config(q: Row, isAdd: bool, e: Env) returns (s: Status)
      requires EnvOk(Contents(), e)
      modifies this
      ensures (Contents(), s) == Exec(old(Contents()), Logging(isAdd, q), e)
    {
      if !e.txn {
        return DatabaseFailure;
      }
      if |q.host| > MAX_HOST_LENGTH {
        return HostTooLong;
      }
      if !e.valid(q.host) {
        return HostInvalid;
      }
      if !e.system {
        return DatabaseFailure;
      }
      if isAdd {
        var same := GetConfig(q, false, true, e.order);
        if same.Some? {
          return Success;
        }
      }
      var savedRows, savedRefs := rows, refs;
      s := DeleteConfig(q, isAdd, !isAdd, e.order);
      if s != Success {
        return;
      }
      if isAdd {
        if |refs| >= MAX_REMOTE_SERVERS {
          rows, refs := savedRows, savedRefs;
          return LimitReached;
        }
        if !e.insert {
          rows, refs := savedRows, savedRefs;
          return DatabaseFailure;
        }
        var row := Row(q.host, q.transport, None, q.severity);
        if q.port.Some? && MIN_PORT_NUMBER_SUPPORTED <= q.port.value <= MAX_PORT_NUMBER_SUPPORTED {
          row := row.(port := q.port);
        }
        rows, refs := rows[e.id := row], refs + [e.id];
      }
      if !e.commit {
        rows, refs := savedRows, savedRefs;
        return DatabaseFailure;
      }
    }

    /** `no logging` alone: asks until the answer is y or n. */
    method ConfigNone(keys: string, e: Env) returns (s: Status)
      requires EnvOk(Contents(), e)
      modifies this
      ensures (Contents(), s) == Exec(old(Contents()), RemoveAll(keys), e)
    {
      assert keys[0..] == keys;
      for i := 0 to |keys|
        invariant Answer(keys) == Answer(keys[i..]) && Contents() == old(Contents())
      {
        assert keys[i..][0] == keys[i] && keys[i..][1..] == keys[i + 1..];
        if keys[i] == 'y' {
          if !e.txn || !e.system || !e.commit {
            return DatabaseFailure;
          }
          rows, refs := map[], [];
          return Success;
        } else if keys[i] == 'n' {
          return Success;
        }
      }
      return Unanswered;
    }
  }

  // ----- what every run keeps -----

  const SEVERITIES := ["debug", "info", "notice", "warning", "err", "crit", "alert", "emerg"]

  /** What the command forms can produce: a host without blanks, and a port only after a
      transport and in range. */
  predicate FromCommandLine(q: Row) {
    && Token(q.host)
    && (q.transport.Some? ==> q.transport.value == "udp" || q.transport.value == "tcp")
    && (q.port.Some? ==> q.transport.Some? && MIN_PORT_NUMBER_SUPPORTED <= q.port.value <= MAX_PORT_NUMBER_SUPPORTED)
    && (q.severity.Some? ==> q.severity.value in SEVERITIES)
  }

  ghost predicate HostsDistinct(rows: map<nat, Row>) {
    forall a, b :: a in rows && b in rows && a != b ==> rows[a].host != rows[b].host
  }

  /** At most four rows with pairwise distinct, valid hosts; the references are a listing of
      exactly the rows, without duplicates; and every row looks as a command line could have
      written it, so that a stored port is in range and implies a stored transport. */
  ghost predicate Inv(db: Db, valid: string -> bool) {
    && HostsDistinct(db.rows) && Distinct(db.refs)
    && (forall id :: id in db.rows <==> id in db.refs)
    && |db.refs| <= MAX_REMOTE_SERVERS
    && forall id :: id in db.rows ==>
      FromCommandLine(db.rows[id]) && |db.rows[id].host| <= MAX_HOST_LENGTH && valid(db.rows[id].host)
  }

  lemma {:induction false} WithoutIs(refs: seq<nat>, id: nat)
    ensures forall x :: x in Without(refs, id) <==> x in refs && x != id
    ensures Distinct(refs) ==>
      Distinct(Without(refs, id)) && |Without(refs, id)| == |refs| - (if id in refs then 1 else 0)
  {
    if refs != [] {
      WithoutIs(refs[1..], id);
      assert refs == [refs[0]] + refs[1..];
      if Distinct(refs) {
        assert refs[0] !in refs[1..];
        assert Distinct(refs[1..]);
      }
    }
  }

  lemma {:induction false} SearchFinds(rows: map<nat, Row>, order: seq<nat>, i: nat, q: Row, hostOnly: bool,
      exact: bool)
    requires forall k :: 0 <= k < |order| ==> order[k] in rows
    ensures var r := Search(rows, order, i, q, hostOnly, exact);
      && (r.Some? ==> exists k ::
           i <= k < |order| && order[k] == r.value && Matches(rows[order[k]], k + 1 == |order|, q, hostOnly, exact))
      && (r == None ==> forall k :: i <= k < |order| ==> !Matches(rows[order[k]], k + 1 == |order|, q, hostOnly, exact))
    decreases |order| - i
  {
    if i < |order| {
      SearchFinds(rows, order, i + 1, q, hostOnly, exact);
    }
  }

  lemma DeleteKeeps(db: Db, id: nat, valid: string -> bool)
    requires Inv(db, valid) && id in db.rows
    ensures Inv(Delete(db, id), valid) && |Delete(db, id).refs| == |db.refs| - 1
  {
    WithoutIs(db.refs, id);
  }

  lemma InsertKeeps(db: Db, id: nat, q: Row, valid: string -> bool)
    requires Inv(db, valid) && id !in db.rows && |db.refs| < MAX_REMOTE_SERVERS
    requires FromCommandLine(q) && |q.host| <= MAX_HOST_LENGTH && valid(q.host)
    requires forall x :: x in db.rows ==> db.rows[x].host != q.host
    ensures Inv(Insert(db, id, q), valid)
  {
  }

  /** The one row for a host, if there is one. */
  ghost predicate RowFor(rows: map<nat, Row>, host: string, r: Option<nat>) {
    match r
    case Some(id) => id in rows && rows[id].host == host
    case None => forall id :: id in rows ==> rows[id].host != host
  }

  lemma SearchByHost(db: Db, q: Row, e: Env, valid: string -> bool)
    requires Inv(db, valid) && EnvOk(db, e) && Visits(e.order, db.rows.Keys)
    ensures RowFor(db.rows, q.host, Search(db.rows, e.order, 0, q, true, false))
  {
    SearchFinds(db.rows, e.order, 0, q, true, false);
  }

  /** Every command, whatever the database does, keeps the invariant. */
  lemma {:induction false} ExecKeeps(db: Db, c: Command, e: Env)
    requires Inv(db, e.valid) && EnvOk(db, e) && Visits(e.order, db.rows.Keys)
    requires c.Logging? ==> FromCommandLine(c.q)
    ensures Inv(Exec(db, c, e).0, e.valid)
  {
    hide Visits, FromCommandLine;
    if c.Logging? {
      var similar := Search(db.rows, e.order, 0, c.q, c.isAdd, false);
      SearchFinds(db.rows, e.order, 0, c.q, c.isAdd, false);
      if similar.Some? {
        DeleteKeeps(db, similar.value, e.valid);
      }
      if c.isAdd {
        SearchByHost(db, c.q, e, e.valid);
        var rest := if similar.Some? then Delete(db, similar.value) else db;
        if |rest.refs| < MAX_REMOTE_SERVERS && |c.q.host| <= MAX_HOST_LENGTH && e.valid(c.q.host) {
          InsertKeeps(rest, e.id, c.q, e.valid);
        }
      }
    }
  }

  datatype Step = Step(c: Command, e: Env)

  /** Any sequence of commands on the table, under one notion of a valid host. */
  ghost predicate IsRun(db: Db, steps: seq<Step>, valid: string -> bool)
    decreases |steps|
  {
    steps == [] ||
    (var s := steps[0];
     && EnvOk(db, s.e) && Visits(s.e.order, db.rows.Keys) && s.e.valid == valid
     && (s.c.Logging? ==> FromCommandLine(s.c.q))
     && IsRun(Exec(db, s.c, s.e).0, steps[1..], valid))
  }

  ghost function End(db: Db, steps: seq<Step>, valid: string -> bool): Db
    requires IsRun(db, steps, valid)
    decreases |steps|
  {
    if steps == [] then db else End(Exec(db, steps[0].c, steps[0].e).0, steps[1..], valid)
  }

  const EMPTY := Db(map[], [])

  lemma {:induction false} RunKeepsFrom(db: Db, steps: seq<Step>, valid: string -> bool)
    requires IsRun(db, steps, valid) && Inv(db, valid)
    ensures Inv(End(db, steps, valid), valid)
    decreases |steps|
  {
    hide Inv, Exec, Visits;
    if steps != [] {
      ExecKeeps(db, steps[0].c, steps[0].e);
      RunKeepsFrom(Exec(db, steps[0].c, steps[0].e).0, steps[1..], valid);
    }
  }

  /** The invariant holds after every sequence of commands on the empty table. */
  lemma {:induction false} RunKeeps(steps: seq<Step>, valid: string -> bool)
    requires IsRun(EMPTY, steps, valid)
    ensures Inv(End(EMPTY, steps, valid), valid)
  {
    RunKeepsFrom(EMPTY, steps, valid);
  }

  // ----- all or nothing -----

  /** A command that does not succeed leaves every row and every reference as it was. */
  lemma RefusedUnchanged(db: Db, c: Command, e: Env)
    requires EnvOk(db, e) && Exec(db, c, e).1 != Success
    ensures Exec(db, c, e).0 == db
  {
  }

  /** The steps of a run that succeed. */
  ghost function Successes(db: Db, steps: seq<Step>, valid: string -> bool): seq<Step>
    requires IsRun(db, steps, valid)
    decreases |steps|
  {
    if steps == [] then []
    else
      var (db', s) := Exec(db, steps[0].c, steps[0].e);
      (if s == Success then [steps[0]] else []) + Successes(db', steps[1..], valid)
  }

  ghost predicate AllSucceed(db: Db, steps: seq<Step>, valid: string -> bool)
    requires IsRun(db, steps, valid)
  {
    Successes(db, steps, valid) == steps
  }

  /** Commands that do not succeed leave no trace: without them the rest of the run is a run, every
      step of it succeeds as before, and it leads to the same rows and references. */
  lemma {:induction false} RefusedLeaveNoTrace(db: Db, steps: seq<Step>, valid: string -> bool)
    requires IsRun(db, steps, valid)
    ensures var kept := Successes(db, steps, valid);
      IsRun(db, kept, valid) && AllSucceed(db, kept, valid) && End(db, kept, valid) == End(db, steps, valid)
    decreases |steps|
  {
    hide Exec, Visits, EnvOk, FromCommandLine;
    if steps != [] {
      var db' := Exec(db, steps[0].c, steps[0].e).0;
      var rest := Successes(db', steps[1..], valid);
      RefusedLeaveNoTrace(db', steps[1..], valid);
      if Exec(db, steps[0].c, steps[0].e).1 == Success {
        assert ([steps[0]] + rest)[1..] == rest;
      } else {
        RefusedUnchanged(db, steps[0].c, steps[0].e);
        assert [] + rest == rest;
      }
    }
  }

  // ----- the table as a map from hosts to effective settings -----

  /** What the table says: each configured host with its settings, defaults filled in. */
  ghost function Abs(rows: map<nat, Row>): (m: map<string, Effective>)
    requires HostsDistinct(rows)
    ensures forall id :: id in rows ==> rows[id].host in m && m[rows[id].host] == Eff(rows[id])
    ensures forall h :: h in m ==> exists id :: id in rows && rows[id].host == h
  {
    map id | id in rows :: rows[id].host := Eff(rows[id])
  }

  ghost function HostsOf(rows: map<nat, Row>, refs: seq<nat>): set<string>
    requires forall x :: x in refs ==> x in rows
  {
    set x | x in refs :: rows[x].host
  }

  lemma {:induction false} HostCount(rows: map<nat, Row>, refs: seq<nat>)
    requires HostsDistinct(rows) && Distinct(refs) && forall x :: x in refs ==> x in rows
    ensures |HostsOf(rows, refs)| == |refs|
  {
    if refs != [] {
      var rest := refs[1..];
      assert refs == [refs[0]] + rest && refs[0] !in rest;
      HostCount(rows, rest);
      assert HostsOf(rows, refs) == {rows[refs[0]].host} + HostsOf(rows, rest);
    }
  }

  /** The map has one entry for each reference, so the limit on references limits the map. */
  lemma {:induction false} AbsSize(db: Db, valid: string -> bool)
    requires Inv(db, valid)
    ensures |Abs(db.rows)| == |db.refs|
  {
    HostCount(db.rows, db.refs);
    assert Abs(db.rows).Keys == HostsOf(db.rows, db.refs);
  }

  /** After a deletion the map has only entries it had before, and none for the deleted row. */
  lemma AbsDeleteOnly(db: Db, id: nat)
    requires HostsDistinct(db.rows) && id in db.rows
    ensures HostsDistinct(Delete(db, id).rows)
    ensures var a, b := Abs(db.rows), Abs(Delete(db, id).rows);
      forall k :: k in b ==> k in a && k != db.rows[id].host && b[k] == a[k]
  {
    hide Abs, Without, Eff;
  }

  /** After a deletion the map still has the entries of the other rows. */
  lemma AbsDeleteAll(db: Db, id: nat, k: string)
    requires HostsDistinct(db.rows) && id in db.rows && HostsDistinct(Delete(db, id).rows)
    requires k in Abs(db.rows) && k != db.rows[id].host
    ensures k in Abs(Delete(db, id).rows)
  {
    hide Abs, Without, Eff;
    var x :| x in db.rows && db.rows[x].host == k;
    assert x in Delete(db, id).rows;
  }

  lemma OneEntryLess(a: map<string, Effective>, b: map<string, Effective>, h: string)
    requires forall k :: k in b ==> k in a && k != h && b[k] == a[k]
    requires forall k :: k in a && k != h ==> k in b
    ensures b == a - {h}
  {
  }

  lemma AbsDelete(db: Db, id: nat)
    requires HostsDistinct(db.rows) && id in db.rows
    ensures HostsDistinct(Delete(db, id).rows)
    ensures Abs(Delete(db, id).rows) == Abs(db.rows) - {db.rows[id].host}
  {
    AbsDeleteOnly(db, id);
    hide Abs, Delete, HostsDistinct;
    forall k | k in Abs(db.rows) && k != db.rows[id].host ensures k in Abs(Delete(db, id).rows) {
      AbsDeleteAll(db, id, k);
    }
    OneEntryLess(Abs(db.rows), Abs(Delete(db, id).rows), db.rows[id].host);
  }

  lemma StoredEff(q: Row)
    requires FromCommandLine(q)
    ensures Stored(q) == q
  {
  }

  lemma AbsInsert(db: Db, id: nat, q: Row)
    requires HostsDistinct(db.rows) && id !in db.rows && FromCommandLine(q)
    requires forall x :: x in db.rows ==> db.rows[x].host != q.host
    ensures HostsDistinct(Insert(db, id, q).rows)
    ensures Abs(Insert(db, id, q).rows) == Abs(db.rows)[q.host := Eff(q)]
  {
    hide Abs, Eff;
    StoredEff(q);
    var rows' := Insert(db, id, q).rows;
    var a, b := Abs(db.rows), Abs(rows');
    assert rows'[id].host == q.host;
    forall k | k in b ensures k in a[q.host := Eff(q)] && b[k] == a[q.host := Eff(q)][k] {
      var x :| x in rows' && rows'[x].host == k;
      assert x != id ==> x in db.rows && rows'[x] == db.rows[x];
    }
    forall k | k in a ensures k in b {
      var x :| x in db.rows && db.rows[x].host == k;
      assert x in rows';
    }
  }

  // ----- the search in terms of effective settings -----

  /** The exact comparison is equality of the effective settings, except for the skipped port. */
  lemma {:induction false} ExactMatchMeaning(r: Row, last: bool, q: Row)
    ensures Agrees(r, last, q, true) <==>
      Eff(r) == Eff(q) ||
      (last && r.port.Some? && q.port.Some?
       && TransportOf(r.transport) == TransportOf(q.transport) && SeverityOf(r.severity) == SeverityOf(q.severity))
  {
  }

  /** The given fields of q agree with the effective settings. */
  predicate GivenAgree(f: Effective, q: Row) {
    && (q.transport.Some? ==> f.transport == q.transport.value)
    && (q.port.Some? ==> f.port == q.port.value)
    && (q.severity.Some? ==> f.severity == q.severity.value)
  }

  /** The search is misled: the row it visits last is for the host and agrees in everything
      else, but both ports are explicit and different. */
  predicate PortSkipped(db: Db, q: Row, e: Env, exact: bool)
    requires EnvOk(db, e)
  {
    |e.order| > 0 &&
    var r := db.rows[e.order[|e.order| - 1]];
    && r.host == q.host && Agrees(r, true, q, exact)
    && r.port.Some? && q.port.Some? && r.port != q.port
  }

  /** The exact search accepts when the host has exactly the wanted settings, or is misled. */
  lemma {:induction false} ExactSearch(db: Db, q: Row, e: Env)
    requires Inv(db, e.valid) && EnvOk(db, e) && Visits(e.order, db.rows.Keys)
    ensures Search(db.rows, e.order, 0, q, false, true).Some? <==>
      (q.host in Abs(db.rows) && Abs(db.rows)[q.host] == Eff(q)) || PortSkipped(db, q, e, true)
  {
    SearchMeaning(db, q, e, true);
    if q.host in Abs(db.rows) {
      var id :| id in db.rows && db.rows[id].host == q.host;
      ExactMatchMeaning(db.rows[id], false, q);
    }
  }

  /** A search accepts when the row for the host agrees in all that counts, or is misled. */
  lemma {:induction false} SearchMeaning(db: Db, q: Row, e: Env, exact: bool)
    requires Inv(db, e.valid) && EnvOk(db, e) && Visits(e.order, db.rows.Keys)
    ensures var r := Search(db.rows, e.order, 0, q, false, exact);
      && (r.Some? ==> r.value in db.rows && db.rows[r.value].host == q.host)
      && (r.Some? <==>
        (exists id :: id in db.rows && db.rows[id].host == q.host && Agrees(db.rows[id], false, q, exact))
        || PortSkipped(db, q, e, exact))
  {
    SearchFinds(db.rows, e.order, 0, q, false, exact);
    var r := Search(db.rows, e.order, 0, q, false, exact);
    if r.Some? {
      var k :| 0 <= k < |e.order| && e.order[k] == r.value &&
        Matches(db.rows[e.order[k]], k + 1 == |e.order|, q, false, exact);
      assert Agrees(db.rows[r.value], false, q, exact) || PortSkipped(db, q, e, exact);
    } else {
      forall id | id in db.rows && db.rows[id].host == q.host ensures !Agrees(db.rows[id], false, q, exact) {
        var k :| 0 <= k < |e.order| && e.order[k] == id;
        assert !Matches(db.rows[e.order[k]], k + 1 == |e.order|, q, false, exact);
      }
      var last := |e.order| - 1;
      assert last >= 0 ==> !Matches(db.rows[e.order[last]], last + 1 == |e.order|, q, false, exact);
    }
  }

  lemma GivenMeaning(r: Row, q: Row)
    ensures Agrees(r, false, q, false) <==> GivenAgree(Eff(r), q)
  {
  }

  // ----- the commands refine operations on the map -----

  /** Nothing outside the table prevents the command. */
  predicate Works(e: Env, q: Row) {
    e.txn && e.system && e.insert && e.commit && |q.host| <= MAX_HOST_LENGTH && e.valid(q.host)
  }

  /** `logging` sets the entry of its host and no other, even at capacity if the host is
      already there; a new host beyond capacity is refused.  If the search is misled, the
      command reports success and changes nothing. */
  lemma {:induction false} AddRefines(db: Db, q: Row, e: Env)
    requires Inv(db, e.valid) && EnvOk(db, e) && Visits(e.order, db.rows.Keys)
    requires FromCommandLine(q) && Works(e, q)
    ensures var (db', s) := Exec(db, Logging(true, q), e);
      var m := Abs(db.rows);
      HostsDistinct(db'.rows) &&
      if PortSkipped(db, q, e, true) then db' == db && s == Success
      else if q.host in m || |m| < MAX_REMOTE_SERVERS then Abs(db'.rows) == m[q.host := Eff(q)] && s == Success
      else db' == db && s == LimitReached
  {
    hide Visits, FromCommandLine, PortSkipped, Abs, Eff, Distinct, Search, Stored;
    ExactSearch(db, q, e);
    SearchByHost(db, q, e, e.valid);
    AbsSize(db, e.valid);
    var similar := Search(db.rows, e.order, 0, q, true, false);
    if Search(db.rows, e.order, 0, q, false, true).Some? {
      assert !PortSkipped(db, q, e, true) ==> Abs(db.rows) == Abs(db.rows)[q.host := Eff(q)];
    } else if similar.Some? {
      DeleteKeeps(db, similar.value, e.valid);
      AbsDelete(db, similar.value);
      AbsInsert(Delete(db, similar.value), e.id, q);
    } else {
      assert q.host !in Abs(db.rows);
      AbsInsert(db, e.id, q);
    }
  }

  /** So `logging` does what it is meant to do exactly when its search is not misled. */
  lemma {:induction false} AddExactly(db: Db, q: Row, e: Env)
    requires Inv(db, e.valid) && EnvOk(db, e) && Visits(e.order, db.rows.Keys)
    requires FromCommandLine(q) && Works(e, q) && (q.host in Abs(db.rows) || |Abs(db.rows)| < MAX_REMOTE_SERVERS)
    ensures var db' := Exec(db, Logging(true, q), e).0;
      HostsDistinct(db'.rows) && (Abs(db'.rows) == Abs(db.rows)[q.host := Eff(q)] <==> !PortSkipped(db, q, e, true))
  {
    AddRefines(db, q, e);
    if PortSkipped(db, q, e, true) {
      var r := db.rows[e.order[|e.order| - 1]];
      assert Abs(db.rows)[q.host] == Eff(r) && Eff(r).port != Eff(q).port;
      assert Abs(db.rows)[q.host := Eff(q)][q.host] == Eff(q);
    }
  }

  /** `no logging` removes the entry of its host, and no other, when the given fields match or
      the search is misled; otherwise it is refused. */
  lemma {:induction false} RemoveRefines(db: Db, q: Row, e: Env)
    requires Inv(db, e.valid) && EnvOk(db, e) && Visits(e.order, db.rows.Keys) && Works(e, q)
    ensures var (db', s) := Exec(db, Logging(false, q), e);
      var m := Abs(db.rows);
      HostsDistinct(db'.rows) &&
      if (q.host in m && GivenAgree(m[q.host], q)) || PortSkipped(db, q, e, false)
      then Abs(db'.rows) == m - {q.host} && s == Success
      else db' == db && s == NotFound
  {
    hide Visits, PortSkipped, Abs, Eff, Distinct, Search, Agrees;
    SearchMeaning(db, q, e, false);
    var r := Search(db.rows, e.order, 0, q, false, false);
    if r.Some? {
      GivenMeaning(db.rows[r.value], q);
      AbsDelete(db, r.value);
    }
    if q.host in Abs(db.rows) {
      var id :| id in db.rows && db.rows[id].host == q.host;
      GivenMeaning(db.rows[id], q);
    }
  }

  /** The first y or n among the keys is the answer. */
  lemma {:induction false} AnswerIs(others: string, k: char, more: string)
    requires 'y' !in others && 'n' !in others && (k == 'y' || k == 'n')
    ensures Answer(others + [k] + more) == Some(k == 'y')
  {
    if others != [] {
      AnswerIs(others[1..], k, more);
      assert others[0] in others && (others + [k] + more)[1..] == others[1..] + [k] + more;
    }
  }

  /** A command changes the table only if the transaction, the System row, the new row and the commit
      are all there, and the host is a valid one; why it is refused says which of these was not. */
  lemma {:induction false} ChangesOnlyWhenWorks(db: Db, isAdd: bool, q: Row, e: Env)
    requires EnvOk(db, e)
    ensures var (db', s) := Exec(db, Logging(isAdd, q), e);
      && (db' != db ==> s == Success && Works(e.(insert := e.insert || !isAdd), q))
      && (s == HostTooLong <==> e.txn && |q.host| > MAX_HOST_LENGTH)
      && (s == HostInvalid <==> e.txn && |q.host| <= MAX_HOST_LENGTH && !e.valid(q.host))
      && (s == Success || s == NotFound || s == LimitReached ==>
          e.txn && e.system && |q.host| <= MAX_HOST_LENGTH && e.valid(q.host))
      && (s == DatabaseFailure ==> !Works(e, q))
  {
    hide Search;
  }

  const ONE_ROW := Row("10.0.0.1", Some("udp"), Some(500), None)

  const ONLY_ROW := Db(map[0 := ONE_ROW], [0])

  lemma OneRowSearch(q: Row, exact: bool)
    requires q == ONE_ROW.(port := Some(600))
    ensures Search(ONLY_ROW.rows, [0], 0, q, false, exact) == Some(0)
  {
    assert Matches(ONE_ROW, true, q, false, exact);
  }

  /** Changing the explicit port of a host that is visited last is silently ignored, and
      removing it with a wrong port succeeds. */
  lemma {:induction false} MisledSearch(e: Env, q: Row)
    requires e.txn && e.system && e.commit && e.order == [0] && e.id == 1 && e.valid("10.0.0.1")
    requires q == ONE_ROW.(port := Some(600))
    ensures Inv(ONLY_ROW, e.valid) && EnvOk(ONLY_ROW, e) && Visits(e.order, ONLY_ROW.rows.Keys) && FromCommandLine(q)
    ensures Eff(ONE_ROW) == Effective("udp", 500, "info") && Eff(q) == Effective("udp", 600, "info")
    ensures Exec(ONLY_ROW, Logging(true, q), e) == (ONLY_ROW, Success)
    ensures Exec(ONLY_ROW, Logging(false, q), e) == (EMPTY, Success)
  {
    OneRowSearch(q, true);
    OneRowSearch(q, false);
    assert Without([0], 0) == [] by { assert [0][1..] == []; }
    assert ONLY_ROW.rows - {0} == map[];
    hide Search, Without;
  }
}
