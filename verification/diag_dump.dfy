/** The diagnostic dump of a feature: each enabled daemon is asked in turn through the same kind of
    runner as the show-tech commands, and two counters decide what is reported. */
module DiagDump {
  import opened ShowTechAccounting

  datatype Result = Captured | Failed(daemons: int) | Interrupted

  /** How many daemons are enabled. */
  function Enabled(flags: seq<bool>): nat {
    if flags == [] then 0 else (if flags[0] then 1 else 0) + Enabled(flags[1..])
  }

  /** It is as many as there are enabled daemons. */
  lemma {:induction false} EnabledExactly(flags: seq<bool>)
    ensures Enabled(flags) == |set i | 0 <= i < |flags| && flags[i]|
    decreases |flags|
  {
    if flags != [] {
      var k := |flags| - 1;
      var init := flags[..k];
      EnabledExactly(init);
      EnabledMore(flags, k);
      assert flags[..k + 1] == flags;
      var all, some := set i | 0 <= i < |flags| && flags[i], set i | 0 <= i < |init| && init[i];
      assert all == if flags[k] then some + {k} else some;
    }
  }

  /** How many of the n-th to the (n + k - 1)-th requests are answered. */
  function Answered(e: Env, n: nat, k: nat): nat
    decreases k
  {
    if k == 0 then 0 else (if e.ok(n) then 1 else 0) + Answered(e, n + 1, k - 1)
  }

  /** No interrupt is seen right before or right after any of these requests. */
  predicate Undisturbed(e: Env, n: nat, k: nat) {
    forall m: nat {:trigger e.stopBefore(m)} {:trigger e.stopAfter(m)} :: n <= m < n + k ==>
      !e.stopBefore(m) && !e.stopAfter(m)
  }

  lemma {:induction false} AnsweredAtMost(e: Env, n: nat, k: nat)
    ensures Answered(e, n, k) <= k
    ensures Answered(e, n, k) == k <==> forall m: nat {:trigger e.ok(m)} :: n <= m < n + k ==> e.ok(m)
    decreases k
  {
    if k > 0 {
      AnsweredAtMost(e, n + 1, k - 1);
      if Answered(e, n, k) == k {
        assert e.ok(n);
      }
    }
  }

  lemma {:induction false} AnsweredMore(e: Env, n: nat, k: nat)
    ensures Answered(e, n, k + 1) == Answered(e, n, k) + (if e.ok(n + k) then 1 else 0)
    decreases k
  {
    if k > 0 {
      AnsweredMore(e, n + 1, k - 1);
    }
  }

  lemma {:induction false} EnabledMore(flags: seq<bool>, i: nat)
    requires i < |flags|
    ensures Enabled(flags[..i + 1]) == Enabled(flags[..i]) + (if flags[i] then 1 else 0)
    ensures Enabled(flags[..i + 1]) <= Enabled(flags)
    decreases i
  {
    if i > 0 {
      assert flags[..i + 1][1..] == flags[1..][..i] && flags[..i][1..] == flags[1..][..i - 1];
      EnabledMore(flags[1..], i - 1);
    } else {
      assert flags[..1][1..] == [] && flags[..0] == [];
    }
  }

  /** The result of a dump. */
  ghost function Dump(flags: seq<bool>, e: Env): Result {
    var n := Enabled(flags);
    if !Undisturbed(e, 0, n) then Interrupted
    else if Answered(e, 0, n) == n then Captured
    else Failed(n - Answered(e, 0, n))
  }

  /** Asks every enabled daemon.  Without an interrupt, success is reported exactly when all of
      them answered, and the number of failed daemons is the number that did not. */
  method DumpFeature(flags: seq<bool>, e: Env) returns (r: Result)
    ensures r == Dump(flags, e)
    ensures r == Captured ==> forall m: nat {:trigger e.ok(m)} :: m < Enabled(flags) ==> e.ok(m)
  {
    var daemonCount, daemonResp := 0, 0;
    assert flags[..0] == [];
    for i := 0 to |flags|
      invariant daemonCount == Enabled(flags[..i]) && daemonResp == Answered(e, 0, daemonCount)
      invariant Undisturbed(e, 0, daemonCount)
    {
      EnabledMore(flags, i);
      if !flags[i] {
        continue;
      }
      AnsweredMore(e, 0, daemonCount);
      var n := daemonCount;
      daemonCount := daemonCount + 1;
      if e.stopBefore(n) {
        return Interrupted;
      }
      if e.ok(n) {
        daemonResp := daemonResp + 1;
      }
      if e.stopAfter(n) {
        return Interrupted;
      }
    }
    assert flags[..|flags|] == flags;
    AnsweredAtMost(e, 0, daemonCount);
    if daemonCount == daemonResp {
      return Captured;
    }
    return Failed(daemonCount - daemonResp);
  }
}
