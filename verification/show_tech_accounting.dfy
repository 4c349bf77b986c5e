/** Which commands a `show tech` run executes, which of them it flags as failed, and what it
    reports: the run as a function of the configuration tree, the flags and the results. */
module ShowTechAccounting {
  import opened Options
  import S = ShowTechSpec

  // ----- the commands of a tree, in tree order -----

  function SubCmds(xs: seq<S.SubFeature>): seq<string> {
    if xs == [] then [] else xs[0].cmds + SubCmds(xs[1..])
  }

  function TreeCmds(t: seq<S.Feature>): seq<string> {
    if t == [] then [] else SubCmds(t[0].subs) + TreeCmds(t[1..])
  }

  /** Positions from..to in tree order. */
  datatype Range = Range(from: nat, end: nat)

  /** The first sub-feature of that name that is not a dummy. */
  function SelectSub(xs: seq<S.SubFeature>, sub: string, at: nat): Option<Range> {
    if xs == [] then None
    else if !xs[0].isDummy && xs[0].name == Some(sub) then Some(Range(at, at + |xs[0].cmds|))
    else SelectSub(xs[1..], sub, at + |xs[0].cmds|)
  }

  /** The first feature of that name; or, if a sub-feature is asked for, the first match in any
      feature of that name. */
  function SelectFeature(t: seq<S.Feature>, feature: string, sub: Option<string>, at: nat): Option<Range> {
    if t == [] then None
    else
      var size := |SubCmds(t[0].subs)|;
      var here :=
        if t[0].name != Some(feature) then None
        else if sub == None then Some(Range(at, at + size))
        else SelectSub(t[0].subs, sub.value, at);
      if here.Some? then here else SelectFeature(t[1..], feature, sub, at + size)
  }

  datatype Request = All | OneFeature(feature: string, sub: Option<string>)

  function Select(t: seq<S.Feature>, r: Request): Option<Range> {
    match r
    case All => Some(Range(0, |TreeCmds(t)|))
    case OneFeature(f, x) => SelectFeature(t, f, x, 0)
  }

  lemma {:induction false} SelectSubInRange(xs: seq<S.SubFeature>, sub: string, at: nat)
    ensures var r := SelectSub(xs, sub, at); r.Some? ==> at <= r.value.from <= r.value.end <= at + |SubCmds(xs)|
  {
    if xs != [] {
      SelectSubInRange(xs[1..], sub, at + |xs[0].cmds|);
    }
  }

  lemma {:induction false} SelectFeatureInRange(t: seq<S.Feature>, feature: string, sub: Option<string>, at: nat)
    ensures var r := SelectFeature(t, feature, sub, at); r.Some? ==>
      at <= r.value.from <= r.value.end <= at + |TreeCmds(t)|
  {
    if t != [] {
      if sub.Some? { SelectSubInRange(t[0].subs, sub.value, at); }
      SelectFeatureInRange(t[1..], feature, sub, at + |SubCmds(t[0].subs)|);
    }
  }

  lemma {:induction false} SelectInRange(t: seq<S.Feature>, r: Request)
    ensures var x := Select(t, r); x.Some? ==> x.value.from <= x.value.end <= |TreeCmds(t)|
  {
    if r.OneFeature? { SelectFeatureInRange(t, r.feature, r.sub, 0); }
  }

  // ----- running a stretch of commands -----

  /** What the n-th executed command returns, and whether the interrupt latch is seen right
      before and right after it. */
  datatype Env = Env(ok: nat -> bool, stopBefore: nat -> bool, stopAfter: nat -> bool)

  datatype Tally = Tally(flags: seq<bool>, executed: nat, failures: nat, stopped: bool)

  function Add(failures: nat, t: Tally): Tally {
    t.(failures := failures + t.failures)
  }

  /** Runs the commands from position i up to position to; n commands ran before.  A run over
      everything tests the latch only after a command, any other run also before. */
  function Visit(e: Env, first: bool, flags: seq<bool>, i: nat, end: nat, n: nat): (t: Tally)
    requires end <= |flags|
    ensures |t.flags| == |flags|
    decreases end - i
  {
    if i >= end then Tally(flags, n, 0, false)
    else if first && e.stopBefore(n) then Tally(flags, n, 0, true)
    else
      var failed := !e.ok(n);
      var count := if failed then 1 else 0;
      if e.stopAfter(n) then Tally(flags[i := false], n + 1, count, true)
      else Add(count, Visit(e, first, flags[i := flags[i] || failed], i + 1, end, n + 1))
  }

  /** A stretch may be run in two parts. */
  lemma {:induction false} VisitParts(e: Env, first: bool, flags: seq<bool>, i: nat, mid: nat, end: nat, n: nat)
    requires i <= mid <= end <= |flags|
    ensures var r := Visit(e, first, flags, i, mid, n);
      Visit(e, first, flags, i, end, n) ==
      if r.stopped then r else Add(r.failures, Visit(e, first, r.flags, mid, end, r.executed))
    decreases mid - i
  {
    if i < mid {
      VisitParts(e, first, flags[i := flags[i] || !e.ok(n)], i + 1, mid, end, n + 1);
    }
  }

  // ----- the whole command -----

  /** The numbered list of the flagged commands from position i up to end. */
  function Listing(cmds: seq<string>, flags: seq<bool>, i: nat, end: nat, number: nat): seq<(nat, string)>
    requires end <= |cmds| == |flags|
    decreases end - i
  {
    if i >= end then []
    else if flags[i] then [(number, cmds[i])] + Listing(cmds, flags, i + 1, end, number + 1)
    else Listing(cmds, flags, i + 1, end, number)
  }

  function Report(cmds: seq<string>, flags: seq<bool>): seq<(nat, string)>
    requires |cmds| == |flags|
  {
    Listing(cmds, flags, 0, |cmds|, 1)
  }

  lemma {:induction false} ListingParts(cmds: seq<string>, flags: seq<bool>, i: nat, mid: nat, end: nat, number: nat)
    requires i <= mid <= end <= |cmds| == |flags|
    ensures var a := Listing(cmds, flags, i, mid, number);
      Listing(cmds, flags, i, end, number) == a + Listing(cmds, flags, mid, end, number + |a|)
    decreases mid - i
  {
    if i < mid {
      ListingParts(cmds, flags, i + 1, mid, end, if flags[i] then number + 1 else number);
    }
  }

  function Clear(n: nat): (r: seq<bool>)
    ensures |r| == n && forall i :: 0 <= i < n ==> !r[i]
  {
    seq(n, _ => false)
  }

  datatype Outcome =
    | NoConfiguration
    | NotSupported
    | Stopped
    | Success
    | Failures(count: nat, report: seq<(nat, string)>)

  /** One `show tech` command: the new flags and what it prints. */
  function ShowTech(t: seq<S.Feature>, flags: seq<bool>, r: Request, e: Env): (x: (seq<bool>, Outcome))
    requires |flags| == |TreeCmds(t)|
    ensures |x.0| == |flags|
  {
    SelectInRange(t, r);
    if t == [] then (flags, NoConfiguration)
    else
      match Select(t, r)
      case None => (flags, NotSupported)
      case Some(x) =>
        var tally := Visit(e, r.OneFeature?, flags, x.from, x.end, 0);
        if tally.stopped then (tally.flags, Stopped)
        else if tally.failures == 0 then (tally.flags, Success)
        else (Clear(|flags|), Failures(tally.failures, Report(TreeCmds(t), tally.flags)))
  }

  // ----- counting -----

  function Count(flags: seq<bool>): nat {
    if flags == [] then 0 else (if flags[0] then 1 else 0) + Count(flags[1..])
  }

  lemma {:induction false} CountUpdate(flags: seq<bool>, i: nat, b: bool)
    requires i < |flags|
    ensures Count(flags[i := b]) + (if flags[i] then 1 else 0) == Count(flags) + (if b then 1 else 0)
  {
    if i == 0 {
      assert flags[i := b][1..] == flags[1..];
    } else {
      assert flags[i := b][1..] == flags[1..][i - 1 := b];
      CountUpdate(flags[1..], i - 1, b);
    }
  }

  lemma {:induction false} CountZero(flags: seq<bool>)
    ensures Count(flags) == 0 <==> forall i :: 0 <= i < |flags| ==> !flags[i]
  {
    if flags != [] {
      CountZero(flags[1..]);
      assert forall i :: 0 < i < |flags| ==> flags[i] == flags[1..][i - 1];
    }
  }

  /** How many of the commands from i up to end were flagged before and fail again. */
  function Renewed(e: Env, flags: seq<bool>, i: nat, end: nat, n: nat): nat
    requires end <= |flags|
    decreases end - i
  {
    if i >= end then 0
    else (if flags[i] && !e.ok(n) then 1 else 0) + Renewed(e, flags, i + 1, end, n + 1)
  }

  lemma {:induction false} RenewedUpdate(e: Env, flags: seq<bool>, i: nat, end: nat, n: nat, j: nat, b: bool)
    requires end <= |flags| && j < i && j < |flags|
    ensures Renewed(e, flags[j := b], i, end, n) == Renewed(e, flags, i, end, n)
    decreases end - i
  {
    if i < end {
      RenewedUpdate(e, flags, i + 1, end, n + 1, j, b);
    }
  }

  /** Conservation: after an uninterrupted stretch the flags are the older ones and one for
      each failure, less the failures of commands that were flagged already. */
  lemma {:induction false} FlagsAreFailures(e: Env, first: bool, flags: seq<bool>, i: nat, end: nat, n: nat)
    requires end <= |flags| && !Visit(e, first, flags, i, end, n).stopped
    ensures var t := Visit(e, first, flags, i, end, n);
      Count(t.flags) + Renewed(e, flags, i, end, n) == Count(flags) + t.failures
    decreases end - i
  {
    if i < end {
      var b := flags[i] || !e.ok(n);
      CountUpdate(flags, i, b);
      RenewedUpdate(e, flags, i + 1, end, n + 1, i, b);
      FlagsAreFailures(e, first, flags[i := b], i + 1, end, n + 1);
    }
  }

  /** After an uninterrupted stretch, a command is flagged if it was before or has failed now. */
  lemma {:induction false} FlagMeaning(e: Env, first: bool, flags: seq<bool>, i: nat, end: nat, n: nat, j: nat)
    requires end <= |flags| && j < |flags| && !Visit(e, first, flags, i, end, n).stopped
    ensures Visit(e, first, flags, i, end, n).flags[j] <==> flags[j] || (i <= j < end && !e.ok(n + j - i))
    decreases end - i
  {
    if i < end {
      FlagMeaning(e, first, flags[i := flags[i] || !e.ok(n)], i + 1, end, n + 1, j);
    }
  }

  /** Every flag of a run is renewed exactly when each flagged command is run and fails. */
  predicate AllRenewed(e: Env, flags: seq<bool>, i: nat, end: nat, n: nat) {
    forall j :: 0 <= j < |flags| && flags[j] ==> i <= j < end && !e.ok(n + j - i)
  }

  lemma {:induction false} RenewedExactly(e: Env, flags: seq<bool>, i: nat, end: nat, n: nat)
    requires i <= end <= |flags|
    ensures Renewed(e, flags, i, end, n) <= Count(flags)
    ensures Renewed(e, flags, i, end, n) == Count(flags) <==> AllRenewed(e, flags, i, end, n)
    decreases end - i, Count(flags)
  {
    if i == end {
      CountZero(flags);
    } else {
      var rest := flags[i := false];
      CountUpdate(flags, i, false);
      RenewedUpdate(e, flags, i + 1, end, n + 1, i, false);
      RenewedExactly(e, rest, i + 1, end, n + 1);
      if AllRenewed(e, rest, i + 1, end, n + 1) && (flags[i] ==> !e.ok(n)) {
        forall j | 0 <= j < |flags| && flags[j] ensures i <= j < end && !e.ok(n + j - i) {
          assert j != i ==> rest[j];
        }
      } else if AllRenewed(e, flags, i, end, n) {
        forall j | 0 <= j < |rest| && rest[j] ensures i + 1 <= j < end && !e.ok(n + 1 + j - (i + 1)) {
          assert flags[j];
        }
      }
    }
  }

  lemma {:induction false} ListingSize(cmds: seq<string>, flags: seq<bool>, i: nat, end: nat, number: nat)
    requires i <= end <= |cmds| == |flags|
    ensures |Listing(cmds, flags, i, end, number)| == Count(flags[i..end])
    decreases end - i
  {
    if i < end {
      assert flags[i..end][1..] == flags[i + 1..end];
      ListingSize(cmds, flags, i + 1, end, if flags[i] then number + 1 else number);
    }
  }

  lemma {:induction false} ReportSize(cmds: seq<string>, flags: seq<bool>)
    requires |cmds| == |flags|
    ensures |Report(cmds, flags)| == Count(flags)
  {
    ListingSize(cmds, flags, 0, |cmds|, 1);
    assert flags[0..|cmds|] == flags;
  }

  /** The report names the flagged commands in tree order and numbers them from 1: with k
      flagged commands before it, a flagged command is the k-th entry and bears the number k + 1. */
  lemma {:induction false} ReportEntry(cmds: seq<string>, flags: seq<bool>, j: nat)
    requires |cmds| == |flags| && j < |cmds| && flags[j]
    ensures var k := Count(flags[..j]); k < |Report(cmds, flags)| && Report(cmds, flags)[k] == (k + 1, cmds[j])
  {
    ListingParts(cmds, flags, 0, j, |cmds|, 1);
    ListingSize(cmds, flags, 0, j, 1);
    assert flags[0..j] == flags[..j];
  }

  /** An uninterrupted run that fails reports as many commands as it counts, except for flags
      left over from earlier: the two agree exactly when every command flagged before is run
      and fails again. */
  lemma {:induction false} ReportMatchesCount(t: seq<S.Feature>, flags: seq<bool>, r: Request, e: Env)
    requires |flags| == |TreeCmds(t)| && ShowTech(t, flags, r, e).1.Failures?
    ensures Select(t, r).Some?
    ensures var x, out := Select(t, r).value, ShowTech(t, flags, r, e).1;
      && out.count <= |out.report|
      && (|out.report| == out.count <==> AllRenewed(e, flags, x.from, x.end, 0))
  {
    SelectInRange(t, r);
    var x := Select(t, r).value;
    var tally := Visit(e, r.OneFeature?, flags, x.from, x.end, 0);
    FlagsAreFailures(e, r.OneFeature?, flags, x.from, x.end, 0);
    RenewedExactly(e, flags, x.from, x.end, 0);
    ReportSize(TreeCmds(t), tally.flags);
  }

  /** The commands that were flagged before the run or fail in it. */
  function Flagged(e: Env, flags: seq<bool>, x: Range): seq<bool> {
    seq(|flags|, j requires 0 <= j < |flags| => flags[j] || (x.from <= j < x.end && !e.ok(j - x.from)))
  }

  /** The report lists exactly those, numbered from 1 in tree order. */
  lemma {:induction false} ReportEntries(t: seq<S.Feature>, flags: seq<bool>, r: Request, e: Env)
    requires |flags| == |TreeCmds(t)| && ShowTech(t, flags, r, e).1.Failures?
    ensures Select(t, r).Some?
    ensures ShowTech(t, flags, r, e).1.report == Report(TreeCmds(t), Flagged(e, flags, Select(t, r).value))
  {
    SelectInRange(t, r);
    var x := Select(t, r).value;
    var tally := Visit(e, r.OneFeature?, flags, x.from, x.end, 0);
    forall j | 0 <= j < |flags| ensures tally.flags[j] == Flagged(e, flags, x)[j] {
      FlagMeaning(e, r.OneFeature?, flags, x.from, x.end, 0, j);
    }
    assert tally.flags == Flagged(e, flags, x);
  }

  /** From clear flags, every run that is not interrupted ends with clear flags again, and
      counts exactly the commands it reports. */
  lemma {:induction false} ClearRun(t: seq<S.Feature>, flags: seq<bool>, r: Request, e: Env)
    requires |flags| == |TreeCmds(t)| && Count(flags) == 0
    ensures var (after, out) := ShowTech(t, flags, r, e);
      && (out != Stopped ==> Count(after) == 0)
      && (out.Failures? ==> 0 < out.count == |out.report|)
  {
    SelectInRange(t, r);
    CountZero(flags);
    CountZero(Clear(|flags|));
    if t != [] && Select(t, r).Some? {
      var x := Select(t, r).value;
      var tally := Visit(e, r.OneFeature?, flags, x.from, x.end, 0);
      if !tally.stopped {
        FlagsAreFailures(e, r.OneFeature?, flags, x.from, x.end, 0);
        RenewedExactly(e, flags, x.from, x.end, 0);
        ReportSize(TreeCmds(t), tally.flags);
      }
    }
  }

  /** Any series of uninterrupted runs. */
  function Series(t: seq<S.Feature>, flags: seq<bool>, runs: seq<(Request, Env)>): seq<(seq<bool>, Outcome)>
    requires |flags| == |TreeCmds(t)|
    decreases |runs|
  {
    if runs == [] then []
    else
      var x := ShowTech(t, flags, runs[0].0, runs[0].1);
      [x] + Series(t, x.0, runs[1..])
  }

  /** In any series of runs from clear flags, none of them interrupted, every single run ends
      with clear flags and reports exactly what it counts. */
  lemma {:induction false} ClearSeries(t: seq<S.Feature>, flags: seq<bool>, runs: seq<(Request, Env)>)
    requires |flags| == |TreeCmds(t)| && Count(flags) == 0
    requires forall x :: x in Series(t, flags, runs) ==> x.1 != Stopped
    ensures forall x :: x in Series(t, flags, runs) ==>
      Count(x.0) == 0 && (x.1.Failures? ==> 0 < x.1.count == |x.1.report|)
    decreases |runs|
  {
    if runs != [] {
      var x := ShowTech(t, flags, runs[0].0, runs[0].1);
      assert x in Series(t, flags, runs);
      ClearRun(t, flags, runs[0].0, runs[0].1);
      assert forall y :: y in Series(t, x.0, runs[1..]) ==> y in Series(t, flags, runs);
      ClearSeries(t, x.0, runs[1..]);
    }
  }

  // ----- interrupted runs -----

  /** A run over everything never looks at the latch before a command. */
  lemma {:induction false} NotTestedBefore(e: Env, before: nat -> bool, flags: seq<bool>, i: nat, end: nat, n: nat)
    requires end <= |flags|
    ensures Visit(e.(stopBefore := before), false, flags, i, end, n) == Visit(e, false, flags, i, end, n)
    decreases end - i
  {
    if i < end && !e.stopAfter(n) {
      NotTestedBefore(e, before, flags[i := flags[i] || !e.ok(n)], i + 1, end, n + 1);
    }
  }

  /** A run over everything does not depend on the latch before its commands; the run of a feature that
      sees it up before the first one runs nothing. */
  lemma {:induction false} LatchBefore(t: seq<S.Feature>, flags: seq<bool>, r: Request, e: Env, before: nat -> bool)
    requires |flags| == |TreeCmds(t)| && t != []
    ensures ShowTech(t, flags, All, e.(stopBefore := before)) == ShowTech(t, flags, All, e)
    ensures r.OneFeature? && e.stopBefore(0) && Select(t, r).Some? && Select(t, r).value.from < Select(t, r).value.end
      ==> ShowTech(t, flags, r, e) == (flags, Stopped)
  {
    SelectInRange(t, r);
    NotTestedBefore(e, before, flags, 0, |TreeCmds(t)|, 0);
  }

  /** The stretch was stopped right after a command, not right before one. */
  predicate StoppedAfter(e: Env, n: nat, t: Tally) {
    t.executed > n && e.stopAfter(t.executed - 1)
  }

  /** Whether command j is flagged after a stretch from position i was stopped: the command right
      before the interrupt is not, even if it failed or was flagged before; the other executed
      commands are if they were before or have failed now; all others are as before. */
  predicate LeftFlagged(e: Env, flags: seq<bool>, i: nat, n: nat, t: Tally, j: nat)
    requires j < |flags| && n <= t.executed
  {
    var done := i + (t.executed - n);
    if StoppedAfter(e, n, t) && j == done - 1 then false
    else flags[j] || (i <= j < done && !e.ok(n + j - i))
  }

  /** An interrupted run, command by command. */
  lemma {:induction false} InterruptedFlags(e: Env, first: bool, flags: seq<bool>, i: nat, end: nat, n: nat, j: nat)
    requires end <= |flags| && j < |flags| && Visit(e, first, flags, i, end, n).stopped
    ensures n <= Visit(e, first, flags, i, end, n).executed
    ensures var t := Visit(e, first, flags, i, end, n); t.flags[j] <==> LeftFlagged(e, flags, i, n, t, j)
    decreases end - i
  {
    if !(first && e.stopBefore(n)) && !e.stopAfter(n) {
      InterruptedFlags(e, first, flags[i := flags[i] || !e.ok(n)], i + 1, end, n + 1, j);
    }
  }

  /** So an interrupted run leaves all flags clear exactly when, apart from a command right before
      the interrupt, no command was flagged before and no executed one has failed. */
  lemma {:induction false} InterruptedClear(e: Env, first: bool, flags: seq<bool>, i: nat, end: nat, n: nat)
    requires end <= |flags| && Visit(e, first, flags, i, end, n).stopped
    ensures var t := Visit(e, first, flags, i, end, n);
      var last := i + (t.executed - n) - 1;
      Count(t.flags) == 0 <==>
      forall j :: 0 <= j < |flags| && !(StoppedAfter(e, n, t) && j == last) ==>
        !flags[j] && (i <= j <= last ==> e.ok(n + j - i))
  {
    var t := Visit(e, first, flags, i, end, n);
    var last := i + (t.executed - n) - 1;
    CountZero(t.flags);
    ExecutedGrows(e, first, flags, i, end, n);
    forall j | 0 <= j < |flags|
      ensures t.flags[j] <==>
        !(StoppedAfter(e, n, t) && j == last) && (flags[j] || (i <= j <= last && !e.ok(n + j - i)))
    {
      InterruptedFlags(e, first, flags, i, end, n, j);
    }
    hide Visit, StoppedAfter;
  }

  lemma {:induction false} ExecutedGrows(e: Env, first: bool, flags: seq<bool>, i: nat, end: nat, n: nat)
    requires end <= |flags|
    ensures n <= Visit(e, first, flags, i, end, n).executed
    decreases end - i
  {
    if i < end {
      ExecutedGrows(e, first, flags[i := flags[i] || !e.ok(n)], i + 1, end, n + 1);
    }
  }

  // ----- an interrupted run that upsets a later report -----

  function OneCommand(feature: string, cmd: string): S.Feature {
    S.Feature(Some(feature), None, [S.EMPTY_SUB.(isDummy := true, cmds := [cmd])])
  }

  const TWO := [OneCommand("a", "x"), OneCommand("b", "y")]

  lemma TwoCommands()
    ensures TreeCmds(TWO) == ["x", "y"] && Select(TWO, OneFeature("b", None)) == Some(Range(1, 2))
  {
    assert SubCmds(OneCommand("a", "x").subs) == ["x"] && SubCmds(OneCommand("b", "y").subs) == ["y"];
    assert TWO[1..] == [OneCommand("b", "y")] && TreeCmds(TWO[1..]) == ["y"];
    assert SelectFeature(TWO, "b", None, 0) == SelectFeature(TWO[1..], "b", None, 1);
  }

  lemma InterruptedAll(e: Env)
    requires !e.ok(0) && !e.stopAfter(0) && e.stopAfter(1) && |TreeCmds(TWO)| == 2
    ensures ShowTech(TWO, Clear(2), All, e) == ([true, false], Stopped)
  {
    hide TreeCmds;
    var c, f := Clear(2), [true, false];
    assert c[0 := true][1 := false] == f;
    assert Visit(e, false, c[0 := true], 1, 2, 1).flags == f;
  }

  lemma SecondAlone(e: Env)
    requires !e.stopBefore(0) && !e.stopAfter(0)
    requires TreeCmds(TWO) == ["x", "y"] && Select(TWO, OneFeature("b", None)) == Some(Range(1, 2))
    ensures ShowTech(TWO, [true, false], OneFeature("b", None), e) ==
      if e.ok(0) then ([true, false], Success) else (Clear(2), Failures(1, [(1, "x"), (2, "y")]))
  {
    hide TreeCmds, Select;
    var f, b := [true, false], !e.ok(0);
    assert f[1 := b] == [true, b];
    assert Visit(e, true, [true, b], 2, 2, 1) == Tally([true, b], 1, 0, false);
    if b {
      assert Listing(["x", "y"], [true, true], 1, 2, 2) == [(2, "y")];
      assert Report(["x", "y"], [true, true]) == [(1, "x"), (2, "y")];
    }
  }

  /** An interrupt can leave a flag behind; the next, fully successful run of another feature
      does not clear it, and a later report lists it without counting it. */
  lemma {:induction false} InterruptLeavesFlag(e1: Env, e2: Env, e3: Env)
    requires !e1.ok(0) && !e1.stopAfter(0) && e1.stopAfter(1)
    requires e2.ok(0) && !e2.stopBefore(0) && !e2.stopAfter(0)
    requires !e3.ok(0) && !e3.stopBefore(0) && !e3.stopAfter(0)
    ensures |TreeCmds(TWO)| == 2
    ensures ShowTech(TWO, Clear(2), All, e1) == ([true, false], Stopped)
    ensures ShowTech(TWO, [true, false], OneFeature("b", None), e2) == ([true, false], Success)
    ensures ShowTech(TWO, [true, false], OneFeature("b", None), e3) == (Clear(2), Failures(1, [(1, "x"), (2, "y")]))
  {
    TwoCommands();
    InterruptedAll(e1);
    SecondAlone(e2);
    SecondAlone(e3);
    hide ShowTech, Select, TreeCmds;
  }
}
