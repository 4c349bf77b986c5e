/** What a user may conclude from the report of a `show tech` run, whatever the threads and signal
    handlers of the command runner did: the accounting of ShowTechAccounting over the results that
    an interleaving of RunnerProtocol has logged. */
module ShowTechEndToEnd {
  import opened ShowTechAccounting
  import P = RunnerProtocol
  import C = RunnerCauses
  import S = ShowTechSpec
  import D = DiagDump

  /** The reports of the runner to its caller, command by command, in one interleaving. */
  function Log(acts: seq<P.Action>): seq<P.Report>
    requires P.IsRun(P.INITIAL, acts)
  {
    P.End(P.INITIAL, acts).hist.log
  }

  /** What the caller learns of each command is what the runner told it. */
  ghost predicate Told(e: Env, log: seq<P.Report>) {
    forall n :: 0 <= n < |log| ==> e.ok(n) == log[n].ok
  }

  predicate Shown(out: Outcome, cmd: string) {
    out.Failures? && exists k :: 0 <= k < |out.report| && out.report[k].1 == cmd
  }

  /** A run to the end, over commands that were all handed to the runner. */
  ghost predicate RanToTheEnd(t: seq<S.Feature>, flags: seq<bool>, r: Request, e: Env, log: seq<P.Report>)
    requires |flags| == |TreeCmds(t)|
  {
    && (ShowTech(t, flags, r, e).1.Success? || ShowTech(t, flags, r, e).1.Failures?)
    && Select(t, r).Some? && Select(t, r).value.end - Select(t, r).value.from <= |log| && Told(e, log)
  }

  lemma {:induction false} NoFailures(e: Env, first: bool, flags: seq<bool>, i: nat, end: nat, n: nat, j: nat)
    requires end <= |flags| && i <= j < end
    requires !Visit(e, first, flags, i, end, n).stopped && Visit(e, first, flags, i, end, n).failures == 0
    ensures e.ok(n + j - i)
    decreases end - i
  {
    if i < j {
      NoFailures(e, first, flags[i := flags[i] || !e.ok(n)], i + 1, end, n + 1, j);
    }
  }

  /** Every entry of a listing is a flagged command. */
  lemma {:induction false} ListingEntry(cmds: seq<string>, flags: seq<bool>, i: nat, end: nat, number: nat, k: nat)
    returns (j: nat)
    requires i <= end <= |cmds| == |flags| && k < |Listing(cmds, flags, i, end, number)|
    ensures i <= j < end && flags[j] && Listing(cmds, flags, i, end, number)[k] == (number + k, cmds[j])
    decreases end - i
  {
    if flags[i] && k == 0 {
      j := i;
    } else if flags[i] {
      j := ListingEntry(cmds, flags, i + 1, end, number + 1, k - 1);
    } else {
      j := ListingEntry(cmds, flags, i + 1, end, number, k);
    }
  }

  /** A selected command that the report of an uninterrupted run does not show was created, was never
      cancelled, and ran to a successful end; unless threads fail to set up, no interleaving of the
      runner with the signal handlers makes the report keep silent about any other command. */
  lemma {:induction false} SilenceMeansRanOk(acts: seq<P.Action>, t: seq<S.Feature>, flags: seq<bool>, r: Request,
      e: Env, j: nat)
    requires P.IsRun(P.INITIAL, acts) && P.OnWorker(P.SetupFails) !in acts
    requires |flags| == |TreeCmds(t)| && RanToTheEnd(t, flags, r, e, Log(acts))
    requires Select(t, r).value.from <= j < Select(t, r).value.end && j < |TreeCmds(t)|
    requires !Shown(ShowTech(t, flags, r, e).1, TreeCmds(t)[j])
    ensures var cur := Log(acts)[j - Select(t, r).value.from].cur;
      cur.created && !cur.cancelled && cur.outcome == P.RanOk
  {
    hide P.IsRun, P.End, P.Reachable;
    var x, out, log := Select(t, r).value, ShowTech(t, flags, r, e).1, Log(acts);
    SelectInRange(t, r);
    assert e.ok(j - x.from) by {
      if out.Success? {
        NoFailures(e, r.OneFeature?, flags, x.from, x.end, 0, j);
      } else if !e.ok(j - x.from) {
        ReportEntries(t, flags, r, e);
        ReportEntry(TreeCmds(t), Flagged(e, flags, x), j);
      }
    }
    LoggedOk(acts, log[j - x.from]);
  }

  lemma LoggedOk(acts: seq<P.Action>, report: P.Report)
    requires P.IsRun(P.INITIAL, acts) && P.OnWorker(P.SetupFails) !in acts
    requires report in Log(acts) && report.ok
    ensures report.cur.created && !report.cur.cancelled && report.cur.outcome == P.RanOk
  {
    hide P.IsRun, P.End;
    P.SuccessMeansRanOk(acts, report);
    assert P.Leads(P.INITIAL, P.End(P.INITIAL, acts));
    P.SuccessExactly(P.End(P.INITIAL, acts), report);
  }

  /** And from clear flags the report shows nothing else: entry k names a selected command whose
      thread could not be created, which was cancelled, which failed, or during which an interrupt
      was seen that entitled the runner to cancel it. */
  lemma {:induction false} ShownMeansNotOk(acts: seq<P.Action>, t: seq<S.Feature>, flags: seq<bool>, r: Request,
      e: Env, k: nat)
    returns (j: nat)
    requires P.IsRun(P.INITIAL, acts)
    requires |flags| == |TreeCmds(t)| && Count(flags) == 0 && RanToTheEnd(t, flags, r, e, Log(acts))
    requires ShowTech(t, flags, r, e).1.Failures? && k < |ShowTech(t, flags, r, e).1.report|
    ensures Select(t, r).value.from <= j < Select(t, r).value.end && j < |TreeCmds(t)|
    ensures ShowTech(t, flags, r, e).1.report[k] == (k + 1, TreeCmds(t)[j])
    ensures WentWrong(Log(acts)[j - Select(t, r).value.from])
  {
    hide P.IsRun, P.End, P.Reachable;
    SelectInRange(t, r);
    CountZero(flags);
    ReportEntries(t, flags, r, e);
    var x := Select(t, r).value;
    j := ListingEntry(TreeCmds(t), Flagged(e, flags, x), 0, |TreeCmds(t)|, 1, k);
    LoggedNotOk(acts, Log(acts)[j - x.from]);
  }

  /** The command was not created, was cancelled, failed, or saw an interrupt that entitled the
      runner to cancel it. */
  predicate WentWrong(report: P.Report) {
    !report.cur.created || report.cur.cancelled || report.cur.outcome == P.RanFailed
    || (report.loc.latchSeen && report.loc.mayCancel)
  }

  lemma LoggedNotOk(acts: seq<P.Action>, report: P.Report)
    requires P.IsRun(P.INITIAL, acts) && report in Log(acts)
    ensures !report.ok <==> WentWrong(report)
  {
    hide P.IsRun, P.End;
    assert P.Leads(P.INITIAL, P.End(P.INITIAL, acts));
    P.SuccessExactly(P.End(P.INITIAL, acts), report);
  }

  // ----- where the run stops -----

  /** The tests of the latch that the accounting asks about are those of the caller's loop. */
  ghost predicate Tied(e: Env, s: P.State) {
    var log, loop := s.hist.log, s.hist.loop;
    && Told(e, log) && (forall n :: 0 <= n < |log| ==> !e.stopBefore(n)) && (e.stopBefore(|log|) <==> loop.before)
    && (forall n :: 0 <= n < |loop.after| ==> (e.stopAfter(n) <==> loop.after[n]))
  }

  /** The loop is over, and unless it was stopped it went through all of so many commands. */
  predicate WentThrough(s: P.State, commands: nat) {
    && s.main == P.Done && |s.hist.log| <= commands
    && (s.hist.loop.before ==> |s.hist.log| < commands)
    && (!P.Stopped(s) ==> |s.hist.log| == commands)
  }

  /** The accounting executes exactly the commands that the runner was given, and stops exactly if
      the loop of the interleaving was stopped. */
  lemma {:induction false} VisitIsRun(s: P.State, e: Env, first: bool, flags: seq<bool>, from: nat, end: nat, n: nat)
    requires P.LoopOk(s) && Tied(e, s) && from <= end <= |flags| && WentThrough(s, end - from)
    requires s.hist.loop.before ==> first
    requires n <= |s.hist.log| && forall m :: 0 <= m < n ==> !s.hist.loop.after[m]
    ensures var t := Visit(e, first, flags, from + n, end, n);
      t.executed == |s.hist.log| && (t.stopped <==> P.Stopped(s))
    decreases end - from - n
  {
    var after := s.hist.loop.after;
    if n < |s.hist.log| && !after[n] {
      VisitIsRun(s, e, first, flags[from + n := flags[from + n] || !e.ok(n)], from, end, n + 1);
    }
  }

  /** A run whose tests of the latch are those of an interleaving is interrupted exactly if the loop of
      that interleaving was stopped; and if no handler has raised the latch and nothing asked for the
      remaining commands to be skipped, it is not. */
  lemma {:induction false} StoppedExactly(acts: seq<P.Action>, t: seq<S.Feature>, flags: seq<bool>, r: Request, e: Env)
    requires P.IsRun(P.INITIAL, acts) && |flags| == |TreeCmds(t)| && t != [] && Select(t, r).Some?
    requires var s, x := P.End(P.INITIAL, acts), Select(t, r).value;
      && Tied(e, s) && x.from <= x.end && WentThrough(s, x.end - x.from) && (s.hist.loop.before ==> r.OneFeature?)
    ensures var s := P.End(P.INITIAL, acts);
      && (ShowTech(t, flags, r, e).1 == Stopped <==> P.Stopped(s))
      && (s.hist.latch.rises == 0 && P.InLoop(P.AfterCommand(true)) !in acts ==> ShowTech(t, flags, r, e).1 != Stopped)
  {
    hide P.IsRun, P.End, P.LoopOk, P.Stopped, Visit, Tied, WentThrough;
    var s, x := P.End(P.INITIAL, acts), Select(t, r).value;
    SelectInRange(t, r);
    StartsInLoop();
    P.RunInLoop(P.INITIAL, acts);
    assert P.Leads(P.INITIAL, s);
    P.ReachableInv(s);
    VisitStops(s, e, r.OneFeature?, flags, x);
  }

  lemma {:induction false} AllAnswered(e: Env, first: bool, flags: seq<bool>, i: nat, end: nat, n: nat)
    requires i <= end <= |flags| && forall m :: n <= m < n + end - i ==> e.ok(m)
    ensures Visit(e, first, flags, i, end, n).failures == 0
    decreases end - i
  {
    if i < end {
      AllAnswered(e, first, flags[i := flags[i] || !e.ok(n)], i + 1, end, n + 1);
    }
  }

  /** And a user sees success if every selected command got a thread and ran well, no wait timed out, no
      handler raised the latch and nothing asked for the remaining commands to be skipped. */
  lemma {:induction false} AllWell(acts: seq<P.Action>, t: seq<S.Feature>, flags: seq<bool>, r: Request, e: Env)
    requires P.IsRun(P.INITIAL, acts) && |flags| == |TreeCmds(t)| && t != [] && Select(t, r).Some?
    requires var s, x := P.End(P.INITIAL, acts), Select(t, r).value;
      && Tied(e, s) && x.from <= x.end && WentThrough(s, x.end - x.from) && (s.hist.loop.before ==> r.OneFeature?)
      && s.hist.latch.rises == 0
    requires P.InLoop(P.AfterCommand(true)) !in acts && true !in C.Wakes(acts)
    requires forall report :: report in Log(acts) ==> report.cur.created && report.cur.outcome == P.RanOk
    ensures ShowTech(t, flags, r, e).1 == Success
  {
    hide P.IsRun, P.End, P.Stopped, Visit, C.Wakes;
    SelectInRange(t, r);
    StoppedExactly(acts, t, flags, r, e);
    var x, log := Select(t, r).value, Log(acts);
    forall n | 0 <= n < |log| ensures e.ok(n) {
      assert log[n] in log;
      C.UndisturbedSuccess(acts, log[n]);
    }
    AllAnswered(e, r.OneFeature?, flags, x.from, x.end, 0);
  }

  lemma StartsInLoop()
    ensures P.LoopOk(P.INITIAL) && !P.Stopped(P.INITIAL)
  {
  }

  lemma VisitStops(s: P.State, e: Env, first: bool, flags: seq<bool>, x: Range)
    requires P.LoopOk(s) && Tied(e, s) && x.from <= x.end <= |flags| && WentThrough(s, x.end - x.from)
    requires s.hist.loop.before ==> first
    ensures Visit(e, first, flags, x.from, x.end, 0).stopped <==> P.Stopped(s)
  {
    VisitIsRun(s, e, first, flags, x.from, x.end, 0);
  }

  // ----- the dump of a feature -----

  /** How many of the first n commands went wrong. */
  function Wrong(log: seq<P.Report>, n: nat): nat
    requires n <= |log|
  {
    if n == 0 then 0 else Wrong(log, n - 1) + (if WentWrong(log[n - 1]) then 1 else 0)
  }

  lemma {:induction false} AnsweredIs(acts: seq<P.Action>, e: Env, n: nat)
    requires P.IsRun(P.INITIAL, acts) && Told(e, Log(acts)) && n <= |Log(acts)|
    ensures D.Answered(e, 0, n) == n - Wrong(Log(acts), n)
  {
    hide P.IsRun, P.End, WentWrong;
    if n > 0 {
      AnsweredIs(acts, e, n - 1);
      D.AnsweredMore(e, 0, n - 1);
      LoggedNotOk(acts, Log(acts)[n - 1]);
    }
  }

  /** A dump that is not interrupted reports exactly as many failed daemons as requests went wrong
      in the interleaving, and success if there is none. */
  lemma {:induction false} DumpCounts(acts: seq<P.Action>, flags: seq<bool>, e: Env)
    requires P.IsRun(P.INITIAL, acts) && Told(e, Log(acts)) && D.Enabled(flags) <= |Log(acts)|
    requires D.Dump(flags, e) != D.Interrupted
    ensures var wrong := Wrong(Log(acts), D.Enabled(flags));
      D.Dump(flags, e) == if wrong == 0 then D.Captured else D.Failed(wrong)
  {
    hide P.IsRun, P.End, Told;
    AnsweredIs(acts, e, D.Enabled(flags));
  }

  /** A dump that succeeds has had an answer from every enabled daemon. */
  lemma {:induction false} CapturedMeansRanOk(acts: seq<P.Action>, flags: seq<bool>, e: Env, n: nat)
    requires P.IsRun(P.INITIAL, acts) && P.OnWorker(P.SetupFails) !in acts
    requires Told(e, Log(acts)) && n < D.Enabled(flags) <= |Log(acts)| && D.Dump(flags, e) == D.Captured
    ensures var cur := Log(acts)[n].cur; cur.created && !cur.cancelled && cur.outcome == P.RanOk
  {
    hide P.IsRun, P.End;
    D.AnsweredAtMost(e, 0, D.Enabled(flags));
    assert e.ok(n);
    LoggedOk(acts, Log(acts)[n]);
  }

  /** Whatever the loop of the interleaving saw, the tests of the dump saw. */
  lemma DumpStops(s: P.State, flags: seq<bool>, e: Env)
    requires P.LoopOk(s) && Tied(e, s) && WentThrough(s, D.Enabled(flags))
    ensures D.Dump(flags, e) == D.Interrupted <==> P.Stopped(s)
  {
    var log, loop, n := s.hist.log, s.hist.loop, D.Enabled(flags);
    if loop.before {
      assert e.stopBefore(|log|);
    } else if |loop.after| > 0 && loop.after[|loop.after| - 1] {
      assert e.stopAfter(|loop.after| - 1);
    } else {
      assert D.Undisturbed(e, 0, n);
    }
  }

  /** A dump whose tests of the latch are those of an interleaving is interrupted exactly if the loop of
      that interleaving was stopped; and if no handler has raised the latch and nothing asked for the
      remaining daemons to be skipped, it is not. */
  lemma {:induction false} DumpStoppedExactly(acts: seq<P.Action>, flags: seq<bool>, e: Env)
    requires P.IsRun(P.INITIAL, acts)
    requires var s := P.End(P.INITIAL, acts); Tied(e, s) && WentThrough(s, D.Enabled(flags))
    ensures var s := P.End(P.INITIAL, acts);
      && (D.Dump(flags, e) == D.Interrupted <==> P.Stopped(s))
      && (s.hist.latch.rises == 0 && P.InLoop(P.AfterCommand(true)) !in acts ==> D.Dump(flags, e) != D.Interrupted)
  {
    hide P.IsRun, P.End, P.LoopOk, P.Stopped, Tied, WentThrough;
    var s := P.End(P.INITIAL, acts);
    StartsInLoop();
    P.RunInLoop(P.INITIAL, acts);
    assert P.Leads(P.INITIAL, s);
    P.ReachableInv(s);
    DumpStops(s, flags, e);
  }
}
