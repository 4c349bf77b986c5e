/** Why the runner of RunnerProtocol reports what it reports: what ended each wait, what a
    cancellation goes back to, and who wrote the flags that the threads share. */
module RunnerCauses {
  import opened Options
  import opened RunnerProtocol

  // ----- what ended each wait -----

  /** For each wait, in order, whether it ended by the timeout. */
  function Wakes(acts: seq<Action>): seq<bool> {
    if acts == [] then []
    else (if acts[0].InWait? && acts[0].w.Wake? then [acts[0].w.timeout] else []) + Wakes(acts[1..])
  }

  /** The reports of the commands that have had a thread. */
  function Created(log: seq<Report>): seq<Report>
    decreases |log|
  {
    if log == [] then []
    else
      var r := log[|log| - 1];
      Created(log[..|log| - 1]) + (if r.cur.created then [r] else [])
  }

  /** The wait of the current command is over. */
  predicate PastWait(m: MainPc) {
    m.Relocking? || m.Unlocking? || m.ReadAlarm? || m.Disarm? || m.Keep? || m.ClearAlarm? || m.Branch?
    || m.Cancel? || m.LockCleanup? || m.UnlockCleanup? || m.MarkFailed? || m.Joining? || m.ReadFailed? || m.ReadLatch?
  }

  predicate Unlogged(s: State) {
    PastWait(s.main) || (s.main.Returning? && s.hist.cur.created)
  }

  /** What a report says about its command goes back to how its wait ended and to the latch. */
  predicate Explained(r: Report, timedOut: bool, interrupt: bool) {
    && r.loc.timedOut == timedOut && (timedOut ==> r.cur.cancelled)
    && (r.cur.cancelled ==> timedOut || (interrupt && r.loc.mayCancel))
    && (r.loc.latchSeen ==> interrupt)
  }

  /** After the branch on the timeout. */
  predicate PastBranch(s: State) {
    s.main.LockCleanup? || s.main.UnlockCleanup? || s.main.MarkFailed? || s.main.Joining? || s.main.ReadFailed?
    || s.main.ReadLatch? || (s.main.Returning? && s.hist.cur.created)
  }

  /** The same for the command in progress. */
  predicate Explainable(s: State) {
    && (s.loc.latchSeen ==> s.flags.interrupt)
    && (s.hist.cur.cancelled ==> s.loc.timedOut || (s.flags.interrupt && s.loc.mayCancel) || !Unlogged(s))
    && (s.loc.timedOut && PastBranch(s) ==> s.hist.cur.cancelled)
    && (s.main.Cancel? ==> s.loc.timedOut || (s.flags.interrupt && s.loc.mayCancel))
  }

  predicate Causes(s: State, ws: seq<bool>) {
    var cl := Created(s.hist.log);
    && |ws| == |cl| + (if Unlogged(s) then 1 else 0)
    && (Unlogged(s) ==> s.loc.timedOut == ws[|ws| - 1])
    && (forall j :: 0 <= j < |cl| ==> Explained(cl[j], ws[j], s.flags.interrupt))
    && Explainable(s)
  }

  /** Steps that leave the main thread and the log alone, and at most raise the latch. */
  predicate Aside(s: State, t: State) {
    && t.main == s.main && t.loc == s.loc && t.hist.log == s.hist.log
    && t.hist.cur.created == s.hist.cur.created && t.hist.cur.cancelled == s.hist.cur.cancelled
    && (s.flags.interrupt ==> t.flags.interrupt)
  }

  lemma AsideKeeps(s: State, t: State, ws: seq<bool>)
    requires Causes(s, ws) && Aside(s, t)
    ensures Causes(t, ws)
  {
    hide Created;
  }

  lemma WorkerAside(s: State, a: WorkerAction)
    requires Inv(s) && WorkerEnabled(s, a)
    ensures Aside(s, DoWorker(s, a))
  {
    WorkerFrame(s, a);
    WorkerThreads(s, a);
    hide DoWorker;
  }

  lemma HandlerAside(s: State, a: Action)
    requires Enabled(s, a) && (a.OnInt? || a.OnTstp? || a.OnAlrm?)
    ensures Aside(s, Do(s, a))
  {
    hide DoLoop, DoWait, DoEnd, DoWorker;
  }

  lemma LoopCauses(s: State, a: LoopAction, ws: seq<bool>)
    requires Inv(s) && Causes(s, ws) && LoopEnabled(s, a)
    ensures Causes(DoLoop(s, a), ws)
  {
    hide Inv, Explained;
    if a.Return? {
      if s.hist.cur.created { ReturnExplained(s); }
      var r := Report(s.main.ok, s.hist.cur, s.loc);
      var log := s.hist.log + [r];
      assert log[..|log| - 1] == s.hist.log;
    }
  }

  lemma ReturnExplained(s: State)
    requires Explainable(s) && s.main.Returning? && s.hist.cur.created
    ensures Explained(Report(s.main.ok, s.hist.cur, s.loc), s.loc.timedOut, s.flags.interrupt)
  {
  }

  lemma BeforeAnyCancellation(s: State, a: WaitAction)
    requires Inv(s) && WaitEnabled(s, a)
    ensures !s.hist.cur.cancelled && (s.hist.cur.created <==> s.main != Creating)
  {
    hide LogOk, LatchOk;
  }

  lemma WaitCauses(s: State, a: WaitAction, ws: seq<bool>)
    requires Inv(s) && Causes(s, ws) && WaitEnabled(s, a)
    ensures Causes(DoWait(s, a), ws + Wakes([InWait(a)]))
  {
    hide Created, Inv, Explained;
    BeforeAnyCancellation(s, a);
    OneWake(InWait(a));
    assert ws + [] == ws;
  }

  lemma EndCauses(s: State, a: EndAction, ws: seq<bool>)
    requires Inv(s) && Causes(s, ws) && EndEnabled(s, a)
    ensures Causes(DoEnd(s, a), ws)
  {
    hide Created;
  }

  lemma OneWake(a: Action)
    ensures Wakes([a]) == if a.InWait? && a.w.Wake? then [a.w.timeout] else []
  {
    assert [a][1..] == [] && Wakes([a][1..]) == [];
  }

  lemma StepCauses(s: State, a: Action, ws: seq<bool>)
    requires Inv(s) && Causes(s, ws) && Enabled(s, a)
    ensures Causes(Do(s, a), ws + Wakes([a]))
  {
    hide Inv, Causes, LoopEnabled, WaitEnabled, EndEnabled, WorkerEnabled, IntEnabled, TstpEnabled, AlrmEnabled;
    hide DoLoop, DoWait, DoEnd, DoWorker, DoInt, DoTstp, DoAlrm, Aside;
    OneWake(a);
    assert ws + [] == ws;
    match a
    case InLoop(l) => LoopCauses(s, l, ws);
    case InWait(w) => WaitCauses(s, w, ws);
    case AtEnd(e) => EndCauses(s, e, ws);
    case OnWorker(k) =>
      WorkerAside(s, k);
      AsideKeeps(s, Do(s, a), ws);
    case OnInt(i) => HandlerCauses(s, a, ws);
    case OnTstp(z) => HandlerCauses(s, a, ws);
    case OnAlrm(x) => HandlerCauses(s, a, ws);
  }

  lemma HandlerCauses(s: State, a: Action, ws: seq<bool>)
    requires Causes(s, ws) && Enabled(s, a) && (a.OnInt? || a.OnTstp? || a.OnAlrm?)
    ensures Causes(Do(s, a), ws + Wakes([a]))
  {
    hide Causes, Enabled, Do, Aside;
    OneWake(a);
    assert ws + [] == ws;
    HandlerAside(s, a);
    AsideKeeps(s, Do(s, a), ws);
  }

  lemma {:induction false} RunCauses(s: State, acts: seq<Action>, ws: seq<bool>)
    requires Inv(s) && Causes(s, ws) && IsRun(s, acts)
    ensures Causes(End(s, acts), ws + Wakes(acts)) && Inv(End(s, acts))
    decreases |acts|
  {
    hide Inv, Causes, Enabled, Do;
    if acts == [] {
      assert ws + [] == ws;
    } else {
      StepKeeps(s, acts[0]);
      StepCauses(s, acts[0], ws);
      RunCauses(Do(s, acts[0]), acts[1..], ws + Wakes([acts[0]]));
      WakesFirst(acts);
      assert ws + Wakes([acts[0]]) + Wakes(acts[1..]) == ws + Wakes(acts);
    }
  }

  lemma WakesFirst(acts: seq<Action>)
    requires acts != []
    ensures Wakes(acts) == Wakes([acts[0]]) + Wakes(acts[1..])
  {
    assert [acts[0]][1..] == [];
  }

  lemma Start()
    ensures Inv(INITIAL) && Causes(INITIAL, [])
  {
  }

  /** In every interleaving there is a wait for each command that had a thread and is reported, and a
      timed-out wait leads to a cancellation; a cancellation goes back to a timed-out wait of the same
      command, or to a risen latch that the alarm has not answered. */
  lemma {:induction false} CancelledBecause(acts: seq<Action>, j: nat)
    requires IsRun(INITIAL, acts) && j < |Created(End(INITIAL, acts).hist.log)|
    ensures j < |Wakes(acts)|
    ensures var r := Created(End(INITIAL, acts).hist.log)[j];
      && (Wakes(acts)[j] ==> r.cur.cancelled)
      && (r.cur.cancelled ==> Wakes(acts)[j] || (End(INITIAL, acts).hist.latch.rises == 1 && r.loc.mayCancel))
  {
    hide IsRun, End, Inv;
    Start();
    RunCauses(INITIAL, acts, []);
    assert [] + Wakes(acts) == Wakes(acts);
    LatchRises(End(INITIAL, acts));
  }

  lemma LatchRises(s: State)
    requires Inv(s)
    ensures s.hist.latch.rises == if s.flags.interrupt then 1 else 0
  {
  }

  lemma {:induction false} CreatedIs(log: seq<Report>, r: Report)
    ensures r in Created(log) <==> r in log && r.cur.created
    decreases |log|
  {
    if log != [] {
      CreatedIs(log[..|log| - 1], r);
      assert log == log[..|log| - 1] + [log[|log| - 1]];
    }
  }

  /** Without a timed-out wait and without an interrupt nothing is ever cancelled, and every command
      that had a thread and ended well is reported as a success. */
  lemma {:induction false} UndisturbedSuccess(acts: seq<Action>, r: Report)
    requires IsRun(INITIAL, acts) && true !in Wakes(acts) && End(INITIAL, acts).hist.latch.rises == 0
    requires r in End(INITIAL, acts).hist.log
    ensures !r.cur.cancelled
    ensures r.cur.created && r.cur.outcome == RanOk ==> r.ok
  {
    hide IsRun, End, Inv;
    var s := End(INITIAL, acts);
    Start();
    RunCauses(INITIAL, acts, []);
    assert [] + Wakes(acts) == Wakes(acts);
    LatchRises(s);
    CreatedIs(s.hist.log, r);
    assert Leads(INITIAL, s);
    SuccessExactly(s, r);
    if r.cur.created {
      var j :| 0 <= j < |Created(s.hist.log)| && Created(s.hist.log)[j] == r;
      assert Explained(r, Wakes(acts)[j], s.flags.interrupt) && Wakes(acts)[j] in Wakes(acts);
    } else {
      NoneWithoutThread(acts, r);
    }
  }

  /** A command without a thread has nothing to cancel. */
  predicate NotCreated(s: State) {
    && (!s.hist.cur.created ==> !s.hist.cur.cancelled)
    && (forall r :: r in s.hist.log ==> (!r.cur.created ==> !r.cur.cancelled))
  }

  lemma StepNotCreated(s: State, a: Action)
    requires Inv(s) && NotCreated(s) && Enabled(s, a)
    ensures NotCreated(Do(s, a))
  {
    if a.OnWorker? {
      WorkerAside(s, a.k);
    } else if a.OnInt? || a.OnTstp? || a.OnAlrm? {
      HandlerAside(s, a);
    } else {
      MainNotCreated(s, a);
    }
    hide Inv, Do, Enabled, WorkerEnabled;
  }

  lemma MainNotCreated(s: State, a: Action)
    requires Inv(s) && NotCreated(s) && Enabled(s, a) && (a.InLoop? || a.InWait? || a.AtEnd?)
    ensures NotCreated(Do(s, a))
  {
    hide CancelOk, LogOk, LatchOk, DoWorker, DoInt, DoTstp, DoAlrm;
  }

  lemma {:induction false} RunNotCreated(s: State, acts: seq<Action>)
    requires Inv(s) && NotCreated(s) && IsRun(s, acts)
    ensures NotCreated(End(s, acts))
    decreases |acts|
  {
    hide Inv, NotCreated, Enabled, Do;
    if acts != [] {
      StepKeeps(s, acts[0]);
      StepNotCreated(s, acts[0]);
      RunNotCreated(Do(s, acts[0]), acts[1..]);
    }
  }

  lemma NoneWithoutThread(acts: seq<Action>, r: Report)
    requires IsRun(INITIAL, acts) && r in End(INITIAL, acts).hist.log && !r.cur.created
    ensures !r.cur.cancelled
  {
    hide IsRun, End, Inv;
    Start();
    assert NotCreated(INITIAL);
    RunNotCreated(INITIAL, acts);
  }

  // ----- interrupts with grace -----

  /** What could take a running command its grace period: the end of its time, SIGTSTP, the alarm, or
      a SIGINT handler that writes the latch and the alarm flag while main reads them. */
  predicate Disturbs(s: State, a: Action) {
    match a
    case InWait(w) =>
      (w.Wake? && w.timeout) || (w.TestAlarm? && s.handlers.ints.test + s.handlers.ints.flag > 0)
    case OnInt(i) => i.IntLatch? && s.main == Branch
    case OnTstp(z) => z.SigTstp?
    case OnAlrm(x) => x.SigAlrm?
    case _ => false
  }

  predicate Quiet(s: State, acts: seq<Action>)
    requires IsRun(s, acts)
    decreases |acts|
  {
    acts == [] || (!Disturbs(s, acts[0]) && Quiet(Do(s, acts[0]), acts[1..]))
  }

  /** Main has not looked at the alarm flag since the current command began. */
  predicate FlagUnread(m: MainPc) {
    m.Idle? || m.Creating? || m.Locking? || m.Waiting? || m.Relocking? || m.Unlocking? || m.ReadAlarm?
  }

  /** No cancellation, and a risen latch is answered by the alarm flag until main has seen it. */
  predicate Graceful(s: State) {
    && s.handlers.tstps == TstpAt(0, 0, 0, 0) && s.handlers.alrms == AlrmAt(0, 0, 0, 0)
    && !s.loc.timedOut && !s.hist.cur.cancelled && (forall r :: r in s.hist.log ==> !r.cur.cancelled)
    && !s.main.Cancel? && !s.main.LockCleanup? && !s.main.UnlockCleanup? && !s.main.MarkFailed?
    && (s.main.Branch? && s.loc.mayCancel ==> !s.flags.interrupt) && (s.main.ClearAlarm? ==> !s.loc.mayCancel)
    && (FlagUnread(s.main) && s.flags.interrupt && s.handlers.ints.test + s.handlers.ints.flag == 0 ==> s.flags.alarm)
  }

  lemma LoopGraceful(s: State, a: LoopAction)
    requires Graceful(s) && LoopEnabled(s, a)
    ensures Graceful(DoLoop(s, a))
  {
  }

  lemma WaitGraceful(s: State, a: WaitAction)
    requires Graceful(s) && WaitEnabled(s, a) && !Disturbs(s, InWait(a))
    ensures Graceful(DoWait(s, a))
  {
  }

  lemma EndGraceful(s: State, a: EndAction)
    requires Graceful(s) && EndEnabled(s, a)
    ensures Graceful(DoEnd(s, a))
  {
  }

  lemma WorkerGraceful(s: State, a: WorkerAction)
    requires Inv(s) && Graceful(s) && WorkerEnabled(s, a)
    ensures Graceful(DoWorker(s, a))
  {
    WorkerAside(s, a);
    WorkerHandlers(s, a);
    hide DoWorker, Inv, WorkerEnabled;
  }

  lemma WorkerHandlers(s: State, a: WorkerAction)
    requires WorkerEnabled(s, a)
    ensures var t := DoWorker(s, a);
      && t.handlers == s.handlers && t.flags.alarm == s.flags.alarm && t.flags.interrupt == s.flags.interrupt
  {
    match a
    case CommandEnds(_) =>
    case _ =>
  }

  lemma HandlerGraceful(s: State, a: Action)
    requires Graceful(s) && Enabled(s, a) && (a.OnInt? || a.OnTstp? || a.OnAlrm?) && !Disturbs(s, a)
    ensures Graceful(Do(s, a))
  {
    hide DoLoop, DoWait, DoEnd, DoWorker;
  }

  lemma StepGraceful(s: State, a: Action)
    requires Inv(s) && Graceful(s) && Enabled(s, a) && !Disturbs(s, a)
    ensures Graceful(Do(s, a))
  {
    hide Inv, Graceful, LoopEnabled, WaitEnabled, EndEnabled, WorkerEnabled, IntEnabled, TstpEnabled, AlrmEnabled;
    hide DoLoop, DoWait, DoEnd, DoWorker, DoInt, DoTstp, DoAlrm, Disturbs;
    match a
    case InLoop(l) => LoopGraceful(s, l);
    case InWait(w) => WaitGraceful(s, w);
    case AtEnd(e) => EndGraceful(s, e);
    case OnWorker(k) => WorkerGraceful(s, k);
    case OnInt(i) => HandlerGraceful(s, a);
    case OnTstp(z) => HandlerGraceful(s, a);
    case OnAlrm(x) => HandlerGraceful(s, a);
  }

  lemma {:induction false} RunGraceful(s: State, acts: seq<Action>)
    requires Inv(s) && Graceful(s) && IsRun(s, acts) && Quiet(s, acts)
    ensures Graceful(End(s, acts))
    decreases |acts|
  {
    hide Inv, Graceful, Enabled, Do, Disturbs;
    if acts != [] {
      StepKeeps(s, acts[0]);
      StepGraceful(s, acts[0]);
      RunGraceful(Do(s, acts[0]), acts[1..]);
    }
  }

  /** After an interrupt a running command is left to finish: it is cancelled only if its time ends, the
      alarm expires, SIGTSTP arrives, or the handler runs just while main looks at the flags. */
  lemma {:induction false} GracePeriod(acts: seq<Action>, r: Report)
    requires IsRun(INITIAL, acts) && Quiet(INITIAL, acts) && r in End(INITIAL, acts).hist.log
    ensures !r.cur.cancelled
  {
    hide IsRun, End, Inv, Quiet;
    Start();
    assert Graceful(INITIAL);
    RunGraceful(INITIAL, acts);
  }

  // ----- who wrote the shared flags -----

  /** What the last write among the actions left, by a table of which action writes what. */
  function LastWrite(writes: Action -> Option<bool>, acts: seq<Action>, now: bool): bool
    decreases |acts|
  {
    if acts == [] then now
    else LastWrite(writes, acts[1..], if writes(acts[0]).Some? then writes(acts[0]).value else now)
  }

  function LatchWrites(a: Action): Option<bool> {
    if a == OnInt(IntLatch) || a == OnTstp(TstpLatch) then Some(true) else None
  }

  function AlarmWrites(a: Action): Option<bool> {
    if a == OnInt(IntFlag) then Some(true)
    else if a == InWait(ResetAlarmFlag) || a == OnAlrm(AlrmClear) then Some(false)
    else None
  }

  function TimerWrites(a: Action): Option<bool> {
    if a == OnInt(IntArm) then Some(true)
    else if a == InWait(DisarmAlarm) || a == OnAlrm(SigAlrm) then Some(false)
    else None
  }

  function FailureWrites(a: Action): Option<bool> {
    if a == OnWorker(FlagFailure) || a == AtEnd(MarkTimedOut) then Some(true)
    else if a == InLoop(Begin) then Some(false)
    else None
  }

  function After(write: Option<bool>, now: bool): bool {
    if write.Some? then write.value else now
  }

  predicate Written(s: State, t: State, a: Action) {
    && t.flags.interrupt == After(LatchWrites(a), s.flags.interrupt)
    && t.flags.alarm == After(AlarmWrites(a), s.flags.alarm)
    && t.flags.failed == After(FailureWrites(a), s.flags.failed)
    && t.sync.armed == After(TimerWrites(a), s.sync.armed)
  }

  lemma MainWrites(s: State, a: Action)
    requires Enabled(s, a) && (a.InLoop? || a.InWait? || a.AtEnd?)
    ensures Written(s, Do(s, a), a)
  {
    hide DoWorker, DoInt, DoTstp, DoAlrm;
  }

  lemma WorkerWrites(s: State, a: WorkerAction)
    requires WorkerEnabled(s, a)
    ensures Written(s, DoWorker(s, a), OnWorker(a))
  {
    match a
    case CommandEnds(_) =>
    case _ =>
  }

  lemma HandlerWrites(s: State, a: Action)
    requires Enabled(s, a) && (a.OnInt? || a.OnTstp? || a.OnAlrm?)
    ensures Written(s, Do(s, a), a)
  {
    hide DoLoop, DoWait, DoEnd, DoWorker;
  }

  lemma StepWrites(s: State, a: Action)
    requires Enabled(s, a)
    ensures Written(s, Do(s, a), a)
  {
    if a.OnWorker? {
      WorkerWrites(s, a.k);
    } else if a.OnInt? || a.OnTstp? || a.OnAlrm? {
      HandlerWrites(s, a);
    } else {
      MainWrites(s, a);
    }
    hide Written, Do, Enabled;
  }

  lemma {:induction false} RunWrites(s: State, acts: seq<Action>)
    requires IsRun(s, acts)
    ensures var t := End(s, acts);
      && t.flags.interrupt == LastWrite(LatchWrites, acts, s.flags.interrupt)
      && t.flags.alarm == LastWrite(AlarmWrites, acts, s.flags.alarm)
      && t.flags.failed == LastWrite(FailureWrites, acts, s.flags.failed)
      && t.sync.armed == LastWrite(TimerWrites, acts, s.sync.armed)
    decreases |acts|
  {
    hide Enabled, Do, LatchWrites, AlarmWrites, FailureWrites, TimerWrites;
    if acts != [] {
      StepWrites(s, acts[0]);
      RunWrites(Do(s, acts[0]), acts[1..]);
    }
  }

  /** In every interleaving the latch, the alarm flag, the failure flag and the timer are what their last
      writer made them: handlers raise the latch and the alarm flag and set the timer; main, once it
      has seen the flag, and the alarm itself take them back; a new command clears the failure. */
  lemma {:induction false} LastWriters(acts: seq<Action>)
    requires IsRun(INITIAL, acts)
    ensures var t := End(INITIAL, acts);
      && (t.flags.interrupt <==> OnInt(IntLatch) in acts || OnTstp(TstpLatch) in acts)
      && t.flags.alarm == LastWrite(AlarmWrites, acts, false)
      && t.flags.failed == LastWrite(FailureWrites, acts, false)
      && t.sync.armed == LastWrite(TimerWrites, acts, false)
  {
    RunWrites(INITIAL, acts);
    Raised(acts, false);
  }

  lemma {:induction false} Raised(acts: seq<Action>, now: bool)
    ensures LastWrite(LatchWrites, acts, now) <==> now || OnInt(IntLatch) in acts || OnTstp(TstpLatch) in acts
    decreases |acts|
  {
    if acts != [] {
      Raised(acts[1..], After(LatchWrites(acts[0]), now));
      assert acts == [acts[0]] + acts[1..];
    }
  }

  // ----- being asked to stop -----

  predicate Ended(s: State) {
    s.main == Done && Stopped(s)
  }

  lemma StepEnded(s: State, a: Action)
    requires Enabled(s, a) && (Ended(s) || a == InLoop(AfterCommand(true)))
    ensures Ended(Do(s, a))
  {
    if a.InLoop? {
      StopTaken(s, a.l);
    } else if a.InWait? || a.AtEnd? {
      MainOutside(s, a);
    } else if a.OnWorker? {
      WorkerOutside(s, a.k);
    } else {
      HandlerOutside(s, a);
    }
    hide Do, Enabled;
  }

  lemma StopTaken(s: State, a: LoopAction)
    requires LoopEnabled(s, a) && (Ended(s) || a == AfterCommand(true))
    ensures Ended(DoLoop(s, a))
  {
    if a == AfterCommand(true) {
      var after := DoLoop(s, a).hist.loop.after;
      assert after[|after| - 1];
    }
  }

  /** Once the caller has been asked to skip the remaining commands, it has stopped for good. */
  lemma {:induction false} SkippingEnds(s: State, acts: seq<Action>)
    requires IsRun(s, acts) && (Ended(s) || InLoop(AfterCommand(true)) in acts)
    ensures Ended(End(s, acts))
    decreases |acts|
  {
    hide Enabled, Do, Ended;
    if acts != [] {
      if Ended(s) || acts[0] == InLoop(AfterCommand(true)) { StepEnded(s, acts[0]); }
      assert acts == [acts[0]] + acts[1..];
      SkippingEnds(Do(s, acts[0]), acts[1..]);
    }
  }

  // ----- two runs without a disturbance -----

  /** No signal handler, no timeout, and no wake-up without a signal. */
  predicate Calm(a: Action) {
    !a.OnInt? && !a.OnTstp? && !a.OnAlrm? && !(a.InWait? && a.w.Wake? && (a.w.timeout || a.w.spurious))
  }

  ghost predicate CalmlyTo(s: State) {
    exists acts :: IsRun(INITIAL, acts) && End(INITIAL, acts) == s && forall a :: a in acts ==> Calm(a)
  }

  lemma Onto(s: State, a: Action) returns (t: State)
    requires CalmlyTo(s) && Enabled(s, a) && Calm(a)
    ensures t == Do(s, a) && CalmlyTo(t)
  {
    hide Enabled, Do;
    t := Do(s, a);
    var acts :| IsRun(INITIAL, acts) && End(INITIAL, acts) == s && forall a :: a in acts ==> Calm(a);
    RunExtends(INITIAL, acts, a);
    assert forall b :: b in acts + [a] ==> Calm(b);
  }

  lemma FromStart()
    ensures CalmlyTo(INITIAL)
  {
    assert IsRun(INITIAL, []) && End(INITIAL, []) == INITIAL;
  }

  /** The worker from its start to the end of a successful command. */
  lemma Works(s: State) returns (t: State)
    requires CalmlyTo(s) && s.worker == Starting && s.sync.waitMutex == Nobody && s.sync.cleanupMutex == Nobody
    ensures CalmlyTo(t)
    ensures t.main == s.main && t.loc == s.loc && t.flags == s.flags && t.hist.log == s.hist.log && t.worker == Dead
    ensures t.hist.cur == s.hist.cur.(outcome := RanOk) && t.handlers == s.handlers
    ensures t.sync == s.sync.(signalled := s.sync.signalled || s.main == Waiting)
  {
    t := WorksFirst(s);
    t := WorksLast(t);
  }

  lemma WorksFirst(s: State) returns (t: State)
    requires CalmlyTo(s) && s.worker == Starting && s.sync.waitMutex == Nobody && s.sync.cleanupMutex == Nobody
    ensures CalmlyTo(t)
    ensures t == s.(worker := LockWait, sync := s.sync.(cleanupMutex := Worker),
                    hist := s.hist.(cur := s.hist.cur.(outcome := RanOk)))
  {
    hide CalmlyTo;
    t := Onto(s, OnWorker(SetupStep));
    t := Onto(t, OnWorker(SetupStep));
    t := Onto(t, OnWorker(PushCleanup));
    t := Onto(t, OnWorker(LockCleanupMutex));
    t := Onto(t, OnWorker(CommandEnds(true)));
  }

  lemma WorksLast(s: State) returns (t: State)
    requires CalmlyTo(s) && s.worker == LockWait && s.sync.waitMutex == Nobody
    ensures CalmlyTo(t)
    ensures t.main == s.main && t.loc == s.loc && t.flags == s.flags && t.hist.log == s.hist.log && t.worker == Dead
    ensures t.hist.cur == s.hist.cur && t.handlers == s.handlers
    ensures t.sync == s.sync.(signalled := s.sync.signalled || s.main == Waiting, cleanupMutex := Nobody)
  {
    hide CalmlyTo;
    t := Onto(s, OnWorker(WorkerLock));
    t := Onto(t, OnWorker(WorkerSignal));
    t := Onto(t, OnWorker(WorkerUnlock));
    t := Onto(t, OnWorker(PopCleanup));
    t := Onto(t, OnWorker(ReleaseCleanup));
    t := Onto(t, OnWorker(WorkerExit));
  }

  /** The signal of a worker wakes main, and the command is reported as a success: no timeout, no
      spurious wake-up and no signal handler is needed. */
  lemma {:induction false} PromptSuccess()
    ensures exists s ::
      CalmlyTo(s) && s.hist.log == [Report(true, Current(true, false, RanOk), Locals(false, true, false))]
  {
    hide CalmlyTo;
    FromStart();
    var s := Onto(INITIAL, InLoop(Begin));
    s := Onto(s, InWait(CreateOk));
    s := Onto(s, InWait(LockForWait));
    s := Works(s);
    s := Finishes(s);
  }

  lemma Finishes(s: State) returns (t: State)
    requires CalmlyTo(s) && s.main == Waiting && s.worker == Dead && s.sync.signalled && s.sync.waitMutex == Nobody
    requires s.loc == Locals(false, true, false) && s.flags == INITIAL.flags
    requires s.hist.cur == Current(true, false, RanOk) && s.hist.log == []
    ensures CalmlyTo(t) && t.hist.log == [Report(true, Current(true, false, RanOk), Locals(false, true, false))]
  {
    t := WakesUp(s);
    t := Reports(t);
  }

  lemma WakesUp(s: State) returns (t: State)
    requires CalmlyTo(s) && s.main == Waiting && s.sync.signalled && s.sync.waitMutex == Nobody
    requires s.loc == Locals(false, true, false) && s.flags == INITIAL.flags
    ensures CalmlyTo(t) && t == s.(main := Branch, sync := s.sync.(signalled := false))
  {
    hide CalmlyTo;
    t := Onto(s, InWait(Wake(false, false)));
    t := Onto(t, InWait(Relock));
    t := Onto(t, InWait(UnlockAfterWait));
    t := Onto(t, InWait(TestAlarm));
  }

  lemma Reports(s: State) returns (t: State)
    requires CalmlyTo(s) && s.main == Branch && s.worker == Dead
    requires s.loc == Locals(false, true, false) && s.flags == INITIAL.flags
    requires s.hist.cur == Current(true, false, RanOk) && s.hist.log == []
    ensures CalmlyTo(t) && t.hist.log == [Report(true, Current(true, false, RanOk), Locals(false, true, false))]
  {
    hide CalmlyTo;
    t := Onto(s, AtEnd(TakeBranch));
    t := Onto(t, AtEnd(Join));
    t := Onto(t, AtEnd(TestFailed));
    t := Onto(t, AtEnd(TestLatch));
    t := Onto(t, InLoop(Return));
  }

  /** A command that ends before main waits has signalled in vain: main then waits for the timeout, or for
      a chance, although nothing is left to wait for. */
  lemma {:induction false} LostWakeUp()
    ensures exists s :: CalmlyTo(s) && Lost(s)
  {
    hide CalmlyTo;
    FromStart();
    var s := Onto(INITIAL, InLoop(Begin));
    s := Onto(s, InWait(CreateOk));
    s := Works(s);
    s := Onto(s, InWait(LockForWait));
    assert Lost(s);
  }

  /** Main waits for a worker that is gone, and no handler is about to signal. */
  predicate Lost(s: State) {
    && s.main == Waiting && !s.sync.signalled && s.worker == Dead && s.hist.cur.outcome == RanOk
    && s.handlers == INITIAL.handlers && !s.sync.armed
  }
}
