/** The command-runner protocol: a main thread that runs commands one after another, each on
    its own worker thread, while SIGINT, SIGTSTP and SIGALRM handlers race with both.

    One step of the relation is one access to shared state.  The wait on the condition
    variable may end by a signal, by the timeout, or spuriously; a requested cancellation may
    strike at any point once the worker has made itself asynchronously cancellable; any number
    of handlers of one kind may be in progress at once, so they are counted by program point. */
module RunnerProtocol {

  datatype MainPc =
    | Idle | Creating | Locking | Waiting | Relocking | Unlocking
    | ReadAlarm | Disarm | Keep | ClearAlarm | Branch
    | Cancel | LockCleanup | UnlockCleanup | MarkFailed
    | Joining | ReadFailed | ReadLatch | Returning(ok: bool) | CheckAfter | Done

  datatype WorkerPc =
    | NoWorker | Starting | CancelEnabled | Asynchronous | Pushed | Running | Failing
    | LockWait | Signalling | UnlockWait | Popping | Releasing | Exiting
    | InCleanup | Dead

  datatype Holder = Nobody | Main | Worker | Handler

  datatype Outcome = NotRun | SetupFailed | RanOk | RanFailed

  /** SIGINT handlers about to set the latch, to test the alarm flag, to set it, to arm the alarm. */
  datatype IntAt = IntAt(latch: nat, test: nat, flag: nat, arm: nat)

  /** SIGTSTP handlers about to set the latch, to lock, to signal, to unlock. */
  datatype TstpAt = TstpAt(latch: nat, lock: nat, signal: nat, unlock: nat)

  /** SIGALRM handlers about to lock, to signal, to unlock, to clear the alarm flag. */
  datatype AlrmAt = AlrmAt(lock: nat, signal: nat, unlock: nat, clear: nat)

  /** The locals of the runner: how the wait ended, whether it may still cancel the worker,
      and what it last read in the latch. */
  datatype Locals = Locals(timedOut: bool, mayCancel: bool, latchSeen: bool)

  /** What has happened to the current command.  No step depends on this or on what follows. */
  datatype Current = Current(created: bool, cancelled: bool, outcome: Outcome)

  datatype Threads = Threads(created: nat, joined: nat, alive: nat)

  /** How often the latch has risen, how many commands began after that, how often the alarm
      was armed, and whether two SIGINT handlers were ever about to set the latch. */
  datatype Latch = Latch(rises: nat, begunAfter: nat, alarms: nat, overlap: bool)

  /** What became of one command, and what the runner told its caller. */
  datatype Report = Report(ok: bool, cur: Current, loc: Locals)

  datatype Flags = Flags(interrupt: bool, alarm: bool, failed: bool)

  /** Who holds the two mutexes, whether a signal waits for the main thread, whether the alarm
      is armed, and whether a cancellation of the worker has been requested. */
  datatype Sync = Sync(waitMutex: Holder, cleanupMutex: Holder, signalled: bool, armed: bool, cancelPending: bool)

  datatype Handlers = Handlers(ints: IntAt, tstps: TstpAt, alrms: AlrmAt)

  /** Whether the caller stopped after each of its commands, and whether it stopped before one. */
  datatype Loop = Loop(after: seq<bool>, before: bool)

  datatype History = History(cur: Current, threads: Threads, latch: Latch, log: seq<Report>, loop: Loop)

  datatype State = State(
    main: MainPc, worker: WorkerPc, flags: Flags, loc: Locals, sync: Sync, handlers: Handlers, hist: History)

  const INITIAL := State(
    Idle, NoWorker, Flags(false, false, false), Locals(false, true, false),
    Sync(Nobody, Nobody, false, false, false),
    Handlers(IntAt(0, 0, 0, 0), TstpAt(0, 0, 0, 0), AlrmAt(0, 0, 0, 0)),
    History(Current(false, false, NotRun), Threads(0, 0, 0), Latch(0, 0, 0, false), [], Loop([], false)))

  /** The caller's loop over the commands. */
  datatype LoopAction = Begin | StopBefore | Finish | Return | AfterCommand(skip: bool)

  /** The runner up to the end of its wait. */
  datatype WaitAction =
    | CreateOk | CreateFails | LockForWait | Wake(timeout: bool, spurious: bool) | Relock | UnlockAfterWait
    | TestAlarm | DisarmAlarm | KeepWorker | ResetAlarmFlag

  /** The runner from there on. */
  datatype EndAction =
    | TakeBranch | RequestCancel | AwaitCleanup | LeaveCleanup | MarkTimedOut | Join | TestFailed | TestLatch

  datatype WorkerAction =
    | SetupFails | SetupStep | PushCleanup | LockCleanupMutex | CommandEnds(success: bool) | FlagFailure
    | WorkerLock | WorkerSignal | WorkerUnlock | PopCleanup | ReleaseCleanup | WorkerExit
    | CancelStrikes | RunCleanup

  /** The handlers: the delivery of the signal, then one access to shared state at a time. */
  datatype IntAction = SigInt | IntLatch | IntTest | IntFlag | IntArm

  datatype TstpAction = SigTstp | TstpLatch | TstpLock | TstpSignal | TstpUnlock

  datatype AlrmAction = SigAlrm | AlrmLock | AlrmSignal | AlrmUnlock | AlrmClear

  datatype Action =
    | InLoop(l: LoopAction) | InWait(w: WaitAction) | AtEnd(e: EndAction)
    | OnWorker(k: WorkerAction) | OnInt(i: IntAction) | OnTstp(z: TstpAction) | OnAlrm(x: AlrmAction)

  /** The points at which a requested cancellation may strike. */
  predicate Cancellable(w: WorkerPc) {
    HasCleanup(w) || w.Asynchronous? || w.Releasing? || w.Exiting?
  }

  /** The points at which the cleanup handler is registered. */
  predicate HasCleanup(w: WorkerPc) {
    w.Pushed? || w.Running? || w.Failing? || w.LockWait? || w.Signalling? || w.UnlockWait? || w.Popping?
  }

  predicate LoopEnabled(s: State, a: LoopAction) {
    match a
    case Begin => s.main == Idle
    case StopBefore => s.main == Idle && s.flags.interrupt
    case Finish => s.main == Idle
    case AfterCommand(_) => s.main == CheckAfter
    case Return => s.main.Returning?
  }

  predicate WaitEnabled(s: State, a: WaitAction) {
    match a
    case CreateOk => s.main == Creating
    case CreateFails => s.main == Creating
    case LockForWait => s.main == Locking && s.sync.waitMutex == Nobody
    case Wake(_, spurious) => s.main == Waiting && (a.timeout || spurious || s.sync.signalled)
    case Relock => s.main == Relocking && s.sync.waitMutex == Nobody
    case UnlockAfterWait => s.main == Unlocking
    case TestAlarm => s.main == ReadAlarm
    case DisarmAlarm => s.main == Disarm
    case KeepWorker => s.main == Keep
    case ResetAlarmFlag => s.main == ClearAlarm
  }

  predicate EndEnabled(s: State, a: EndAction) {
    match a
    case TakeBranch => s.main == Branch
    case RequestCancel => s.main == Cancel
    case AwaitCleanup => s.main == LockCleanup && s.sync.cleanupMutex == Nobody
    case LeaveCleanup => s.main == UnlockCleanup
    case MarkTimedOut => s.main == MarkFailed
    case Join => s.main == Joining && s.worker == Dead
    case TestFailed => s.main == ReadFailed
    case TestLatch => s.main == ReadLatch
  }

  predicate WorkerEnabled(s: State, a: WorkerAction) {
    match a
    case SetupFails => s.worker == Starting || s.worker == CancelEnabled
    case SetupStep => s.worker == Starting || s.worker == CancelEnabled
    case PushCleanup => s.worker == Asynchronous
    case LockCleanupMutex => s.worker == Pushed && s.sync.cleanupMutex == Nobody
    case CommandEnds(_) => s.worker == Running
    case FlagFailure => s.worker == Failing
    case WorkerLock => s.worker == LockWait && s.sync.waitMutex == Nobody
    case WorkerSignal => s.worker == Signalling
    case WorkerUnlock => s.worker == UnlockWait
    case PopCleanup => s.worker == Popping
    case ReleaseCleanup => s.worker == Releasing
    case WorkerExit => s.worker == Exiting
    case CancelStrikes => s.sync.cancelPending && Cancellable(s.worker)
    case RunCleanup => s.worker == InCleanup
  }

  predicate IntEnabled(s: State, a: IntAction) {
    match a
    case SigInt => s.main != Done
    case IntLatch => s.handlers.ints.latch > 0
    case IntTest => s.handlers.ints.test > 0
    case IntFlag => s.handlers.ints.flag > 0
    case IntArm => s.handlers.ints.arm > 0
  }

  predicate TstpEnabled(s: State, a: TstpAction) {
    match a
    case SigTstp => s.main != Done
    case TstpLatch => s.handlers.tstps.latch > 0
    case TstpLock => s.handlers.tstps.lock > 0 && s.sync.waitMutex == Nobody
    case TstpSignal => s.handlers.tstps.signal > 0
    case TstpUnlock => s.handlers.tstps.unlock > 0
  }

  predicate AlrmEnabled(s: State, a: AlrmAction) {
    match a
    case SigAlrm => s.sync.armed
    case AlrmLock => s.handlers.alrms.lock > 0 && s.sync.waitMutex == Nobody
    case AlrmSignal => s.handlers.alrms.signal > 0
    case AlrmUnlock => s.handlers.alrms.unlock > 0
    case AlrmClear => s.handlers.alrms.clear > 0
  }

  /** A signal on the condition variable reaches the main thread only while it waits. */
  function Signal(s: State): State {
    if s.main == Waiting then s.(sync := s.sync.(signalled := true)) else s
  }

  function SetLatch(s: State, handlers: Handlers): State {
    s.(flags := s.flags.(interrupt := true), handlers := handlers,
       hist := s.hist.(latch := s.hist.latch.(rises := s.hist.latch.rises + (if s.flags.interrupt then 0 else 1))))
  }

  function Die(s: State, cur: Current): State {
    var t := s.hist.threads;
    s.(worker := Dead, hist := s.hist.(cur := cur, threads := t.(alive := if t.alive > 0 then t.alive - 1 else 0)))
  }

  function DoLoop(s: State, a: LoopAction): State
    requires LoopEnabled(s, a)
  {
    var h := s.hist;
    match a
    case Begin => s.(main := Creating, flags := s.flags.(failed := false), loc := Locals(false, true, false),
        hist := h.(cur := Current(false, false, NotRun),
                   latch := h.latch.(begunAfter := h.latch.begunAfter + (if s.flags.interrupt then 1 else 0))))
    case StopBefore => s.(main := Done, hist := h.(loop := h.loop.(before := true)))
    case Finish => s.(main := Done)
    case AfterCommand(skip) =>
        var stop := s.flags.interrupt || skip;
        s.(main := if stop then Done else Idle, hist := h.(loop := h.loop.(after := h.loop.after + [stop])))
    case Return => s.(main := CheckAfter, hist := h.(log := h.log + [Report(s.main.ok, h.cur, s.loc)]))
  }

  function DoWait(s: State, a: WaitAction): State
    requires WaitEnabled(s, a)
  {
    var h := s.hist;
    match a
    case CreateOk => s.(main := Locking, worker := Starting, sync := s.sync.(cancelPending := false),
        hist := h.(cur := h.cur.(created := true),
                   threads := h.threads.(created := h.threads.created + 1, alive := h.threads.alive + 1)))
    case CreateFails => s.(main := Returning(false))
    case LockForWait => s.(main := Waiting, sync := s.sync.(signalled := false))
    case Wake(timeout, _) =>
        s.(main := Relocking, loc := s.loc.(timedOut := timeout), sync := s.sync.(signalled := false))
    case Relock => s.(main := Unlocking, sync := s.sync.(waitMutex := Main))
    case UnlockAfterWait => s.(main := ReadAlarm, sync := s.sync.(waitMutex := Nobody))
    case TestAlarm => s.(main := if s.flags.alarm then Disarm else Branch)
    case DisarmAlarm => s.(main := Keep, sync := s.sync.(armed := false))
    case KeepWorker => s.(main := ClearAlarm, loc := s.loc.(mayCancel := false))
    case ResetAlarmFlag => s.(main := Branch, flags := s.flags.(alarm := false))
  }

  function DoEnd(s: State, a: EndAction): State
    requires EndEnabled(s, a)
  {
    var h := s.hist;
    match a
    case TakeBranch =>
        s.(main := if s.loc.timedOut || (s.flags.interrupt && s.loc.mayCancel) then Cancel else Joining)
    case RequestCancel => s.(main := LockCleanup, sync := s.sync.(cancelPending := true),
        hist := h.(cur := h.cur.(cancelled := true)))
    case AwaitCleanup => s.(main := UnlockCleanup, sync := s.sync.(cleanupMutex := Main))
    case LeaveCleanup => s.(main := if s.loc.timedOut then MarkFailed else Joining,
        sync := s.sync.(cleanupMutex := Nobody))
    case MarkTimedOut => s.(main := Joining, flags := s.flags.(failed := true))
    case Join => s.(main := ReadFailed, worker := NoWorker,
        hist := h.(threads := h.threads.(joined := h.threads.joined + 1)))
    case TestFailed => s.(main := if s.flags.failed then Returning(false) else ReadLatch)
    case TestLatch => s.(main := Returning(!(s.flags.interrupt && s.loc.mayCancel)),
        loc := s.loc.(latchSeen := s.flags.interrupt))
  }

  function DoWorker(s: State, a: WorkerAction): State
    requires WorkerEnabled(s, a)
  {
    var cur := s.hist.cur;
    match a
    case SetupFails => Die(s, cur.(outcome := SetupFailed))
    case SetupStep => s.(worker := if s.worker == Starting then CancelEnabled else Asynchronous)
    case PushCleanup => s.(worker := Pushed)
    case LockCleanupMutex => s.(worker := Running, sync := s.sync.(cleanupMutex := Worker))
    case CommandEnds(success) => s.(worker := if success then LockWait else Failing,
        hist := s.hist.(cur := cur.(outcome := if success then RanOk else RanFailed)))
    case FlagFailure => s.(worker := LockWait, flags := s.flags.(failed := true))
    case WorkerLock => s.(worker := Signalling, sync := s.sync.(waitMutex := Worker))
    case WorkerSignal => Signal(s.(worker := UnlockWait))
    case WorkerUnlock => s.(worker := Popping, sync := s.sync.(waitMutex := Nobody))
    case PopCleanup => s.(worker := Releasing)
    case ReleaseCleanup => s.(worker := Exiting, sync := s.sync.(cleanupMutex := Nobody))
    case WorkerExit => Die(s, cur)
    case CancelStrikes => if HasCleanup(s.worker) then s.(worker := InCleanup) else Die(s, cur)
    case RunCleanup => Die(s.(sync := s.sync.(cleanupMutex := Nobody)), cur)
  }

  function DoInt(s: State, a: IntAction): State
    requires IntEnabled(s, a)
  {
    var h, i := s.handlers, s.handlers.ints;
    match a
    case SigInt =>
      if s.flags.interrupt then s
      else s.(handlers := h.(ints := i.(latch := i.latch + 1)),
              hist := s.hist.(latch := s.hist.latch.(overlap := s.hist.latch.overlap || i.latch > 0)))
    case IntLatch => SetLatch(s, h.(ints := i.(latch := i.latch - 1, test := i.test + 1)))
    case IntTest =>
      s.(handlers := h.(ints := i.(test := i.test - 1, flag := i.flag + (if s.flags.alarm then 0 else 1))))
    case IntFlag =>
      s.(flags := s.flags.(alarm := true), handlers := h.(ints := i.(flag := i.flag - 1, arm := i.arm + 1)))
    case IntArm =>
      s.(sync := s.sync.(armed := true), handlers := h.(ints := i.(arm := i.arm - 1)),
         hist := s.hist.(latch := s.hist.latch.(alarms := s.hist.latch.alarms + 1)))
  }

  function DoTstp(s: State, a: TstpAction): State
    requires TstpEnabled(s, a)
  {
    var h, z := s.handlers, s.handlers.tstps;
    match a
    case SigTstp => if s.flags.interrupt then s else s.(handlers := h.(tstps := z.(latch := z.latch + 1)))
    case TstpLatch => SetLatch(s, h.(tstps := z.(latch := z.latch - 1, lock := z.lock + 1)))
    case TstpLock =>
      s.(sync := s.sync.(waitMutex := Handler), handlers := h.(tstps := z.(lock := z.lock - 1, signal := z.signal + 1)))
    case TstpSignal => Signal(s.(handlers := h.(tstps := z.(signal := z.signal - 1, unlock := z.unlock + 1))))
    case TstpUnlock =>
      s.(sync := s.sync.(waitMutex := Nobody), handlers := h.(tstps := z.(unlock := z.unlock - 1)))
  }

  function DoAlrm(s: State, a: AlrmAction): State
    requires AlrmEnabled(s, a)
  {
    var h, k := s.handlers, s.handlers.alrms;
    match a
    case SigAlrm => s.(sync := s.sync.(armed := false), handlers := h.(alrms := k.(lock := k.lock + 1)))
    case AlrmLock =>
      s.(sync := s.sync.(waitMutex := Handler), handlers := h.(alrms := k.(lock := k.lock - 1, signal := k.signal + 1)))
    case AlrmSignal => Signal(s.(handlers := h.(alrms := k.(signal := k.signal - 1, unlock := k.unlock + 1))))
    case AlrmUnlock =>
      s.(sync := s.sync.(waitMutex := Nobody),
         handlers := h.(alrms := k.(unlock := k.unlock - 1, clear := k.clear + 1)))
    case AlrmClear =>
      s.(flags := s.flags.(alarm := false), handlers := h.(alrms := k.(clear := k.clear - 1)))
  }

  predicate Enabled(s: State, a: Action) {
    match a
    case InLoop(l) => LoopEnabled(s, l)
    case InWait(w) => WaitEnabled(s, w)
    case AtEnd(e) => EndEnabled(s, e)
    case OnWorker(k) => WorkerEnabled(s, k)
    case OnInt(i) => IntEnabled(s, i)
    case OnTstp(z) => TstpEnabled(s, z)
    case OnAlrm(x) => AlrmEnabled(s, x)
  }

  function Do(s: State, a: Action): State
    requires Enabled(s, a)
  {
    match a
    case InLoop(l) => DoLoop(s, l)
    case InWait(w) => DoWait(s, w)
    case AtEnd(e) => DoEnd(s, e)
    case OnWorker(k) => DoWorker(s, k)
    case OnInt(i) => DoInt(s, i)
    case OnTstp(z) => DoTstp(s, z)
    case OnAlrm(x) => DoAlrm(s, x)
  }

  /** Every interleaving: any sequence of actions, each enabled where it is taken. */
  predicate IsRun(s: State, acts: seq<Action>)
    decreases |acts|
  {
    acts == [] || (Enabled(s, acts[0]) && IsRun(Do(s, acts[0]), acts[1..]))
  }

  function End(s: State, acts: seq<Action>): State
    requires IsRun(s, acts)
    decreases |acts|
  {
    if acts == [] then s else End(Do(s, acts[0]), acts[1..])
  }

  // ----- what every step keeps -----

  /** The main thread is between commands, or has not created the worker of this one yet. */
  predicate BetweenWorkers(m: MainPc) {
    m == Idle || m == Creating || m == ReadFailed || m == ReadLatch || m.Returning? || m == CheckAfter || m == Done
  }

  predicate WorkerAlive(w: WorkerPc) {
    w != NoWorker && w != Dead
  }

  /** At most one worker, and it is joined before the next one starts. */
  predicate OneWorker(s: State) {
    && (BetweenWorkers(s.main) <==> s.worker == NoWorker)
    && s.hist.threads.alive == (if WorkerAlive(s.worker) then 1 else 0)
    && s.hist.threads.created == s.hist.threads.joined + (if BetweenWorkers(s.main) then 0 else 1)
  }

  predicate BeforeCommand(w: WorkerPc) {
    w.Starting? || w.CancelEnabled? || w.Asynchronous? || w.Pushed? || w.Running?
  }

  predicate AfterFlag(w: WorkerPc) {
    w.LockWait? || w.Signalling? || w.UnlockWait? || w.Popping? || w.Releasing? || w.Exiting?
  }

  predicate AfterJoin(m: MainPc) {
    m.ReadFailed? || m.ReadLatch?
  }

  predicate FailureFlagged(s: State) {
    s.hist.cur.outcome == RanFailed ==> s.flags.failed
  }

  /** How far the command got, by the worker's program point. */
  predicate OutcomeOk(s: State) {
    && (BeforeCommand(s.worker) ==> s.hist.cur.outcome == NotRun)
    && (s.worker.Failing? ==> s.hist.cur.outcome == RanFailed)
    && (AfterFlag(s.worker) ==> (s.hist.cur.outcome == RanOk || s.hist.cur.outcome == RanFailed) && FailureFlagged(s))
    && (!s.hist.cur.cancelled && (s.worker.Dead? || AfterJoin(s.main)) ==>
         s.hist.cur.outcome != NotRun && FailureFlagged(s))
    && (s.main.Creating? ==> s.hist.cur == Current(false, false, NotRun))
    && (!BetweenWorkers(s.main) || AfterJoin(s.main) ==> s.hist.cur.created)
  }

  /** The points of the main thread before it may ask for a cancellation. */
  predicate BeforeCancel(m: MainPc) {
    m.Creating? || m.Locking? || m.Waiting? || m.Relocking? || m.Unlocking? || m.ReadAlarm? || m.Disarm? || m.Keep?
    || m.ClearAlarm? || m.Branch? || m.Cancel?
  }

  /** The points of the main thread after it asked for a cancellation. */
  predicate AfterCancel(m: MainPc) {
    m.LockCleanup? || m.UnlockCleanup? || m.MarkFailed?
  }

  /** The latch is up and the runner has not promised to let the worker finish. */
  predicate Interrupted(s: State) {
    s.flags.interrupt && s.loc.mayCancel
  }

  /** The failure flag is raised only by the worker and by a timeout; a cancellation is
      requested only after a timeout or because of the latch, and strikes only then. */
  predicate CancelOk(s: State) {
    && (s.flags.failed ==> s.hist.cur.outcome == RanFailed || s.hist.cur.cancelled)
    && (WorkerAlive(s.worker) && (s.sync.cancelPending || s.worker.InCleanup?) ==> s.hist.cur.cancelled)
    && (s.hist.cur.cancelled ==>
         s.loc.timedOut || Interrupted(s) || (s.main.Returning? && !s.main.ok) || s.worker == NoWorker)
    && (BeforeCancel(s.main) ==> !s.hist.cur.cancelled)
    && (s.main.Cancel? ==> s.loc.timedOut || Interrupted(s))
    && (AfterCancel(s.main) ==> s.hist.cur.cancelled && (s.loc.timedOut || Interrupted(s)))
    && (s.main.MarkFailed? ==> s.loc.timedOut)
    && ((s.main.Joining? || AfterJoin(s.main)) && s.hist.cur.cancelled ==>
         Interrupted(s) || (s.loc.timedOut && s.flags.failed))
    && (s.main.ReadLatch? ==> !s.flags.failed)
  }

  /** A result says exactly what happened: the command was created, nobody asked for its
      cancellation, it did not fail, and no interrupt was seen that would have justified one. */
  predicate Sound(r: Report) {
    && (r.ok <==> r.cur.created && !r.cur.cancelled && (r.cur.outcome == RanOk || r.cur.outcome == SetupFailed)
                  && !(r.loc.latchSeen && r.loc.mayCancel))
    && (r.cur.created && !r.cur.cancelled ==> r.cur.outcome != NotRun)
  }

  predicate LogOk(s: State) {
    && (s.main.Returning? ==> Sound(Report(s.main.ok, s.hist.cur, s.loc)))
    && (s.main.Creating? || !BetweenWorkers(s.main) || AfterJoin(s.main) ==> !s.loc.latchSeen)
    && (forall r :: r in s.hist.log ==> Sound(r))
  }

  predicate LatchOk(s: State) {
    && s.hist.latch.rises == (if s.flags.interrupt then 1 else 0)
    && s.hist.latch.begunAfter <= (if s.flags.interrupt && s.main != Idle then 1 else 0)
    && (s.flags.alarm ==> s.flags.interrupt)
    && (s.handlers.ints.test + s.handlers.ints.flag + s.handlers.ints.arm + s.hist.latch.alarms > 0 ==>
         s.flags.interrupt)
    && (!s.hist.latch.overlap ==>
      s.handlers.ints.latch + s.handlers.ints.test + s.handlers.ints.flag + s.handlers.ints.arm +
        s.hist.latch.alarms <= 1)
  }

  predicate Inv(s: State) {
    OneWorker(s) && OutcomeOk(s) && CancelOk(s) && LogOk(s) && LatchOk(s)
  }

  lemma LoopKeeps(s: State, a: LoopAction)
    requires Inv(s) && LoopEnabled(s, a)
    ensures Inv(DoLoop(s, a))
  {
  }

  lemma WaitLatch(s: State, a: WaitAction)
    requires LatchOk(s) && WaitEnabled(s, a)
    ensures LatchOk(DoWait(s, a))
  {
  }

  lemma WaitOutcome(s: State, a: WaitAction)
    requires OneWorker(s) && OutcomeOk(s) && WaitEnabled(s, a)
    ensures OneWorker(DoWait(s, a)) && OutcomeOk(DoWait(s, a))
  {
  }

  lemma WaitCancel(s: State, a: WaitAction)
    requires OneWorker(s) && OutcomeOk(s) && CancelOk(s) && WaitEnabled(s, a)
    ensures CancelOk(DoWait(s, a))
  {
  }

  lemma WaitVerdict(s: State, a: WaitAction)
    requires OneWorker(s) && OutcomeOk(s) && LogOk(s) && WaitEnabled(s, a)
    ensures LogOk(DoWait(s, a))
  {
  }

  lemma WaitKeeps(s: State, a: WaitAction)
    requires Inv(s) && WaitEnabled(s, a)
    ensures Inv(DoWait(s, a))
  {
    WaitLatch(s, a);
    WaitOutcome(s, a);
    WaitCancel(s, a);
    WaitVerdict(s, a);
    hide DoWait, OneWorker, OutcomeOk, CancelOk, LogOk, LatchOk;
  }

  lemma EndCounts(s: State, a: EndAction)
    requires OneWorker(s) && LatchOk(s) && EndEnabled(s, a)
    ensures OneWorker(DoEnd(s, a)) && LatchOk(DoEnd(s, a))
  {
  }

  lemma EndOutcome(s: State, a: EndAction)
    requires OneWorker(s) && OutcomeOk(s) && EndEnabled(s, a)
    ensures OutcomeOk(DoEnd(s, a))
  {
  }

  lemma EndCancel(s: State, a: EndAction)
    requires OneWorker(s) && CancelOk(s) && EndEnabled(s, a)
    ensures CancelOk(DoEnd(s, a))
  {
    match a
    case TakeBranch =>
    case RequestCancel =>
    case AwaitCleanup =>
    case LeaveCleanup =>
    case MarkTimedOut =>
    case Join =>
    case TestFailed =>
    case TestLatch =>
  }

  lemma EndVerdict(s: State, a: EndAction)
    requires OneWorker(s) && OutcomeOk(s) && CancelOk(s) && LogOk(s) && EndEnabled(s, a)
    ensures LogOk(DoEnd(s, a))
  {
  }

  lemma EndKeeps(s: State, a: EndAction)
    requires Inv(s) && EndEnabled(s, a)
    ensures Inv(DoEnd(s, a))
  {
    EndCounts(s, a);
    EndOutcome(s, a);
    EndCancel(s, a);
    EndVerdict(s, a);
    hide DoEnd, OneWorker, OutcomeOk, CancelOk, LogOk, LatchOk;
  }

  /** What the worker leaves alone. */
  lemma WorkerFrame(s: State, a: WorkerAction)
    requires WorkerEnabled(s, a)
    ensures var t := DoWorker(s, a);
      && t.main == s.main && t.flags.interrupt == s.flags.interrupt && t.loc == s.loc
      && t.sync.cancelPending == s.sync.cancelPending
      && t.handlers.ints == s.handlers.ints && t.hist.latch == s.hist.latch && t.hist.log == s.hist.log
  {
    match a
    case CommandEnds(_) =>
    case _ =>
  }

  lemma WorkerThreads(s: State, a: WorkerAction)
    requires WorkerEnabled(s, a) && OneWorker(s)
    ensures var t := DoWorker(s, a);
      && s.worker != NoWorker && t.worker != NoWorker
      && t.hist.cur.created == s.hist.cur.created && t.hist.cur.cancelled == s.hist.cur.cancelled
      && t.hist.threads.created == s.hist.threads.created && t.hist.threads.joined == s.hist.threads.joined
      && t.hist.threads.alive == (if WorkerAlive(t.worker) then 1 else 0)
  {
    match a
    case CommandEnds(_) =>
    case _ =>
  }

  /** What the worker does to itself. */
  lemma WorkerOutcome(s: State, a: WorkerAction)
    requires WorkerEnabled(s, a) && OutcomeOk(s)
    ensures var t := DoWorker(s, a);
      && (BeforeCommand(t.worker) ==> t.hist.cur.outcome == NotRun)
      && (t.worker.Failing? ==> t.hist.cur.outcome == RanFailed)
      && (AfterFlag(t.worker) ==> (t.hist.cur.outcome == RanOk || t.hist.cur.outcome == RanFailed) && FailureFlagged(t))
  {
    match a
    case SetupFails =>
    case SetupStep =>
    case PushCleanup =>
    case LockCleanupMutex =>
    case CommandEnds(_) =>
    case FlagFailure =>
    case WorkerLock =>
    case WorkerSignal =>
    case WorkerUnlock =>
    case PopCleanup =>
    case ReleaseCleanup =>
    case WorkerExit =>
    case CancelStrikes =>
    case RunCleanup =>
  }

  lemma WorkerCancel(s: State, a: WorkerAction)
    requires WorkerEnabled(s, a) && OutcomeOk(s) && CancelOk(s)
    ensures var t := DoWorker(s, a);
      && (!t.hist.cur.cancelled && t.worker.Dead? ==> t.hist.cur.outcome != NotRun && FailureFlagged(t))
      && (t.worker.InCleanup? ==> t.hist.cur.cancelled)
      && (t.flags.failed ==> t.hist.cur.outcome == RanFailed || t.hist.cur.cancelled)
      && (s.flags.failed ==> t.flags.failed)
  {
    match a
    case CommandEnds(_) =>
    case _ =>
  }

  lemma WorkerKeeps(s: State, a: WorkerAction)
    requires Inv(s) && WorkerEnabled(s, a)
    ensures Inv(DoWorker(s, a))
  {
    WorkerFrame(s, a);
    WorkerThreads(s, a);
    WorkerOutcome(s, a);
    WorkerCancel(s, a);
    hide DoWorker, WorkerEnabled;
  }

  /** What the handlers leave alone. */
  predicate Untouched(s: State, t: State) {
    && t.main == s.main && t.worker == s.worker && t.flags.failed == s.flags.failed && t.loc == s.loc
    && t.sync.cancelPending == s.sync.cancelPending
    && t.hist.cur == s.hist.cur && t.hist.threads == s.hist.threads && t.hist.log == s.hist.log
    && (s.flags.interrupt ==> t.flags.interrupt)
  }

  lemma UntouchedKeeps(s: State, t: State)
    requires Inv(s) && Untouched(s, t) && LatchOk(t)
    ensures Inv(t)
  {
  }

  lemma IntKeeps(s: State, a: IntAction)
    requires Inv(s) && IntEnabled(s, a)
    ensures Inv(DoInt(s, a))
  {
    hide OneWorker, OutcomeOk, CancelOk, LogOk;
    assert Untouched(s, DoInt(s, a)) && LatchOk(DoInt(s, a));
    UntouchedKeeps(s, DoInt(s, a));
  }

  lemma TstpKeeps(s: State, a: TstpAction)
    requires Inv(s) && TstpEnabled(s, a)
    ensures Inv(DoTstp(s, a))
  {
    hide OneWorker, OutcomeOk, CancelOk, LogOk;
    assert Untouched(s, DoTstp(s, a)) && LatchOk(DoTstp(s, a));
    UntouchedKeeps(s, DoTstp(s, a));
  }

  lemma AlrmKeeps(s: State, a: AlrmAction)
    requires Inv(s) && AlrmEnabled(s, a)
    ensures Inv(DoAlrm(s, a))
  {
    hide OneWorker, OutcomeOk, CancelOk, LogOk;
    assert Untouched(s, DoAlrm(s, a)) && LatchOk(DoAlrm(s, a));
    UntouchedKeeps(s, DoAlrm(s, a));
  }

  lemma {:induction false} StepKeeps(s: State, a: Action)
    requires Inv(s) && Enabled(s, a)
    ensures Inv(Do(s, a))
  {
    hide Inv, LoopEnabled, WaitEnabled, EndEnabled, WorkerEnabled, IntEnabled, TstpEnabled, AlrmEnabled;
    hide DoLoop, DoWait, DoEnd, DoWorker, DoInt, DoTstp, DoAlrm;
    match a
    case InLoop(l) => LoopKeeps(s, l);
    case InWait(w) => WaitKeeps(s, w);
    case AtEnd(e) => EndKeeps(s, e);
    case OnWorker(k) => WorkerKeeps(s, k);
    case OnInt(i) => IntKeeps(s, i);
    case OnTstp(z) => TstpKeeps(s, z);
    case OnAlrm(x) => AlrmKeeps(s, x);
  }

  lemma {:induction false} RunKeeps(s: State, acts: seq<Action>)
    requires Inv(s) && IsRun(s, acts)
    ensures Inv(End(s, acts))
    decreases |acts|
  {
    hide Inv, Enabled, Do;
    if acts != [] {
      StepKeeps(s, acts[0]);
      RunKeeps(Do(s, acts[0]), acts[1..]);
    }
  }

  /** Some interleaving leads from one state to the other. */
  ghost predicate Leads(s: State, t: State) {
    exists acts :: IsRun(s, acts) && End(s, acts) == t
  }

  /** The states some interleaving can reach. */
  ghost predicate Reachable(s: State) {
    Leads(INITIAL, s)
  }

  lemma {:induction false} ReachableInv(s: State)
    requires Reachable(s)
    ensures Inv(s)
  {
    assert Inv(INITIAL);
    var acts :| IsRun(INITIAL, acts) && End(INITIAL, acts) == s;
    RunKeeps(INITIAL, acts);
  }

  // ----- what this means for the caller -----

  /** In every interleaving, a command is reported to have succeeded exactly when its thread was
      created, nobody ever asked for its cancellation, it ended well (or its thread gave up
      before the command, which goes unnoticed), and no interrupt was seen that would have
      entitled the runner to cancel it. */
  lemma {:induction false} SuccessExactly(s: State, r: Report)
    requires Reachable(s) && r in s.hist.log
    ensures r.ok <==> r.cur.created && !r.cur.cancelled && (r.cur.outcome == RanOk || r.cur.outcome == SetupFailed)
                      && !(r.loc.latchSeen && r.loc.mayCancel)
    ensures r.cur.created && !r.cur.cancelled ==> r.cur.outcome != NotRun
  {
    ReachableInv(s);
  }

  /** No report and no current command with a failed set-up. */
  predicate NoSetupFailure(s: State) {
    s.hist.cur.outcome != SetupFailed && forall r :: r in s.hist.log ==> r.cur.outcome != SetupFailed
  }

  lemma MainSetsUp(s: State, a: Action)
    requires NoSetupFailure(s) && Enabled(s, a) && (a.InLoop? || a.InWait? || a.AtEnd?)
    ensures NoSetupFailure(Do(s, a))
  {
    hide DoWorker, DoInt, DoTstp, DoAlrm, WorkerEnabled, IntEnabled, TstpEnabled, AlrmEnabled;
  }

  lemma WorkerSetsUp(s: State, a: WorkerAction)
    requires NoSetupFailure(s) && WorkerEnabled(s, a) && a != SetupFails
    ensures NoSetupFailure(DoWorker(s, a))
  {
    hide WorkerEnabled;
  }

  lemma HandlerSetsUp(s: State, a: Action)
    requires NoSetupFailure(s) && Enabled(s, a) && (a.OnInt? || a.OnTstp? || a.OnAlrm?)
    ensures NoSetupFailure(Do(s, a))
  {
    hide DoLoop, DoWait, DoEnd, DoWorker, LoopEnabled, WaitEnabled, EndEnabled, WorkerEnabled;
  }

  lemma StepSetsUp(s: State, a: Action)
    requires NoSetupFailure(s) && Enabled(s, a) && a != OnWorker(SetupFails)
    ensures NoSetupFailure(Do(s, a))
  {
    hide NoSetupFailure, DoLoop, DoWait, DoEnd, DoWorker, DoInt, DoTstp, DoAlrm;
    hide LoopEnabled, WaitEnabled, EndEnabled, WorkerEnabled, IntEnabled, TstpEnabled, AlrmEnabled;
    if a.OnWorker? {
      WorkerSetsUp(s, a.k);
    } else if a.InLoop? || a.InWait? || a.AtEnd? {
      MainSetsUp(s, a);
    } else {
      HandlerSetsUp(s, a);
    }
  }

  lemma {:induction false} RunSetsUp(s: State, acts: seq<Action>)
    requires NoSetupFailure(s) && IsRun(s, acts) && OnWorker(SetupFails) !in acts
    ensures NoSetupFailure(End(s, acts))
    decreases |acts|
  {
    hide Enabled, Do;
    if acts != [] {
      StepSetsUp(s, acts[0]);
      RunSetsUp(Do(s, acts[0]), acts[1..]);
    }
  }

  /** As long as threads manage to set their cancellation state, success means that the command
      was never cancelled and ran to a successful end. */
  lemma {:induction false} SuccessMeansRanOk(acts: seq<Action>, r: Report)
    requires IsRun(INITIAL, acts) && OnWorker(SetupFails) !in acts && r in End(INITIAL, acts).hist.log
    ensures r.ok ==> !r.cur.cancelled && r.cur.outcome == RanOk
  {
    RunSetsUp(INITIAL, acts);
    SuccessExactly(End(INITIAL, acts), r);
  }

  /** At most one worker is alive at any time, each is joined before the next is created, the
      latch rises at most once, and at most one more command begins after it has risen.  The
      alarm is armed at most once, too, unless two SIGINT handlers pass the test of the latch
      before either has set it. */
  lemma {:induction false} WholeRun(s: State)
    requires Reachable(s)
    ensures s.hist.threads.alive <= 1
    ensures s.hist.threads.joined <= s.hist.threads.created <= s.hist.threads.joined + 1
    ensures s.main == Creating ==> s.hist.threads.created == s.hist.threads.joined && s.hist.threads.alive == 0
    ensures s.hist.latch.rises <= 1 && s.hist.latch.begunAfter <= 1
    ensures !s.hist.latch.overlap ==> s.hist.latch.alarms <= 1
  {
    ReachableInv(s);
  }

  // ----- where the caller's loop stops -----

  /** The loop has looked at the latch after each command it got a result for; it went on after all of
      them, or it has stopped after the last one or before one more. */
  predicate LoopOk(s: State) {
    var after, before := s.hist.loop.after, s.hist.loop.before;
    && |s.hist.log| == |after| + (if s.main == CheckAfter then 1 else 0)
    && (forall n :: 0 <= n < |after| - 1 ==> !after[n])
    && (s.main != Done || before ==> forall n :: 0 <= n < |after| ==> !after[n])
    && (s.main != Done ==> !before)
  }

  predicate Stopped(s: State) {
    s.hist.loop.before || exists n :: 0 <= n < |s.hist.loop.after| && s.hist.loop.after[n]
  }

  /** What all steps but those of the loop leave alone. */
  predicate OutsideLoop(s: State, t: State) {
    && t.hist.log == s.hist.log && t.hist.loop == s.hist.loop
    && (t.main == Done <==> s.main == Done) && (t.main == CheckAfter <==> s.main == CheckAfter)
    && (s.flags.interrupt ==> t.flags.interrupt)
  }

  lemma MainOutside(s: State, a: Action)
    requires Enabled(s, a) && (a.InWait? || a.AtEnd?)
    ensures OutsideLoop(s, Do(s, a))
  {
    hide DoLoop, DoWorker, DoInt, DoTstp, DoAlrm;
  }

  lemma WorkerOutside(s: State, a: WorkerAction)
    requires WorkerEnabled(s, a)
    ensures OutsideLoop(s, DoWorker(s, a))
  {
    WorkerFrame(s, a);
    WorkerLoop(s, a);
    hide DoWorker;
  }

  lemma WorkerLoop(s: State, a: WorkerAction)
    requires WorkerEnabled(s, a)
    ensures DoWorker(s, a).hist.loop == s.hist.loop
  {
    match a
    case CommandEnds(_) =>
    case _ =>
  }

  lemma HandlerOutside(s: State, a: Action)
    requires Enabled(s, a) && (a.OnInt? || a.OnTstp? || a.OnAlrm?)
    ensures OutsideLoop(s, Do(s, a))
  {
    hide DoLoop, DoWait, DoEnd, DoWorker;
  }

  lemma StepInLoop(s: State, a: Action)
    requires Enabled(s, a) && LoopOk(s)
    ensures LoopOk(Do(s, a))
    ensures a != InLoop(AfterCommand(true)) && (Stopped(s) ==> s.flags.interrupt) ==>
      (Stopped(Do(s, a)) ==> Do(s, a).flags.interrupt)
  {
    if a.InLoop? {
      LoopInLoop(s, a.l);
    } else if a.InWait? || a.AtEnd? {
      MainOutside(s, a);
    } else if a.OnWorker? {
      WorkerOutside(s, a.k);
    } else {
      HandlerOutside(s, a);
    }
    hide Do, Enabled, Stopped;
  }

  lemma LoopInLoop(s: State, a: LoopAction)
    requires LoopEnabled(s, a) && LoopOk(s)
    ensures LoopOk(DoLoop(s, a))
    ensures a != AfterCommand(true) && (Stopped(s) ==> s.flags.interrupt) ==>
      (Stopped(DoLoop(s, a)) ==> DoLoop(s, a).flags.interrupt)
  {
  }

  lemma {:induction false} RunInLoop(s: State, acts: seq<Action>)
    requires IsRun(s, acts) && LoopOk(s)
    ensures LoopOk(End(s, acts))
    ensures InLoop(AfterCommand(true)) !in acts && (Stopped(s) ==> s.flags.interrupt) ==>
      (Stopped(End(s, acts)) ==> End(s, acts).flags.interrupt)
    decreases |acts|
  {
    hide Enabled, Do, LoopOk, Stopped;
    if acts != [] {
      StepInLoop(s, acts[0]);
      RunInLoop(Do(s, acts[0]), acts[1..]);
    }
  }

  // ----- two runs that show the conditions above are needed -----

  lemma {:induction false} RunExtends(s: State, acts: seq<Action>, a: Action)
    requires IsRun(s, acts) && Enabled(End(s, acts), a)
    ensures IsRun(s, acts + [a]) && End(s, acts + [a]) == Do(End(s, acts), a)
    decreases |acts|
  {
    hide Enabled, Do;
    if acts != [] {
      RunExtends(Do(s, acts[0]), acts[1..], a);
      assert (acts + [a])[1..] == acts[1..] + [a];
    } else {
      assert acts + [a] == [a] && [a][1..] == [];
    }
  }

  lemma LeadsOn(s: State, t: State, a: Action)
    requires Leads(s, t) && Enabled(t, a)
    ensures Leads(s, Do(t, a))
  {
    hide Enabled, Do;
    var acts :| IsRun(s, acts) && End(s, acts) == t;
    RunExtends(s, acts, a);
  }

  lemma LeadsToItself(s: State)
    ensures Leads(s, s)
  {
    assert IsRun(s, []) && End(s, []) == s;
  }

  /** A thread that cannot set its cancellation state gives up before the command; a spurious
      wake-up then makes the runner report success although the command never ran. */
  lemma {:induction false} SetupFailureIsReportedAsSuccess()
    ensures exists s, r :: Reachable(s) && r in s.hist.log && r.ok && r.cur.outcome == SetupFailed
  {
    hide Leads;
    LeadsToItself(INITIAL);
    var s := Take(INITIAL, INITIAL, InLoop(Begin));
    s := Take(INITIAL, s, InWait(CreateOk));
    s := Take(INITIAL, s, OnWorker(SetupFails));
    s := Take(INITIAL, s, InWait(LockForWait));
    s := Take(INITIAL, s, InWait(Wake(false, true)));
    s := Take(INITIAL, s, InWait(Relock));
    s := Take(INITIAL, s, InWait(UnlockAfterWait));
    s := Take(INITIAL, s, InWait(TestAlarm));
    s := Take(INITIAL, s, AtEnd(TakeBranch));
    s := Take(INITIAL, s, AtEnd(Join));
    s := Take(INITIAL, s, AtEnd(TestFailed));
    s := Take(INITIAL, s, AtEnd(TestLatch));
    s := Take(INITIAL, s, InLoop(Return));
    var r := Report(true, Current(true, false, SetupFailed), Locals(false, true, false));
    assert s.hist.log == [r] && r in s.hist.log;
  }

  /** Two SIGINT handlers past the test of the latch, with the alarm flag down. */
  predicate TwoHandlers(s: State) {
    s.handlers.ints.latch >= 2 && !s.flags.alarm
  }

  /** Two handlers that are both past the test of the latch can always go on to arm the alarm twice. */
  lemma {:induction false} OverlapArmsTwice(s: State)
    requires TwoHandlers(s)
    ensures exists t :: Leads(s, t) && t.hist.latch.alarms == s.hist.latch.alarms + 2
  {
    hide Leads;
    LeadsToItself(s);
    var t := Take(s, s, OnInt(IntLatch));
    t := Take(s, t, OnInt(IntLatch));
    t := Take(s, t, OnInt(IntTest));
    t := Take(s, t, OnInt(IntTest));
    t := Take(s, t, OnInt(IntFlag));
    t := Take(s, t, OnInt(IntFlag));
    t := Take(s, t, OnInt(IntArm));
    t := Take(s, t, OnInt(IntArm));
  }

  /** That is the case as soon as two handlers overlap.  So an overlap can arm the alarm twice, and
      nothing else can. */
  lemma {:induction false} OverlapBegins(s: State, a: Action)
    requires Reachable(s) && Enabled(s, a) && !s.hist.latch.overlap && Do(s, a).hist.latch.overlap
    ensures TwoHandlers(Do(s, a)) && Do(s, a).hist.latch.alarms == 0
    ensures exists t :: Leads(Do(s, a), t) && t.hist.latch.alarms == 2
  {
    ReachableInv(s);
    OnlySigInt(s, a);
    OverlapArmsTwice(DoInt(s, SigInt));
  }

  /** Only the delivery of a SIGINT before the latch is up can begin an overlap. */
  lemma OnlySigInt(s: State, a: Action)
    requires Enabled(s, a) && !s.hist.latch.overlap && Do(s, a).hist.latch.overlap && LatchOk(s)
    ensures a == OnInt(SigInt) && TwoHandlers(Do(s, a)) && Do(s, a).hist.latch.alarms == 0
  {
  }

  /** Two SIGINT handlers, one on the main thread and one on the worker, can both arm the alarm. */
  lemma {:induction false} OverlappingHandlersArmTwice()
    ensures exists s :: Reachable(s) && s.hist.latch.alarms == 2 && s.hist.threads.alive == 1
  {
    hide Leads;
    LeadsToItself(INITIAL);
    var s := Take(INITIAL, INITIAL, InLoop(Begin));
    s := Take(INITIAL, s, InWait(CreateOk));
    s := Take(INITIAL, s, OnInt(SigInt));
    s := Take(INITIAL, s, OnInt(SigInt));
    s := Take(INITIAL, s, OnInt(IntLatch));
    s := Take(INITIAL, s, OnInt(IntLatch));
    s := Take(INITIAL, s, OnInt(IntTest));
    s := Take(INITIAL, s, OnInt(IntTest));
    s := Take(INITIAL, s, OnInt(IntFlag));
    s := Take(INITIAL, s, OnInt(IntFlag));
    s := Take(INITIAL, s, OnInt(IntArm));
    s := Take(INITIAL, s, OnInt(IntArm));
  }

  lemma Take(start: State, s: State, a: Action) returns (t: State)
    requires Leads(start, s) && Enabled(s, a)
    ensures t == Do(s, a) && Leads(start, t)
  {
    hide Enabled, Do;
    t := Do(s, a);
    LeadsOn(start, s, a);
  }
}
