/**
  `OwnedProcess` as a state machine: the launcher, one reader per captured stream, the prepared
  cleanup continuation and any number of shutdown callers. Every operating-system call, callback and
  managed action has a nondeterministic outcome, and any enabled step may come next.
 */
module ProcessLifecycle {
  import opened Common

  const STREAMS: nat := 2

  // ---------------------------------------------------------------- policy

  datatype StageConfig = StageConfig(seconds: real, managed: bool, runOnNormal: bool, localStop: bool)

  datatype Config = Config(stages: seq<StageConfig>, reserve: real, grace: real)

  function Caps(stages: seq<StageConfig>): real {
    if stages == [] then 0.0 else Caps(stages[..|stages| - 1]) + stages[|stages| - 1].seconds
  }

  /** `_validate_policy`: positive caps that fit the total budget together with the local reserve. */
  predicate ValidPolicy(c: Config) {
    && c.reserve > 0.0
    && (forall k :: 0 <= k < |c.stages| ==> c.stages[k].seconds > 0.0)
    && Caps(c.stages) + c.reserve <= c.grace
  }

  function Least(a: real, b: real): real {
    if a <= b then a else b
  }

  /** The deadline a stage gets: its own cap, never borrowing the local reserve. */
  function StageEnd(now: real, seconds: real, end: real, reserve: real): real {
    Least(now + seconds, end - reserve)
  }

  lemma {:induction false} CapsGrow(stages: seq<StageConfig>, k: nat)
    requires k <= |stages| && forall j :: 0 <= j < |stages| ==> stages[j].seconds > 0.0
    ensures Caps(stages[..k]) <= Caps(stages)
    decreases |stages| - k
  {
    if k == |stages| {
      assert stages[..k] == stages;
    } else {
      CapsGrow(stages, k + 1);
      assert stages[..k + 1][..k] == stages[..k];
    }
  }

  /**
    A validated policy never truncates a punctual stage: one that starts within the caps of those
    before it gets its whole cap, still ends within its own share, and leaves the reserve untouched.
   */
  lemma PunctualStageGetsItsCap(c: Config, requested: real, k: nat, now: real)
    requires ValidPolicy(c) && k < |c.stages|
    requires now <= requested + Caps(c.stages[..k])
    ensures var end := StageEnd(now, c.stages[k].seconds, requested + c.grace, c.reserve);
            && end == now + c.stages[k].seconds && now < end
            && end <= requested + Caps(c.stages[..k + 1])
            && requested + Caps(c.stages[..k + 1]) <= requested + c.grace - c.reserve
  {
    CapsGrow(c.stages, k + 1);
    assert c.stages[..k + 1][..k] == c.stages[..k];
  }

  // ---------------------------------------------------------------- state

  datatype Reader =
    | Unborn                     // its thread has not started
    | Running                    // may read the stream
    | Failing                    // its loop raised; waiting for the setup barrier
    | Stopping                   // past its own shutdown request
    | Stopped                    // the stop barrier is set

  datatype Pipe = Pipe(
    acquired: bool,
    fileno: bool,                // exposes a callable fileno
    descriptorless: bool,        // whose fileno() failed when the reader was configured
    reader: Reader,
    started: bool,               // the launcher's record that the thread started
    released: bool,
    closes: nat                  // how often close was attempted
  )

  datatype Action = Action(prepared: bool, cancels: nat, settled: bool)

  datatype Launcher =
    | Preparing(k: nat)
    | Launching                  // everything prepared, before the factory
    | Transferring(i: nat)
    | Checking
    | Making(i: nat)
    | Configuring(i: nat)
    | Starting(i: nat)
    | Tracking(i: nat, raised: bool)  // the start call ended; the thread is not recorded yet
    | Arming                     // before supervision starts
    | Announcing                 // inside the on_launched callback
    | Settling(failed: bool)     // before the setup barrier is set
    | Failed                     // barrier set, before its own shutdown request
    | Done

  datatype Continuation =
    | Idle
    | Stage(k: nat)
    | LocalStop(k: nat)
    | StartAction(k: nat)
    | Observing(k: nat)
    | CancelStage(k: nat)
    | StopReaders
    | CancelAll(k: nat)
    | Joining(i: nat)
    | ReapTerminate | ReapWait | ReapKill | ReapLast
    | Observe(k: nat, late: bool)
    | Release(i: nat, late: bool)
    | Settle                     // the bounded wait for settlement within the reserve
    | LateReap
    | Evaluate
    | Publish(value: bool)
    | Exited

  datatype Reason = Natural | FromSetup | FromReader | Deadline | Cancel | Context

  datatype Setup = Setup(
    done: bool,                  // the setup barrier
    errors: bool,
    supervising: bool,
    idle: bool,                  // launch failed before a child existed
    child: bool)                 // the factory produced a child

  datatype Shutdown = Shutdown(
    requested: bool,
    reason: Reason,
    end: real,                   // fixed by the first request
    delivered: bool)             // a result was handed to a caller

  datatype Work = Work(
    cont: Continuation,
    stageEnd: real,
    reaped: bool,
    terminateAttempted: bool,
    terminates: nat,
    kills: nat,
    published: bool,
    complete: bool)              // the published completeness

  datatype State = State(
    now: real,
    launcher: Launcher,
    setup: Setup,
    pipes: seq<Pipe>,
    actions: seq<Action>,
    shutdown: Shutdown,
    work: Work)

  function NoPipe(): Pipe {
    Pipe(false, false, false, Unborn, false, false, 0)
  }

  function Init(c: Config, now: real): State {
    State(now, Preparing(0), Setup(false, false, false, false, false), [NoPipe(), NoPipe()],
          seq(|c.stages|, _ => Action(false, 0, false)),
          Shutdown(false, Cancel, now, false),
          Work(Idle, now, false, false, 0, 0, false, false))
  }

  // ---------------------------------------------------------------- the launcher

  datatype LaunchEvent =
    | Prepare(ok: bool)
    | Factory(ok: bool, acquired: seq<bool>, fileno: seq<bool>)
    | Transfer(ok: bool)
    | Check
    | Make(ok: bool)
    | Configure(ok: bool, descriptor: bool)
    | Start(born: bool, raises: bool)
    | Track
    | Arm
    | Announce(ok: bool)
    | SetSetupDone
    | RequestFailed

  predicate LaunchEnabled(s: State, e: LaunchEvent) {
    match e
    case Prepare(_) => s.launcher.Preparing?
    case Factory(_, acquired, fileno) => s.launcher.Launching? && |acquired| == |fileno| == STREAMS
    case Transfer(_) => s.launcher.Transferring?
    case Check => s.launcher.Checking?
    case Make(_) => s.launcher.Making?
    case Configure(_, _) => s.launcher.Configuring?
    case Start(born, raises) => s.launcher.Starting? && (born || raises)
    case Track => s.launcher.Tracking?
    case Arm => s.launcher.Arming?
    case Announce(_) => s.launcher.Announcing?
    case SetSetupDone => s.launcher.Settling?
    case RequestFailed => s.launcher.Failed?
  }

  /** Failure before a child exists: nothing is supervised, and no child is there to reap. */
  function EarlyFailure(s: State): State {
    s.(setup := s.setup.(idle := true), work := s.work.(reaped := true), launcher := Failed)
  }

  /** The locked first part of `_shutdown`: the first request fixes reason and deadline for all. */
  function Request(c: Config, s: State, reason: Reason): State {
    if s.shutdown.requested then s
    else s.(shutdown := Shutdown(true, reason, s.now + c.grace, s.shutdown.delivered))
  }

  function Launch(c: Config, s: State, e: LaunchEvent): State
    requires Shaped(c, s) && LaunchEnabled(s, e)
  {
    match e
    case Prepare(ok) =>
      var k := s.launcher.k;
      if k >= |c.stages| then s.(launcher := Launching)
      else if !c.stages[k].managed then s.(launcher := Preparing(k + 1))
      else
        var claimed := s.(actions := s.actions[k := s.actions[k].(prepared := true)]);
        if ok then claimed.(launcher := Preparing(k + 1)) else EarlyFailure(claimed)
    case Factory(ok, acquired, fileno) =>
      if !ok then EarlyFailure(s)
      else s.(setup := s.setup.(child := true), launcher := Transferring(0),
              pipes := [s.pipes[0].(acquired := acquired[0], fileno := fileno[0]),
                        s.pipes[1].(acquired := acquired[1], fileno := fileno[1])])
    case Transfer(ok) =>
      var i := s.launcher.i;
      s.(setup := s.setup.(errors := s.setup.errors || !ok || !s.pipes[i].acquired),
         launcher := if i + 1 < STREAMS then Transferring(i + 1) else Checking)
    case Check => s.(launcher := if s.setup.errors then Settling(true) else Making(0))
    case Make(ok) => s.(launcher := if ok then Configuring(s.launcher.i) else Settling(true))
    case Configure(ok, descriptor) =>
      var i := s.launcher.i;
      if !ok then s.(launcher := Settling(true))
      else s.(launcher := Starting(i), pipes := s.pipes[i := s.pipes[i].(descriptorless := !descriptor)])
    case Start(born, raises) =>
      var i := s.launcher.i;
      s.(launcher := Tracking(i, raises),
         pipes := if born then s.pipes[i := s.pipes[i].(reader := Running)] else s.pipes)
    case Track =>
      var i := s.launcher.i;
      s.(launcher := if s.launcher.raised then Settling(true) else if i + 1 < STREAMS then Making(i + 1) else Arming,
         pipes := s.pipes[i := s.pipes[i].(started := !s.pipes[i].reader.Unborn?)])
    case Arm => s.(setup := s.setup.(supervising := true), launcher := Announcing)
    case Announce(ok) => s.(launcher := Settling(!ok))
    case SetSetupDone => s.(setup := s.setup.(done := true), launcher := if s.launcher.failed then Failed else Done)
    case RequestFailed => Request(c, s, FromSetup).(launcher := Done)
  }

  // ---------------------------------------------------------------- readers, callers and time

  datatype OtherEvent =
    | ReadStream(i: nat)         // one read of the borrowed stream
    | EndLoop(i: nat)
    | RaiseLoop(i: nat)
    | ReaderRequest(i: nat)
    | SetStopped(i: nat)
    | CallerRequest(reason: Reason)
    | Deliver
    | Tick(later: real)
    | DeadlineRequest            // by the continuation while it supervises

  predicate OtherEnabled(s: State, e: OtherEvent) {
    match e
    case ReadStream(i) => i < |s.pipes| && s.pipes[i].reader.Running?
    case EndLoop(i) => i < |s.pipes| && s.pipes[i].reader.Running?
    case RaiseLoop(i) => i < |s.pipes| && s.pipes[i].reader.Running?
    case ReaderRequest(i) => i < |s.pipes| && s.pipes[i].reader.Failing? && s.setup.done
    case SetStopped(i) => i < |s.pipes| && s.pipes[i].reader.Stopping?
    // Nobody holds the process object before launch has returned it.
    case CallerRequest(_) => s.launcher.Done?
    case Deliver => s.launcher.Done? && s.shutdown.requested
    case Tick(later) => later >= s.now
    case DeadlineRequest => s.work.cont.Idle? && s.setup.supervising
  }

  function WithReader(s: State, i: nat, reader: Reader): State
    requires i < |s.pipes|
  {
    s.(pipes := s.pipes[i := s.pipes[i].(reader := reader)])
  }

  function Other(c: Config, s: State, e: OtherEvent): State
    requires OtherEnabled(s, e)
  {
    match e
    case ReadStream(_) => s
    case EndLoop(i) => WithReader(s, i, Stopping)
    case RaiseLoop(i) => WithReader(s, i, Failing)
    case ReaderRequest(i) => WithReader(Request(c, s, FromReader), i, Stopping)
    case SetStopped(i) => WithReader(s, i, Stopped)
    case CallerRequest(reason) => Request(c, s, reason)
    case Deliver => s.(shutdown := s.shutdown.(delivered := true))
    case Tick(later) => s.(now := later)
    case DeadlineRequest => Request(c, s, Deadline)
  }

  // ---------------------------------------------------------------- the continuation

  /** `_safe`. */
  predicate Safe(p: Pipe) {
    !p.started || p.reader.Stopped?
  }

  /** `_complete`. */
  predicate CompleteNow(s: State) {
    && s.work.reaped
    && (forall i :: 0 <= i < |s.pipes| ==> Safe(s.pipes[i]) && (s.pipes[i].acquired ==> s.pipes[i].released))
    && (forall k :: 0 <= k < |s.actions| ==> (s.actions[k].prepared ==> s.actions[k].settled))
  }

  /** What the bounded wait of `_continue_cleanup` is waiting for. */
  predicate Unsettled(s: State) {
    || (exists k :: 0 <= k < |s.actions| && s.actions[k].prepared && !s.actions[k].settled)
    || (exists i :: 0 <= i < |s.pipes| && s.pipes[i].descriptorless && s.pipes[i].released && !Safe(s.pipes[i]))
  }

  function TerminateIfLive(s: State, live: bool): State {
    if s.work.terminateAttempted || !live then s
    else s.(work := s.work.(terminateAttempted := true, terminates := s.work.terminates + 1))
  }

  function CancelAction(c: Config, s: State, k: nat): State
    requires Shaped(c, s) && k < |c.stages|
  {
    var a := s.actions[k];
    if c.stages[k].managed && a.prepared && a.cancels == 0
    then s.(actions := s.actions[k := a.(cancels := a.cancels + 1)])
    else s
  }

  function ObserveAction(s: State, k: nat, settles: bool): State
    requires k < |s.actions|
  {
    var a := s.actions[k];
    if a.prepared then s.(actions := s.actions[k := a.(settled := a.settled || settles)]) else s
  }

  /** `_release_safe` for one stream. */
  function ReleaseIfSafe(s: State, i: nat): State
    requires i < |s.pipes|
  {
    var p := s.pipes[i];
    if p.acquired && !p.released && (Safe(p) || p.descriptorless || !p.fileno)
    then s.(pipes := s.pipes[i := p.(released := true, closes := p.closes + 1)])
    else s
  }

  /**
    `up` is the outcome of whatever the step asks: a poll saw the child alive, a call succeeded, a
    wait is over. `settles` says whether an observed action reports its cleanup complete.
   */
  datatype ContEvent = Proceed(up: bool, settles: bool) | PolicyRaises

  predicate InPolicy(pc: Continuation) {
    pc.Stage? || InStage(pc)
  }

  predicate ContEnabled(s: State, e: ContEvent) {
    match e
    case PolicyRaises => InPolicy(s.work.cont)
    case Proceed(_, _) => !s.work.cont.Exited? && (s.work.cont.Idle? ==> s.shutdown.requested)
  }

  function To(s: State, pc: Continuation): State {
    s.(work := s.work.(cont := pc))
  }

  function Continue(c: Config, s: State, e: ContEvent): State
    requires Shaped(c, s) && ContEnabled(s, e)
  {
    if e.PolicyRaises? then To(s, StopReaders)
    else if InPolicy(s.work.cont) then RunPolicy(c, s, e.up, e.settles)
    else if Reaping(s.work.cont) then Reap(s, e.up)
    else if Sweeping(s.work.cont) then Sweep(c, s)
    else if SettlingDown(s.work.cont) then SettleDown(s, e.settles)
    else PublishStep(s)
  }

  /** `_run_policy`, one turn. */
  function RunPolicy(c: Config, s: State, up: bool, settles: bool): State
    requires Shaped(c, s) && InPolicy(s.work.cont)
  {
    var k := s.work.cont.k;
    match s.work.cont
    case Stage(_) =>
      if k >= |c.stages| then To(s, StopReaders)
      else if s.shutdown.reason.Natural? && !c.stages[k].runOnNormal then To(s, Stage(k + 1))
      else
        var end := StageEnd(s.now, c.stages[k].seconds, s.shutdown.end, c.reserve);
        if s.now >= end || s.shutdown.delivered then To(s, StopReaders)
        else s.(work := s.work.(cont := LocalStop(k), stageEnd := end))
    case LocalStop(_) => To(if c.stages[k].localStop then TerminateIfLive(s, up) else s, StartAction(k))
    case StartAction(_) => To(s, if c.stages[k].managed && !up then CancelStage(k) else Observing(k))
    case Observing(_) =>
      // One more observation while the stage's time lasts.
      if s.now >= s.work.stageEnd then To(s, CancelStage(k))
      else To(if c.stages[k].managed then ObserveAction(s, k, settles) else s,
              if up then CancelStage(k) else Observing(k))
    case CancelStage(_) => To(CancelAction(c, s, k), Stage(k + 1))
  }

  predicate Reaping(pc: Continuation) {
    pc.ReapTerminate? || pc.ReapWait? || pc.ReapKill? || pc.ReapLast? || pc.LateReap?
  }

  /** `_reap`, and the late poll for the child. */
  function Reap(s: State, up: bool): State
    requires Reaping(s.work.cont)
  {
    var w := s.work;
    match w.cont
    case ReapTerminate => To(TerminateIfLive(s, up), ReapWait)
    case ReapWait =>
      var reaped := w.reaped || up;
      s.(work := w.(reaped := reaped, cont := if reaped then Observe(0, false) else ReapKill))
    case ReapKill => s.(work := w.(kills := w.kills + 1, cont := ReapLast))
    case ReapLast => s.(work := w.(reaped := w.reaped || up, cont := Observe(0, false)))
    case LateReap => s.(work := w.(reaped := w.reaped || up, cont := Observe(0, true)))
  }

  predicate Sweeping(pc: Continuation) {
    pc.Idle? || pc.StopReaders? || pc.CancelAll? || pc.Joining?
  }

  /** `_continue_cleanup` from the request to the joins, outside the policy. */
  function Sweep(c: Config, s: State): State
    requires Shaped(c, s) && Sweeping(s.work.cont)
  {
    match s.work.cont
    case Idle => To(s, if s.setup.idle then StopReaders else Stage(0))
    case StopReaders => To(s, CancelAll(0))
    case CancelAll(k) =>
      if k >= |c.stages| then To(s, Joining(0)) else To(CancelAction(c, s, k), CancelAll(k + 1))
    case Joining(i) =>
      To(s, if i + 1 < STREAMS then Joining(i + 1) else if s.setup.child then ReapTerminate else Observe(0, false))
  }

  predicate SettlingDown(pc: Continuation) {
    pc.Observe? || pc.Release? || pc.Settle?
  }

  /** `_observe_actions`, `_release_safe` and the bounded wait that repeats them. */
  function SettleDown(s: State, settles: bool): State
    requires SettlingDown(s.work.cont)
  {
    match s.work.cont
    case Observe(k, late) =>
      if k < |s.actions| then To(ObserveAction(s, k, settles), Observe(k + 1, late))
      else To(s, if late then Evaluate else Release(0, false))
    case Release(i, late) =>
      if i < |s.pipes| then To(ReleaseIfSafe(s, i), Release(i + 1, late))
      else To(s, if late then LateReap else Settle)
    case Settle => To(s, if Unsettled(s) && s.now < s.shutdown.end then Observe(0, false) else Evaluate)
  }

  /** `_publish(self._complete())`: the value is computed first, and stored under the lock later. */
  function PublishStep(s: State): State
    requires s.work.cont.Evaluate? || s.work.cont.Publish?
  {
    match s.work.cont
    case Evaluate => To(s, Publish(CompleteNow(s)))
    case Publish(value) =>
      s.(work := s.work.(published := true, complete := value, cont := if value then Exited else Release(0, true)))
  }

  // ---------------------------------------------------------------- runs

  datatype Event = L(launch: LaunchEvent) | O(other: OtherEvent) | C(cont: ContEvent)

  predicate AtStream(l: Launcher) {
    l.Transferring? || l.Making? || l.Configuring? || l.Starting? || l.Tracking?
  }

  /** Inside one stage, which has been given its deadline. */
  predicate InStage(pc: Continuation) {
    pc.LocalStop? || pc.StartAction? || pc.Observing? || pc.CancelStage?
  }

  predicate Shaped(c: Config, s: State) {
    && |s.pipes| == STREAMS
    && |s.actions| == |c.stages|
    && (AtStream(s.launcher) ==> s.launcher.i < STREAMS)
    && (InStage(s.work.cont) ==> s.work.cont.k < |c.stages|)
  }

  predicate Enabled(s: State, e: Event) {
    match e
    case L(l) => LaunchEnabled(s, l)
    case O(o) => OtherEnabled(s, o)
    case C(k) => ContEnabled(s, k)
  }

  function Apply(c: Config, s: State, e: Event): State
    requires Shaped(c, s) && Enabled(s, e)
  {
    match e
    case L(l) => Launch(c, s, l)
    case O(o) => Other(c, s, o)
    case C(k) => Continue(c, s, k)
  }

  // ---------------------------------------------------------------- what every step keeps

  /** The launcher is past its last reader: no thread can start any more. */
  predicate Past(l: Launcher) {
    l.Announcing? || l.Settling? || l.Failed? || l.Done?
  }

  /** The launcher may still start the reader of stream `i`. */
  predicate MayStart(l: Launcher, i: nat) {
    match l
    case Preparing(_) => true
    case Launching => true
    case Transferring(_) => true
    case Checking => true
    case Making(j) => j <= i
    case Configuring(j) => j <= i
    case Starting(j) => j <= i
    case Tracking(j, _) => j < i
    case _ => false
  }

  /** A running thread is recorded, except in the window between its start and that record. */
  predicate Tracked(l: Launcher, i: nat, p: Pipe) {
    && (MayStart(l, i) ==> p.reader.Unborn?)
    && (p.reader.Unborn? ==> !p.started)
    && (!p.reader.Unborn? ==> p.started || (l.Tracking? && l.i == i))
    && (l.Preparing? || l.Launching? ==> !p.acquired)
  }

  predicate LaunchInv(s: State) {
    && (forall i :: 0 <= i < |s.pipes| ==> Tracked(s.launcher, i, s.pipes[i]))
    && (s.shutdown.requested || s.setup.supervising ==> Past(s.launcher))
    && (s.setup.done ==> s.launcher.Failed? || s.launcher.Done?)
    && (!s.work.cont.Idle? ==> s.shutdown.requested)
  }

  /** A real descriptor: not one that must be closed to wake its reader. */
  predicate Backed(p: Pipe) {
    p.fileno && !p.descriptorless
  }

  predicate PipeOk(p: Pipe, idle: bool) {
    && p.closes == (if p.released then 1 else 0)
    && (p.released ==> p.acquired && !idle)
    && (p.released && Backed(p) ==> p.reader.Unborn? || p.reader.Stopped?)
  }

  predicate PipeInv(s: State) {
    forall i :: 0 <= i < |s.pipes| ==> PipeOk(s.pipes[i], s.work.cont.Idle?)
  }

  /** How many actions the continuation has already swept in its final cancellation. */
  function Swept(c: Config, pc: Continuation): nat {
    if pc.Idle? || InPolicy(pc) || pc.StopReaders? then 0
    else if pc.CancelAll? then pc.k
    else |c.stages|
  }

  predicate ActionOk(managed: bool, a: Action, idle: bool, swept: bool) {
    && (a.prepared ==> managed)
    && a.cancels <= 1
    && (idle || !a.prepared ==> a.cancels == 0)
    && (swept && a.prepared ==> a.cancels == 1)
  }

  predicate ActionInv(c: Config, s: State) {
    forall k :: 0 <= k < |s.actions| && k < |c.stages| ==>
      ActionOk(c.stages[k].managed, s.actions[k], s.work.cont.Idle?, k < Swept(c, s.work.cont))
  }

  /** Before the reap may escalate to a kill. */
  predicate BeforeKill(pc: Continuation) {
    || pc.Idle? || InPolicy(pc) || pc.StopReaders? || pc.CancelAll? || pc.Joining?
    || pc.ReapTerminate? || pc.ReapWait? || pc.ReapKill?
  }

  predicate EndInv(c: Config, s: State) {
    && s.work.terminates == (if s.work.terminateAttempted then 1 else 0)
    && s.work.kills <= 1
    && (BeforeKill(s.work.cont) ==> s.work.kills == 0 && !s.work.published)
    && (InStage(s.work.cont) ==> s.work.stageEnd <= s.shutdown.end - c.reserve)
    && (s.work.published ==> Swept(c, s.work.cont) == |c.stages|)
    && (s.work.complete ==> s.work.published && CompleteNow(s))
    && (s.work.cont == Publish(true) ==> CompleteNow(s))
    && (s.work.cont.Exited? <==> s.work.complete)
  }

  predicate Invariant(c: Config, s: State) {
    Shaped(c, s) && LaunchInv(s) && PipeInv(s) && ActionInv(c, s) && EndInv(c, s)
  }

  /** Steps before any reader is made. */
  predicate Early(e: LaunchEvent) {
    e.Prepare? || e.Factory? || e.Transfer? || e.Check?
  }

  /** Steps that make, configure, start and record one reader. */
  predicate ReaderSetup(e: LaunchEvent) {
    e.Make? || e.Configure? || e.Start? || e.Track?
  }

  /** Steps after the last reader is recorded or given up. */
  predicate Closing(e: LaunchEvent) {
    e.Arm? || e.Announce? || e.SetSetupDone? || e.RequestFailed?
  }

  lemma EarlyKeepsTracking(c: Config, s: State, e: LaunchEvent)
    requires Early(e) && Shaped(c, s) && LaunchInv(s) && LaunchEnabled(s, e)
    ensures Shaped(c, Launch(c, s, e)) && LaunchInv(Launch(c, s, e))
  {
  }

  lemma ReaderSetupKeepsTracking(c: Config, s: State, e: LaunchEvent)
    requires ReaderSetup(e) && Shaped(c, s) && LaunchInv(s) && LaunchEnabled(s, e)
    ensures Shaped(c, Launch(c, s, e)) && LaunchInv(Launch(c, s, e))
  {
  }

  /** The window between a reader's start and its record is closed before anyone can request. */
  lemma ClosingKeepsTracking(c: Config, s: State, e: LaunchEvent)
    requires Closing(e) && Shaped(c, s) && LaunchInv(s) && LaunchEnabled(s, e)
    ensures Shaped(c, Launch(c, s, e)) && LaunchInv(Launch(c, s, e))
  {
  }

  lemma LaunchKeepsPipes(c: Config, s: State, e: LaunchEvent)
    requires Shaped(c, s) && LaunchInv(s) && PipeInv(s) && LaunchEnabled(s, e)
    ensures PipeInv(Launch(c, s, e))
  {
  }

  lemma LaunchKeepsActions(c: Config, s: State, e: LaunchEvent)
    requires Shaped(c, s) && LaunchInv(s) && ActionInv(c, s) && LaunchEnabled(s, e)
    ensures ActionInv(c, Launch(c, s, e))
  {
  }

  lemma LaunchKeepsEnd(c: Config, s: State, e: LaunchEvent)
    requires Shaped(c, s) && LaunchInv(s) && EndInv(c, s) && LaunchEnabled(s, e)
    ensures EndInv(c, Launch(c, s, e))
  {
  }

  lemma OtherKeeps(c: Config, s: State, e: OtherEvent)
    requires Invariant(c, s) && OtherEnabled(s, e)
    ensures Invariant(c, Other(c, s, e))
  {
  }

  /** A turn of the policy is about the actions and its own place. */
  lemma PolicyLeaves(c: Config, s: State, up: bool, settles: bool)
    requires InPolicy(s.work.cont) && Shaped(c, s)
    ensures var t := RunPolicy(c, s, up, settles);
            && t.launcher == s.launcher && t.setup == s.setup && t.shutdown == s.shutdown && t.pipes == s.pipes
            && |t.actions| == |s.actions| && !t.work.cont.Idle?
            && (InStage(t.work.cont) ==> t.work.cont.k < |c.stages|)
  {
  }

  lemma PolicyKeepsTracking(c: Config, s: State, up: bool, settles: bool)
    requires InPolicy(s.work.cont)
    requires Shaped(c, s) && LaunchInv(s)
    ensures Shaped(c, RunPolicy(c, s, up, settles)) && LaunchInv(RunPolicy(c, s, up, settles))
  {
    PolicyLeaves(c, s, up, settles);
  }

  lemma PolicyKeepsPipes(c: Config, s: State, up: bool, settles: bool)
    requires InPolicy(s.work.cont)
    requires Shaped(c, s) && PipeInv(s)
    ensures PipeInv(RunPolicy(c, s, up, settles))
  {
  }

  lemma PolicyKeepsActions(c: Config, s: State, up: bool, settles: bool)
    requires InPolicy(s.work.cont)
    requires Shaped(c, s) && ActionInv(c, s)
    ensures ActionInv(c, RunPolicy(c, s, up, settles))
  {
    assert Swept(c, RunPolicy(c, s, up, settles).work.cont) == 0;
  }

  /** No stage deadline passes the end minus the local reserve. */
  lemma PolicyKeepsEnd(c: Config, s: State, up: bool, settles: bool)
    requires InPolicy(s.work.cont)
    requires Shaped(c, s) && EndInv(c, s)
    ensures EndInv(c, RunPolicy(c, s, up, settles))
  {
  }

  lemma ReapKeepsOwnership(c: Config, s: State, up: bool)
    requires Reaping(s.work.cont)
    requires Shaped(c, s) && LaunchInv(s) && PipeInv(s)
    ensures Shaped(c, Reap(s, up)) && LaunchInv(Reap(s, up)) && PipeInv(Reap(s, up))
  {
  }

  lemma ReapKeepsEnd(c: Config, s: State, up: bool)
    requires Reaping(s.work.cont)
    requires Shaped(c, s) && ActionInv(c, s) && EndInv(c, s)
    ensures ActionInv(c, Reap(s, up)) && EndInv(c, Reap(s, up))
  {
  }

  lemma SweepKeepsOwnership(c: Config, s: State)
    requires Sweeping(s.work.cont) && (s.work.cont.Idle? ==> s.shutdown.requested)
    requires Shaped(c, s) && LaunchInv(s) && PipeInv(s)
    ensures Shaped(c, Sweep(c, s)) && LaunchInv(Sweep(c, s)) && PipeInv(Sweep(c, s))
  {
  }

  /** After the sweep every prepared action has been cancelled exactly once. */
  lemma SweepKeepsEnd(c: Config, s: State)
    requires Sweeping(s.work.cont) && (s.work.cont.Idle? ==> s.shutdown.requested)
    requires Shaped(c, s) && ActionInv(c, s) && EndInv(c, s)
    ensures ActionInv(c, Sweep(c, s)) && EndInv(c, Sweep(c, s))
  {
  }

  lemma SettleKeepsTracking(c: Config, s: State, settles: bool)
    requires SettlingDown(s.work.cont)
    requires Shaped(c, s) && LaunchInv(s)
    ensures Shaped(c, SettleDown(s, settles)) && LaunchInv(SettleDown(s, settles))
  {
  }

  /** A stream is closed only when safe, so only after its reader is past its last read. */
  lemma SettleKeepsPipes(c: Config, s: State, settles: bool)
    requires SettlingDown(s.work.cont)
    requires Shaped(c, s) && LaunchInv(s) && PipeInv(s)
    ensures PipeInv(SettleDown(s, settles))
  {
  }

  lemma SettleKeepsActions(c: Config, s: State, settles: bool)
    requires SettlingDown(s.work.cont)
    requires Shaped(c, s) && ActionInv(c, s)
    ensures ActionInv(c, SettleDown(s, settles))
  {
  }

  lemma SettleKeepsEnd(c: Config, s: State, settles: bool)
    requires SettlingDown(s.work.cont)
    requires Shaped(c, s) && EndInv(c, s)
    ensures EndInv(c, SettleDown(s, settles))
  {
  }

  lemma PublishKeeps(c: Config, s: State)
    requires s.work.cont.Evaluate? || s.work.cont.Publish?
    requires Invariant(c, s)
    ensures Invariant(c, PublishStep(s))
  {
  }

  lemma LaunchKeeps(c: Config, s: State, e: LaunchEvent)
    requires Invariant(c, s) && LaunchEnabled(s, e)
    ensures Invariant(c, Launch(c, s, e))
  {
    if Early(e) {
      EarlyKeepsTracking(c, s, e);
    } else if ReaderSetup(e) {
      ReaderSetupKeepsTracking(c, s, e);
    } else {
      ClosingKeepsTracking(c, s, e);
    }
    LaunchKeepsPipes(c, s, e);
    LaunchKeepsActions(c, s, e);
    LaunchKeepsEnd(c, s, e);
  }

  lemma ContKeeps(c: Config, s: State, e: ContEvent)
    requires Invariant(c, s) && ContEnabled(s, e)
    ensures Invariant(c, Continue(c, s, e))
  {
    if e.PolicyRaises? {
    } else if InPolicy(s.work.cont) {
      PolicyKeepsTracking(c, s, e.up, e.settles);
      PolicyKeepsPipes(c, s, e.up, e.settles);
      PolicyKeepsActions(c, s, e.up, e.settles);
      PolicyKeepsEnd(c, s, e.up, e.settles);
    } else if Reaping(s.work.cont) {
      ReapKeepsOwnership(c, s, e.up);
      ReapKeepsEnd(c, s, e.up);
    } else if Sweeping(s.work.cont) {
      SweepKeepsOwnership(c, s);
      SweepKeepsEnd(c, s);
    } else if SettlingDown(s.work.cont) {
      SettleKeepsTracking(c, s, e.settles);
      SettleKeepsPipes(c, s, e.settles);
      SettleKeepsActions(c, s, e.settles);
      SettleKeepsEnd(c, s, e.settles);
    } else {
      PublishKeeps(c, s);
    }
  }

  lemma StepKeepsInvariant(c: Config, s: State, e: Event)
    requires Invariant(c, s) && Enabled(s, e)
    ensures Invariant(c, Apply(c, s, e))
  {
    match e {
      case L(l) => LaunchKeeps(c, s, l);
      case O(o) => OtherKeeps(c, s, o);
      case C(k) => ContKeeps(c, s, k);
    }
  }

  // ---------------------------------------------------------------- every run

  function Run(c: Config, s: State, events: seq<Event>): Outcome<State>
    decreases events
  {
    if events == [] then At(s)
    else if Shaped(c, s) && Enabled(s, events[0]) then Run(c, Apply(c, s, events[0]), events[1..])
    else Stuck
  }

  ghost predicate Reachable(c: Config, s: State) {
    exists now, events :: Run(c, Init(c, now), events) == At(s)
  }

  lemma {:induction false} RunKeepsInvariant(c: Config, s: State, events: seq<Event>)
    requires Invariant(c, s)
    ensures Run(c, s, events).At? ==> Invariant(c, Run(c, s, events).state)
    decreases events
  {
    if events != [] && Enabled(s, events[0]) {
      StepKeepsInvariant(c, s, events[0]);
      RunKeepsInvariant(c, Apply(c, s, events[0]), events[1..]);
    }
  }

  lemma InitInvariant(c: Config, now: real)
    ensures Invariant(c, Init(c, now))
  {
  }

  lemma ReachableInvariant(c: Config, s: State)
    requires Reachable(c, s)
    ensures Invariant(c, s)
  {
    var now, events :| Run(c, Init(c, now), events) == At(s);
    InitInvariant(c, now);
    RunKeepsInvariant(c, Init(c, now), events);
  }

  /** A thread that may still read the stream or has not yet announced that it will not. */
  predicate Active(r: Reader) {
    r.Running? || r.Failing? || r.Stopping?
  }

  /**
    Why a request can precede the setup barrier: only the supervision deadline can bring one, while
    `on_launched` runs or just after. A launch that fails before a child exists never sets the barrier,
    and has no stream.
   */
  predicate SetupInv(s: State) {
    && (s.setup.idle ==> forall i :: 0 <= i < |s.pipes| ==> s.pipes[i].reader.Unborn? && !s.pipes[i].acquired)
    && (s.setup.idle ==> s.launcher.Failed? || s.launcher.Done?)
    && (s.launcher.Failed? || s.launcher.Done? ==> s.setup.done || s.setup.idle)
    && (s.shutdown.requested && !s.setup.idle && !s.setup.done ==> s.shutdown.reason.Deadline? && s.setup.supervising)
    && (s.setup.idle ==> s.work.reaped)
    && (s.setup.child || s.setup.idle || s.launcher.Preparing? || s.launcher.Launching?)
  }

  lemma StepKeepsSetup(c: Config, s: State, e: Event)
    requires Invariant(c, s) && SetupInv(s) && Enabled(s, e)
    ensures SetupInv(Apply(c, s, e))
  {
    match e {
      case L(l) => LaunchKeepsSetup(c, s, l);
      case O(o) => OtherKeepsSetup(c, s, o);
      case C(k) => ContKeepsSetup(c, s, k);
    }
  }

  lemma LaunchKeepsSetup(c: Config, s: State, e: LaunchEvent)
    requires Shaped(c, s) && LaunchInv(s) && SetupInv(s) && LaunchEnabled(s, e)
    ensures SetupInv(Launch(c, s, e))
  {
    if e.Prepare? || e.Factory? {
      forall i | 0 <= i < |s.pipes|
        ensures s.pipes[i].reader.Unborn? && !s.pipes[i].acquired
      {
        assert Tracked(s.launcher, i, s.pipes[i]);
      }
    }
  }

  lemma OtherKeepsSetup(c: Config, s: State, e: OtherEvent)
    requires Shaped(c, s) && SetupInv(s) && OtherEnabled(s, e)
    ensures SetupInv(Other(c, s, e))
  {
  }

  lemma ContKeepsSetup(c: Config, s: State, e: ContEvent)
    requires Invariant(c, s) && SetupInv(s) && ContEnabled(s, e)
    ensures SetupInv(Continue(c, s, e))
  {
    ContLeavesSetup(c, s, e);
  }

  /** The continuation neither makes readers nor touches what the launcher records. */
  lemma ContLeavesSetup(c: Config, s: State, e: ContEvent)
    requires Invariant(c, s) && ContEnabled(s, e)
    ensures s.work.reaped ==> Continue(c, s, e).work.reaped
    ensures var t := Continue(c, s, e);
            && t.launcher == s.launcher && t.setup == s.setup && t.shutdown == s.shutdown && |t.pipes| == |s.pipes|
            && forall i :: 0 <= i < |s.pipes| ==>
                 t.pipes[i].reader == s.pipes[i].reader && t.pipes[i].acquired == s.pipes[i].acquired
  {
  }

  lemma {:induction false} RunKeepsSetup(c: Config, s: State, events: seq<Event>)
    requires Invariant(c, s) && SetupInv(s)
    ensures Run(c, s, events).At? ==> SetupInv(Run(c, s, events).state)
    decreases events
  {
    if events != [] && Enabled(s, events[0]) {
      StepKeepsInvariant(c, s, events[0]);
      StepKeepsSetup(c, s, events[0]);
      RunKeepsSetup(c, Apply(c, s, events[0]), events[1..]);
    }
  }

  lemma ReachableSetup(c: Config, s: State)
    requires Reachable(c, s)
    ensures SetupInv(s)
  {
    var now, events :| Run(c, Init(c, now), events) == At(s);
    InitInvariant(c, now);
    RunKeepsSetup(c, Init(c, now), events);
  }

  /**
    Release barrier: a descriptor-backed pipe that was released has no reader at work, so no read of
    it is possible. No release precedes a request, and none the end of the launcher's last reader
    start; before the setup barrier the request was that of the supervision deadline, with the launcher
    inside `on_launched` or about to set the barrier.
   */
  lemma ReleasedAfterBarrier(c: Config, s: State, i: nat)
    requires Reachable(c, s) && i < |s.pipes| && s.pipes[i].released
    ensures Backed(s.pipes[i]) ==> !Active(s.pipes[i].reader) && !OtherEnabled(s, ReadStream(i))
    ensures Past(s.launcher) && s.shutdown.requested
    ensures s.setup.done || (s.shutdown.reason.Deadline? && (s.launcher.Announcing? || s.launcher.Settling?))
  {
    ReachableInvariant(c, s);
    ReachableSetup(c, s);
    assert PipeOk(s.pipes[i], s.work.cont.Idle?);
  }

  /** From the first request on, the barrier test of `_safe` tells the truth about every reader. */
  lemma SafeMeansIdle(c: Config, s: State, i: nat)
    requires Reachable(c, s) && i < |s.pipes| && s.shutdown.requested
    ensures Safe(s.pipes[i]) <==> !Active(s.pipes[i].reader)
  {
    ReachableInvariant(c, s);
    assert Tracked(s.launcher, i, s.pipes[i]);
  }

  /** Before it, the test can be wrong: a started thread that is not recorded yet looks safe. */
  lemma UntrackedReaderLooksSafe()
    ensures exists c, s ::
              Reachable(c, s) && s.pipes != [] && s.pipes[0].acquired && Safe(s.pipes[0]) && s.pipes[0].reader.Running?
  {
    var c := Config([], 1.0, 2.0);
    var s := Connected(c);
    s := Then(c, s, L(Make(true)));
    s := Then(c, s, L(Configure(true, true)));
    s := Then(c, s, L(Start(true, false)));
  }

  lemma RunStep(c: Config, s: State, e: Event, rest: seq<Event>)
    requires Shaped(c, s) && Enabled(s, e)
    ensures Run(c, s, [e] + rest) == Run(c, Apply(c, s, e), rest)
  {
    assert ([e] + rest)[1..] == rest;
  }

  /** Once-only effects, whatever the interleaving and however calls fail. */
  lemma OnceOnly(c: Config, s: State)
    requires Reachable(c, s)
    ensures s.work.terminates <= 1 && s.work.kills <= 1
    ensures forall i :: 0 <= i < |s.pipes| ==> s.pipes[i].closes == if s.pipes[i].released then 1 else 0
    ensures forall k :: 0 <= k < |s.actions| ==> s.actions[k].cancels <= 1
  {
    ReachableInvariant(c, s);
    forall k | 0 <= k < |s.actions|
      ensures s.actions[k].cancels <= 1
    {
      assert ActionOk(c.stages[k].managed, s.actions[k], s.work.cont.Idle?, k < Swept(c, s.work.cont));
    }
    forall i | 0 <= i < |s.pipes|
      ensures s.pipes[i].closes == if s.pipes[i].released then 1 else 0
    {
      assert PipeOk(s.pipes[i], s.work.cont.Idle?);
    }
  }

  /** Every action whose preparation was attempted has been cancelled, once, at first publication. */
  lemma CancelledBeforePublication(c: Config, s: State, k: nat)
    requires Reachable(c, s) && s.work.published && k < |s.actions|
    ensures s.actions[k].cancels == if s.actions[k].prepared then 1 else 0
  {
    ReachableInvariant(c, s);
    assert ActionOk(c.stages[k].managed, s.actions[k], s.work.cont.Idle?, k < Swept(c, s.work.cont));
  }

  /** The deadline handed to a started action never reaches into the local reserve. */
  lemma StageDeadlineKeepsReserve(c: Config, s: State)
    requires Reachable(c, s) && s.work.cont.StartAction?
    ensures s.shutdown.requested && s.work.stageEnd <= s.shutdown.end - c.reserve
  {
    ReachableInvariant(c, s);
  }

  /** Published completeness is the truth: reaped, both barriers, all releases, all actions settled. */
  lemma PublishedCompleteness(c: Config, s: State)
    requires Reachable(c, s) && s.work.complete
    ensures s.work.reaped && s.shutdown.requested
    ensures forall i :: 0 <= i < |s.pipes| ==>
              !Active(s.pipes[i].reader) && (s.pipes[i].acquired ==> s.pipes[i].released && s.pipes[i].closes == 1)
    ensures forall k :: 0 <= k < |s.actions| && s.actions[k].prepared ==>
              s.actions[k].settled && s.actions[k].cancels == 1
  {
    ReachableInvariant(c, s);
    OnceOnly(c, s);
    forall i | 0 <= i < |s.pipes|
      ensures !Active(s.pipes[i].reader)
    {
      SafeMeansIdle(c, s, i);
    }
    forall k | 0 <= k < |s.actions| && s.actions[k].prepared
      ensures s.actions[k].cancels == 1
    {
      CancelledBeforePublication(c, s, k);
    }
  }

  /** What the first request and the first complete publication fix for every later moment. */
  predicate Fixed(s: State, t: State) {
    && (s.shutdown.requested ==>
          t.shutdown.requested && t.shutdown.end == s.shutdown.end && t.shutdown.reason == s.shutdown.reason)
    && (s.work.complete ==> t.work.complete)
    && (s.shutdown.delivered ==> t.shutdown.delivered)
  }

  lemma StepFixes(c: Config, s: State, e: Event)
    requires Invariant(c, s) && Enabled(s, e)
    ensures Fixed(s, Apply(c, s, e))
  {
    match e {
      case L(l) => LaunchFixes(c, s, l);
      case O(o) =>
      case C(k) => ContFixes(c, s, k);
    }
  }

  lemma LaunchFixes(c: Config, s: State, e: LaunchEvent)
    requires Shaped(c, s) && LaunchEnabled(s, e)
    ensures Fixed(s, Launch(c, s, e))
  {
  }

  lemma ContFixes(c: Config, s: State, e: ContEvent)
    requires Shaped(c, s) && EndInv(c, s) && ContEnabled(s, e)
    ensures Fixed(s, Continue(c, s, e))
  {
  }

  /**
    All callers share the one deadline and reason of the first request, and completeness, once
    published, is never taken back.
   */
  lemma {:induction false} RequestAndCompletenessAreFinal(c: Config, s: State, events: seq<Event>)
    requires Invariant(c, s) && Run(c, s, events).At?
    ensures Fixed(s, Run(c, s, events).state)
    decreases events
  {
    if events != [] {
      StepFixes(c, s, events[0]);
      StepKeepsInvariant(c, s, events[0]);
      RequestAndCompletenessAreFinal(c, Apply(c, s, events[0]), events[1..]);
    }
  }

  // ---------------------------------------------------------------- retained ownership ends

  ghost predicate Leads(c: Config, s: State, t: State) {
    exists events :: Run(c, s, events) == At(t)
  }

  lemma {:induction false} RunAppend(c: Config, s: State, a: seq<Event>, b: seq<Event>)
    requires Run(c, s, a).At?
    ensures Run(c, s, a + b) == Run(c, Run(c, s, a).state, b)
    decreases a
  {
    if a == [] {
      assert a + b == b;
    } else {
      assert (a + b)[1..] == a[1..] + b;
      RunAppend(c, Apply(c, s, a[0]), a[1..], b);
    }
  }

  lemma LeadsTransitive(c: Config, s: State, t: State, u: State)
    requires Leads(c, s, t) && Leads(c, t, u)
    ensures Leads(c, s, u)
  {
    var a :| Run(c, s, a) == At(t);
    var b :| Run(c, t, b) == At(u);
    RunAppend(c, s, a, b);
  }

  lemma LeadsSelf(c: Config, s: State)
    ensures Leads(c, s, s)
  {
    assert Run(c, s, []) == At(s);
  }

  lemma LeadsNext(c: Config, s: State, t: State, e: Event)
    requires Leads(c, s, t) && Shaped(c, t) && Enabled(t, e)
    ensures Leads(c, s, Apply(c, t, e))
  {
    var u := Apply(c, t, e);
    RunStep(c, t, e, []);
    assert Run(c, u, []) == At(u);
    assert Run(c, t, [e] + []) == At(u);
    LeadsTransitive(c, s, t, u);
  }

  lemma ReachableLeads(c: Config, s: State, t: State)
    requires Reachable(c, s) && Leads(c, s, t)
    ensures Reachable(c, t)
  {
    var now, events :| Run(c, Init(c, now), events) == At(s);
    assert Leads(c, Init(c, now), s);
    LeadsTransitive(c, Init(c, now), s, t);
    var more :| Run(c, Init(c, now), more) == At(t);
  }

  /** All the continuation still waits for from its readers has happened. */
  predicate ReadersSafe(s: State) {
    forall i :: 0 <= i < |s.pipes| ==> Safe(s.pipes[i])
  }

  /** The first `n` streams are closed. */
  predicate ReleasedUpTo(s: State, n: nat) {
    forall i :: 0 <= i < |s.pipes| && i < n ==> (s.pipes[i].acquired ==> s.pipes[i].released)
  }

  /** The first `n` actions have settled. */
  predicate SettledUpTo(s: State, n: nat) {
    forall k :: 0 <= k < |s.actions| && k < n ==> (s.actions[k].prepared ==> s.actions[k].settled)
  }

  predicate ByContinuation(events: seq<Event>) {
    forall i :: 0 <= i < |events| ==> events[i].C?
  }

  predicate Completes(c: Config, s: State, events: seq<Event>) {
    ByContinuation(events) && Run(c, s, events).At? && Run(c, s, events).state.work.complete
  }

  const GO := Proceed(true, true)

  lemma Continues(c: Config, s: State, rest: seq<Event>)
    requires Shaped(c, s) && ContEnabled(s, GO) && Completes(c, Continue(c, s, GO), rest)
    ensures Completes(c, s, [C(GO)] + rest)
  {
    RunStep(c, s, C(GO), rest);
  }

  lemma EvaluationCompletes(c: Config, s: State)
    requires Shaped(c, s) && s.work.reaped && s.work.cont.Evaluate?
    requires ReadersSafe(s) && ReleasedUpTo(s, STREAMS) && SettledUpTo(s, |s.actions|)
    ensures exists events :: Completes(c, s, events)
  {
    var t := Continue(c, s, GO);
    assert t.work.cont == Publish(true);
    assert Completes(c, Continue(c, t, GO), []);
    Continues(c, t, []);
    Continues(c, s, [C(GO)] + []);
  }

  lemma {:induction false} ObservationsComplete(c: Config, s: State, k: nat)
    requires Shaped(c, s) && s.work.reaped && s.work.cont == Observe(k, true) && k <= |s.actions|
    requires ReadersSafe(s) && ReleasedUpTo(s, STREAMS) && SettledUpTo(s, k)
    ensures exists events :: Completes(c, s, events)
    decreases |s.actions| - k
  {
    var t := Continue(c, s, GO);
    if k < |s.actions| {
      ObservationsComplete(c, t, k + 1);
    } else {
      EvaluationCompletes(c, t);
    }
    var rest :| Completes(c, t, rest);
    Continues(c, s, rest);
  }

  /** The late wait for the child succeeds. */
  lemma WaitCompletes(c: Config, s: State)
    requires Shaped(c, s) && s.work.cont.LateReap? && ReadersSafe(s) && ReleasedUpTo(s, STREAMS)
    ensures exists events :: Completes(c, s, events)
  {
    var t := Continue(c, s, GO);
    ObservationsComplete(c, t, 0);
    var rest :| Completes(c, t, rest);
    Continues(c, s, rest);
  }

  lemma {:induction false} ReleasesComplete(c: Config, s: State, i: nat)
    requires Shaped(c, s) && s.work.cont == Release(i, true) && i <= STREAMS
    requires ReadersSafe(s) && ReleasedUpTo(s, i)
    ensures exists events :: Completes(c, s, events)
    decreases STREAMS - i
  {
    var t := Continue(c, s, GO);
    if i < STREAMS {
      ReleasesComplete(c, t, i + 1);
    } else {
      WaitCompletes(c, t);
    }
    var rest :| Completes(c, t, rest);
    Continues(c, s, rest);
  }

  /** Everything but the launcher's position and the setup barrier is as it was. */
  predicate OnlyLauncher(s: State, t: State) {
    t.pipes == s.pipes && t.actions == s.actions && t.work == s.work && t.shutdown == s.shutdown
  }

  /** The launcher can always set the setup barrier, once it is past its last reader. */
  lemma BarrierComes(c: Config, s: State) returns (t: State)
    requires Reachable(c, s) && s.shutdown.requested
    ensures Leads(c, s, t) && Reachable(c, t) && OnlyLauncher(s, t)
    ensures t.setup.done || t.setup.idle
  {
    ReachableInvariant(c, s);
    ReachableSetup(c, s);
    LeadsSelf(c, s);
    t := s;
    if t.launcher.Announcing? {
      LeadsNext(c, s, t, L(Announce(true)));
      t := Apply(c, t, L(Announce(true)));
    }
    if t.launcher.Settling? {
      LeadsNext(c, s, t, L(SetSetupDone));
      t := Apply(c, t, L(SetSetupDone));
    }
    ReachableLeads(c, s, t);
  }

  /** Only the reader of stream `i` has moved. */
  predicate OnlyReader(s: State, t: State, i: nat)
    requires i < |s.pipes|
  {
    t == s.(pipes := s.pipes[i := s.pipes[i].(reader := Stopped)])
  }

  /** A thread that is at work can get past its own request. */
  lemma ReaderLeaves(c: Config, s: State, i: nat) returns (t: State)
    requires Reachable(c, s) && s.shutdown.requested && s.setup.done && i < |s.pipes|
    requires Active(s.pipes[i].reader)
    ensures Reachable(c, t) && Leads(c, s, t) && t == s.(pipes := s.pipes[i := s.pipes[i].(reader := Stopping)])
  {
    ReachableInvariant(c, s);
    LeadsSelf(c, s);
    t := s;
    if t.pipes[i].reader.Failing? {
      LeadsNext(c, s, t, O(ReaderRequest(i)));
      t := Apply(c, t, O(ReaderRequest(i)));
    } else if t.pipes[i].reader.Running? {
      LeadsNext(c, s, t, O(EndLoop(i)));
      t := Apply(c, t, O(EndLoop(i)));
    }
    ReachableLeads(c, s, t);
  }

  /** Then it reaches its stop barrier. */
  lemma ReaderStops(c: Config, s: State, i: nat) returns (t: State)
    requires Reachable(c, s) && s.shutdown.requested && s.setup.done && i < |s.pipes|
    requires Active(s.pipes[i].reader)
    ensures Leads(c, s, t) && Reachable(c, t) && OnlyReader(s, t, i)
  {
    t := ReaderLeaves(c, s, i);
    ReachableInvariant(c, t);
    LeadsNext(c, s, t, O(SetStopped(i)));
    t := Apply(c, t, O(SetStopped(i)));
    ReachableLeads(c, s, t);
  }

  lemma ReadersStop(c: Config, s: State, i: nat) returns (t: State)
    requires Reachable(c, s) && s.shutdown.requested && (s.setup.done || s.setup.idle) && i <= STREAMS
    requires |s.pipes| == STREAMS && forall j :: 0 <= j < i ==> !Active(s.pipes[j].reader)
    ensures Leads(c, s, t) && Reachable(c, t) && t.work == s.work && t.shutdown == s.shutdown
    ensures forall j :: 0 <= j < |t.pipes| ==> !Active(t.pipes[j].reader)
    decreases STREAMS - i
  {
    LeadsSelf(c, s);
    ReachableSetup(c, s);
    t := s;
    if i < STREAMS {
      if Active(s.pipes[i].reader) {
        t := ReaderStops(c, s, i);
      }
      var u := ReadersStop(c, t, i + 1);
      LeadsTransitive(c, s, t, u);
      t := u;
    }
  }

  lemma AllSafe(c: Config, s: State)
    requires Reachable(c, s) && s.shutdown.requested
    requires forall j :: 0 <= j < |s.pipes| ==> !Active(s.pipes[j].reader)
    ensures ReadersSafe(s)
  {
    forall i | 0 <= i < |s.pipes|
      ensures Safe(s.pipes[i])
    {
      SafeMeansIdle(c, s, i);
    }
  }

  /**
    Nothing is retained for ever. From the start of any late round, whatever has failed before, some
    continuation of the run publishes completeness: the launcher can set its barrier, each reader can
    reach its own, the child can be reaped and each action can settle. Once the readers are past their
    barriers the cleanup continuation does the rest alone, in one round.
   */
  lemma OneLateRoundSuffices(c: Config, s: State)
    requires Reachable(c, s) && s.work.cont == Release(0, true)
    ensures exists t :: Leads(c, s, t) && t.work.complete
    ensures ReadersSafe(s) ==> exists events :: Completes(c, s, events)
  {
    ReachableInvariant(c, s);
    if ReadersSafe(s) {
      ReleasesComplete(c, s, 0);
    }
    var t := BarrierComes(c, s);
    t := StoppedThenComplete(c, s, t);
  }

  lemma StoppedThenComplete(c: Config, s: State, settled: State) returns (t: State)
    requires Leads(c, s, settled) && Reachable(c, settled) && settled.work.cont == Release(0, true)
    requires settled.shutdown.requested && (settled.setup.done || settled.setup.idle)
    ensures Leads(c, s, t) && t.work.complete
  {
    ReachableInvariant(c, settled);
    var quiet := ReadersStop(c, settled, 0);
    LeadsTransitive(c, s, settled, quiet);
    ReachableInvariant(c, quiet);
    AllSafe(c, quiet);
    ReleasesComplete(c, quiet, 0);
    var events :| Completes(c, quiet, events);
    t := Run(c, quiet, events).state;
    assert Leads(c, quiet, t);
    LeadsTransitive(c, s, quiet, t);
  }

  /** One more step of a run. */
  lemma Then(c: Config, s: State, e: Event) returns (t: State)
    requires Reachable(c, s) && Shaped(c, s) && Enabled(s, e)
    ensures t == Apply(c, s, e) && Reachable(c, t) && Shaped(c, t)
  {
    t := Apply(c, s, e);
    LeadsSelf(c, s);
    LeadsNext(c, s, s, e);
    ReachableLeads(c, s, t);
    ReachableInvariant(c, t);
  }

  /** A child with both streams, before the first reader is made. */
  lemma Connected(c: Config) returns (s: State)
    requires c.stages == []
    ensures Reachable(c, s) && Shaped(c, s) && s.launcher == Making(0) && s.work.cont.Idle?
    ensures s.setup == Setup(false, false, false, false, true) && !s.shutdown.requested
    ensures var p := Pipe(true, true, false, Unborn, false, false, 0); s.pipes == [p, p]
  {
    s := Init(c, 0.0);
    LeadsSelf(c, s);
    s := Then(c, s, L(Prepare(true)));
    s := Then(c, s, L(Factory(true, [true, true], [true, true])));
    s := Then(c, s, L(Transfer(true)));
    s := Then(c, s, L(Transfer(true)));
    s := Then(c, s, L(Check));
  }

  /** Both readers started, supervision armed: the launcher is inside `on_launched`. */
  lemma Launched(c: Config) returns (s: State)
    requires c.stages == []
    ensures Reachable(c, s) && Shaped(c, s) && s.launcher.Announcing? && s.setup.supervising && !s.setup.done
    ensures s.work.cont.Idle? && !s.setup.idle && !s.shutdown.requested && s.setup.child
    ensures forall i :: 0 <= i < STREAMS ==> s.pipes[i] == Pipe(true, true, false, Running, true, false, 0)
  {
    s := Connected(c);
    s := ReaderLaunched(c, s);
    s := ReaderLaunched(c, s);
    s := Then(c, s, L(Arm));
  }

  lemma ReaderLaunched(c: Config, s: State) returns (t: State)
    requires Reachable(c, s) && Shaped(c, s) && s.launcher.Making?
    ensures Reachable(c, t) && Shaped(c, t)
    ensures var i := s.launcher.i;
            t == s.(launcher := if i + 1 < STREAMS then Making(i + 1) else Arming,
                    pipes := s.pipes[i := s.pipes[i].(descriptorless := false, reader := Running, started := true)])
  {
    t := Then(c, s, L(Make(true)));
    t := Then(c, t, L(Configure(true, true)));
    t := Then(c, t, L(Start(true, false)));
    t := Then(c, t, L(Track));
  }

  /** The deadline case does occur: a pipe is released while `on_launched` still runs. */
  lemma DeadlineReleasesBeforeBarrier()
    ensures exists c, s :: Reachable(c, s) && s.pipes != [] && s.pipes[0].released && !s.setup.done
  {
    var c := Config([], 1.0, 2.0);
    var s := Launched(c);
    s := Then(c, s, O(DeadlineRequest));
    s := Then(c, s, O(EndLoop(0)));
    s := Then(c, s, O(SetStopped(0)));
    s := ToCancel(c, s);
    s := ToReap(c, s);
    s := ReapAndRelease(c, s);
  }

  /** Without stages the continuation goes straight to the last cancellation, */
  lemma ToCancel(c: Config, s: State) returns (t: State)
    requires Reachable(c, s) && Shaped(c, s) && c.stages == []
    requires s.work.cont.Idle? && s.shutdown.requested && !s.setup.idle
    ensures Reachable(c, t) && Shaped(c, t) && t == To(s, CancelAll(0))
  {
    t := Then(c, s, C(GO));
    t := Then(c, t, C(GO));
    t := Then(c, t, C(GO));
  }

  /** to the joins and the reap, */
  lemma ToReap(c: Config, s: State) returns (t: State)
    requires Reachable(c, s) && Shaped(c, s) && c.stages == []
    requires s.work.cont == CancelAll(0) && s.setup.child
    ensures Reachable(c, t) && Shaped(c, t) && t == To(s, ReapTerminate)
  {
    t := Then(c, s, C(GO));
    t := Then(c, t, C(GO));
    t := Then(c, t, C(GO));
  }

  /** to the observation of what was reaped, */
  lemma Reaped(c: Config, s: State) returns (t: State)
    requires Reachable(c, s) && Shaped(c, s) && s.work.cont == ReapTerminate
    ensures Reachable(c, t) && Shaped(c, t) && t.work.cont == Observe(0, false)
    ensures t.setup == s.setup && t.pipes == s.pipes
  {
    t := Then(c, s, C(GO));
    t := Then(c, t, C(GO));
  }

  /** and to the first release. */
  lemma ReapAndRelease(c: Config, s: State) returns (t: State)
    requires Reachable(c, s) && Shaped(c, s) && c.stages == []
    requires s.work.cont == ReapTerminate && s.pipes[0].acquired && !s.pipes[0].released && Safe(s.pipes[0])
    ensures Reachable(c, t) && t.setup == s.setup && t.pipes != [] && t.pipes[0].released
  {
    t := Reaped(c, s);
    t := Then(c, t, C(GO));
    t := Then(c, t, C(GO));
  }
}
