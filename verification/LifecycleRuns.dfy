/**
  Whole runs of the process lifecycle: where reaped, settled and terminated come from, how far the stop
  escalates, the turn of every stage, the bounded wait, the deadline, and what a failed launch leads to.
 */
module LifecycleRuns {
  import opened Common
  import opened ProcessLifecycle

  // ---------------------------------------------------------------- what happened in a run

  /** Some step of the run is of that kind. */
  predicate Happened(c: Config, s: State, events: seq<Event>, what: (State, Event) -> bool)
    decreases events
  {
    && events != [] && Shaped(c, s) && Enabled(s, events[0])
    && (what(s, events[0]) || Happened(c, Apply(c, s, events[0]), events[1..], what))
  }

  /** The terminate wait came back and the child is not reaped. */
  predicate WaitFails(s: State, e: Event) {
    s.work.cont.ReapWait? && !s.work.reaped && e.C? && e.cont.Proceed? && !e.cont.up
  }

  /** A stage that stops the child locally, or the reap, polls it and sees it alive. */
  predicate SeesAlive(c: Config, s: State, e: Event) {
    && e.C? && e.cont.Proceed? && e.cont.up
    && (s.work.cont.ReapTerminate?
        || (s.work.cont.LocalStop? && s.work.cont.k < |c.stages| && c.stages[s.work.cont.k].localStop))
  }

  /** One of the waits for the child succeeds, or the launch fails before there is a child. */
  predicate Reaps(c: Config, s: State, e: Event) {
    match e
    case C(Proceed(up, _)) => up && (s.work.cont.ReapWait? || s.work.cont.ReapLast? || s.work.cont.LateReap?)
    case L(Prepare(ok)) =>
      !ok && s.launcher.Preparing? && s.launcher.k < |c.stages| && c.stages[s.launcher.k].managed
    case L(Factory(ok, _, _)) => !ok
    case _ => false
  }

  /** Action `k` reports its cleanup complete, in its stage or in a later observation. */
  predicate Settles(c: Config, k: nat, s: State, e: Event) {
    && e.C? && e.cont.Proceed? && e.cont.settles
    && k < |s.actions| && k < |c.stages| && s.actions[k].prepared
    && ((s.work.cont.Observe? && s.work.cont.k == k)
        || (s.work.cont == Observing(k) && c.stages[k].managed && s.now < s.work.stageEnd))
  }

  // ---------------------------------------------------------------- terminate, kill and reap

  predicate PastWait(pc: Continuation) {
    pc.ReapKill? || pc.ReapLast? || SettlingDown(pc) || pc.LateReap? || pc.Evaluate? || pc.Publish? || pc.Exited?
  }

  /** Behind the terminate wait an unreaped child is about to be killed, or has been. */
  predicate KillInv(s: State) {
    && (s.work.kills == 1 ==> PastWait(s.work.cont) && !s.work.cont.ReapKill?)
    && (s.work.cont.ReapKill? ==> !s.work.reaped)
    && (PastWait(s.work.cont) && !s.work.cont.ReapKill? && !s.work.reaped ==> s.work.kills == 1)
  }

  predicate KillDue(s: State) {
    s.work.kills == 1 || s.work.cont.ReapKill?
  }

  lemma StepKeepsKill(c: Config, s: State, e: Event)
    requires Invariant(c, s) && SetupInv(s) && KillInv(s) && Enabled(s, e)
    ensures KillInv(Apply(c, s, e))
    ensures KillDue(Apply(c, s, e)) <==> KillDue(s) || WaitFails(s, e)
  {
    match e {
      case L(l) =>
      case O(o) =>
      case C(k) => ContKeepsKill(c, s, k);
    }
  }

  lemma ContKeepsKill(c: Config, s: State, e: ContEvent)
    requires Invariant(c, s) && SetupInv(s) && KillInv(s) && ContEnabled(s, e)
    ensures KillInv(Continue(c, s, e))
    ensures KillDue(Continue(c, s, e)) <==> KillDue(s) || WaitFails(s, C(e))
  {
    if e.PolicyRaises? {
    } else if InPolicy(s.work.cont) {
      PolicyIsBeforeWait(c, s, e.up, e.settles);
    } else if Reaping(s.work.cont) {
      ReapKeepsKill(s, e.up, e.settles);
    } else if Sweeping(s.work.cont) {
      SweepKeepsKill(c, s);
    } else if SettlingDown(s.work.cont) {
      SettleKeepsKill(s, e.settles);
    }
  }

  lemma PolicyIsBeforeWait(c: Config, s: State, up: bool, settles: bool)
    requires InPolicy(s.work.cont) && Shaped(c, s)
    ensures var t := RunPolicy(c, s, up, settles);
            !PastWait(t.work.cont) && t.work.kills == s.work.kills && t.work.reaped == s.work.reaped
  {
    PolicyStaysBefore(c, s, up, settles);
    PolicyLeavesWork(c, s, up, settles);
  }

  lemma PolicyStaysBefore(c: Config, s: State, up: bool, settles: bool)
    requires InPolicy(s.work.cont) && Shaped(c, s)
    ensures !PastWait(RunPolicy(c, s, up, settles).work.cont)
  {
  }

  lemma PolicyLeavesWork(c: Config, s: State, up: bool, settles: bool)
    requires InPolicy(s.work.cont) && Shaped(c, s)
    ensures var t := RunPolicy(c, s, up, settles);
            t.work.kills == s.work.kills && t.work.reaped == s.work.reaped && t.work.published == s.work.published
  {
  }

  lemma ReapKeepsKill(s: State, up: bool, settles: bool)
    requires Reaping(s.work.cont) && KillInv(s) && s.work.kills <= 1
    requires !PastWait(s.work.cont) || s.work.cont.ReapKill? ==> s.work.kills == 0
    ensures KillInv(Reap(s, up))
    ensures KillDue(Reap(s, up)) <==> KillDue(s) || WaitFails(s, C(Proceed(up, settles)))
  {
  }

  /** Without a child to reap the start had failed, and nothing is left to kill. */
  lemma SweepKeepsKill(c: Config, s: State)
    requires Sweeping(s.work.cont) && Shaped(c, s) && SetupInv(s) && KillInv(s)
    requires s.work.kills == 0 && (s.launcher.Preparing? || s.launcher.Launching? ==> s.work.cont.Idle?)
    ensures KillInv(Sweep(c, s)) && !KillDue(Sweep(c, s))
  {
  }

  lemma SettleKeepsKill(s: State, settles: bool)
    requires SettlingDown(s.work.cont) && KillInv(s)
    ensures KillInv(SettleDown(s, settles)) && (KillDue(SettleDown(s, settles)) <==> KillDue(s))
  {
  }

  lemma StepTerminates(c: Config, s: State, e: Event)
    requires Invariant(c, s) && Enabled(s, e)
    ensures Apply(c, s, e).work.terminates == if s.work.terminates == 1 || SeesAlive(c, s, e) then 1 else 0
  {
    match e {
      case L(l) =>
      case O(o) =>
      case C(k) => ContTerminates(c, s, k);
    }
  }

  lemma ContTerminates(c: Config, s: State, e: ContEvent)
    requires Invariant(c, s) && ContEnabled(s, e)
    ensures Continue(c, s, e).work.terminates == if s.work.terminates == 1 || SeesAlive(c, s, C(e)) then 1 else 0
  {
  }

  lemma StepReaps(c: Config, s: State, e: Event)
    requires Invariant(c, s) && Enabled(s, e)
    ensures Apply(c, s, e).work.reaped <==> s.work.reaped || Reaps(c, s, e)
  {
    match e {
      case L(l) =>
      case O(o) =>
      case C(k) => ContReaps(c, s, k);
    }
  }

  lemma ContReaps(c: Config, s: State, e: ContEvent)
    requires Shaped(c, s) && ContEnabled(s, e)
    ensures Continue(c, s, e).work.reaped <==> s.work.reaped || Reaps(c, s, C(e))
  {
    if e.Proceed? && InPolicy(s.work.cont) {
      PolicyLeavesWork(c, s, e.up, e.settles);
    }
  }

  lemma StepSettles(c: Config, s: State, e: Event, k: nat)
    requires Invariant(c, s) && Enabled(s, e) && k < |s.actions|
    ensures |Apply(c, s, e).actions| == |s.actions|
    ensures Apply(c, s, e).actions[k].settled <==> s.actions[k].settled || Settles(c, k, s, e)
  {
    match e {
      case L(l) =>
      case O(o) =>
      case C(q) => ContSettles(c, s, q, k);
    }
  }

  lemma ContSettles(c: Config, s: State, e: ContEvent, k: nat)
    requires Shaped(c, s) && ContEnabled(s, e) && k < |s.actions|
    ensures |Continue(c, s, e).actions| == |s.actions|
    ensures Continue(c, s, e).actions[k].settled <==> s.actions[k].settled || Settles(c, k, s, C(e))
  {
    if e.Proceed? && InPolicy(s.work.cont) {
      PolicySettles(c, s, e.up, e.settles, k);
    }
  }

  lemma PolicySettles(c: Config, s: State, up: bool, settles: bool, k: nat)
    requires InPolicy(s.work.cont) && Shaped(c, s) && k < |s.actions|
    ensures |RunPolicy(c, s, up, settles).actions| == |s.actions|
    ensures RunPolicy(c, s, up, settles).actions[k].settled <==>
              s.actions[k].settled || Settles(c, k, s, C(Proceed(up, settles)))
  {
  }

  lemma {:induction false} RunEscalates(c: Config, s: State, events: seq<Event>)
    requires Invariant(c, s) && SetupInv(s) && KillInv(s) && Run(c, s, events).At?
    ensures var t := Run(c, s, events).state;
            && KillInv(t)
            && (KillDue(t) <==> KillDue(s) || Happened(c, s, events, WaitFails))
            && (t.work.terminates
                == if s.work.terminates == 1 || Happened(c, s, events, (u, e) => SeesAlive(c, u, e)) then 1 else 0)
    decreases events
  {
    if events != [] {
      StepKeepsKill(c, s, events[0]);
      StepTerminates(c, s, events[0]);
      StepKeepsInvariant(c, s, events[0]);
      StepKeepsSetup(c, s, events[0]);
      RunEscalates(c, Apply(c, s, events[0]), events[1..]);
    }
  }

  lemma {:induction false} RunReaps(c: Config, s: State, events: seq<Event>)
    requires Invariant(c, s) && Run(c, s, events).At?
    ensures Run(c, s, events).state.work.reaped <==>
              s.work.reaped || Happened(c, s, events, (u, e) => Reaps(c, u, e))
    decreases events
  {
    if events != [] {
      StepReaps(c, s, events[0]);
      StepKeepsInvariant(c, s, events[0]);
      RunReaps(c, Apply(c, s, events[0]), events[1..]);
    }
  }

  lemma {:induction false} RunSettles(c: Config, s: State, events: seq<Event>, k: nat)
    requires Invariant(c, s) && Run(c, s, events).At? && k < |s.actions|
    ensures |Run(c, s, events).state.actions| == |s.actions|
    ensures Run(c, s, events).state.actions[k].settled <==>
              s.actions[k].settled || Happened(c, s, events, (u, e) => Settles(c, k, u, e))
    decreases events
  {
    if events != [] {
      StepSettles(c, s, events[0], k);
      StepKeepsInvariant(c, s, events[0]);
      RunSettles(c, Apply(c, s, events[0]), events[1..], k);
    }
  }

  /**
    How far the stop goes, over every run from the start: the child is terminated exactly when a poll
    before a terminate saw it alive, and once however often. It is killed exactly when the wait after
    the terminate failed, as soon as the kill is passed; past that point it is reaped or was killed.
   */
  lemma EscalationIs(c: Config, now: real, events: seq<Event>, s: State)
    requires Run(c, Init(c, now), events) == At(s)
    ensures s.work.terminates == if Happened(c, Init(c, now), events, (u, e) => SeesAlive(c, u, e)) then 1 else 0
    ensures s.work.kills == if Happened(c, Init(c, now), events, WaitFails) && !s.work.cont.ReapKill? then 1 else 0
    ensures PastWait(s.work.cont) && !s.work.cont.ReapKill? && !s.work.reaped ==> s.work.kills == 1
  {
    var start := Init(c, now);
    InitInvariant(c, now);
    RunEscalates(c, start, events);
    RunKeepsInvariant(c, start, events);
    assert s.work.kills <= 1;
  }

  /** What counts as reaped or settled was reported: by a wait for the child, by the action itself. */
  lemma ReapedAndSettledAre(c: Config, now: real, events: seq<Event>, s: State, k: nat)
    requires Run(c, Init(c, now), events) == At(s) && k < |c.stages|
    ensures s.work.reaped <==> Happened(c, Init(c, now), events, (u, e) => Reaps(c, u, e))
    ensures k < |s.actions|
    ensures s.actions[k].settled <==> Happened(c, Init(c, now), events, (u, e) => Settles(c, k, u, e))
  {
    var start := Init(c, now);
    InitInvariant(c, now);
    RunReaps(c, start, events);
    RunSettles(c, start, events, k);
  }

  // ---------------------------------------------------------------- the turn of every stage

  /** Stage `j` begins. */
  predicate Enters(c: Config, j: nat, s: State, e: Event) {
    && s.work.cont == Stage(j) && e.C? && e.cont.Proceed? && j < |c.stages|
    && !(s.shutdown.reason.Natural? && !c.stages[j].runOnNormal)
    && s.now < StageEnd(s.now, c.stages[j].seconds, s.shutdown.end, c.reserve) && !s.shutdown.delivered
  }

  /** The policy ends early: it raises, or at a stage the time is up or a result was handed out. */
  predicate CutsShort(c: Config, s: State, e: Event) {
    && e.C?
    && (e.cont.PolicyRaises?
        || (s.work.cont.Stage? && s.work.cont.k < |c.stages|
            && (s.shutdown.delivered
                || s.now >= StageEnd(s.now, c.stages[s.work.cont.k].seconds, s.shutdown.end, c.reserve))))
  }

  /** The continuation is at or behind stage `j`. */
  predicate TurnCame(s: State, j: nat) {
    match s.work.cont
    case Idle => false
    case Stage(k) => k > j
    case LocalStop(k) => k >= j
    case StartAction(k) => k >= j
    case Observing(k) => k >= j
    case CancelStage(k) => k >= j
    case _ => true
  }

  predicate SkippedOnNormal(c: Config, s: State, j: nat) {
    s.shutdown.requested && s.shutdown.reason.Natural? && j < |c.stages| && !c.stages[j].runOnNormal
  }

  lemma StepComes(c: Config, s: State, e: Event, j: nat)
    requires Invariant(c, s) && Enabled(s, e) && j < |c.stages|
    requires TurnCame(Apply(c, s, e), j) && !TurnCame(s, j)
    ensures Enters(c, j, s, e) || CutsShort(c, s, e) || s.setup.idle || SkippedOnNormal(c, s, j)
  {
    match e {
      case L(l) =>
      case O(o) =>
      case C(k) => ContComes(c, s, k, j);
    }
  }

  lemma ContComes(c: Config, s: State, e: ContEvent, j: nat)
    requires Invariant(c, s) && ContEnabled(s, e) && j < |c.stages|
    requires TurnCame(Continue(c, s, e), j) && !TurnCame(s, j)
    ensures Enters(c, j, s, C(e)) || CutsShort(c, s, C(e)) || s.setup.idle || SkippedOnNormal(c, s, j)
  {
    if e.Proceed? && InPolicy(s.work.cont) {
      PolicyComes(c, s, e.up, e.settles, j);
    }
  }

  lemma PolicyComes(c: Config, s: State, up: bool, settles: bool, j: nat)
    requires InPolicy(s.work.cont) && Shaped(c, s) && s.shutdown.requested && j < |c.stages|
    requires TurnCame(RunPolicy(c, s, up, settles), j) && !TurnCame(s, j)
    ensures Enters(c, j, s, C(Proceed(up, settles))) || CutsShort(c, s, C(Proceed(up, settles)))
            || SkippedOnNormal(c, s, j)
  {
  }

  lemma IdleStays(c: Config, s: State, e: Event)
    requires Invariant(c, s) && Enabled(s, e)
    ensures s.setup.idle ==> Apply(c, s, e).setup.idle
  {
    if e.C? {
      ContLeavesSetup(c, s, e.cont);
    }
  }

  lemma {:induction false} RunComes(c: Config, s: State, events: seq<Event>, j: nat)
    requires Invariant(c, s) && Run(c, s, events).At? && j < |c.stages|
    ensures var t := Run(c, s, events).state;
            && (s.setup.idle ==> t.setup.idle)
            && (TurnCame(t, j) ==>
                  || TurnCame(s, j) || t.setup.idle || SkippedOnNormal(c, t, j)
                  || Happened(c, s, events, (u, e) => Enters(c, j, u, e))
                  || Happened(c, s, events, (u, e) => CutsShort(c, u, e)))
    decreases events
  {
    if events != [] {
      var next := Apply(c, s, events[0]);
      StepKeepsInvariant(c, s, events[0]);
      IdleStays(c, s, events[0]);
      RunComes(c, next, events[1..], j);
      if TurnCame(next, j) && !TurnCame(s, j) {
        StepComes(c, s, events[0], j);
        RequestAndCompletenessAreFinal(c, s, events);
      }
    }
  }

  /**
    Every stage of the policy gets its turn before the readers are stopped, unless the launch failed
    early, the stage is not for a natural end, or the policy was cut short by an exception, by its time or
    by a result already handed out.
   */
  lemma EveryStageGetsItsTurn(c: Config, now: real, events: seq<Event>, s: State, j: nat)
    requires Run(c, Init(c, now), events) == At(s) && j < |c.stages|
    requires !s.work.cont.Idle? && !InPolicy(s.work.cont)
    ensures || s.setup.idle || SkippedOnNormal(c, s, j)
            || Happened(c, Init(c, now), events, (u, e) => Enters(c, j, u, e))
            || Happened(c, Init(c, now), events, (u, e) => CutsShort(c, u, e))
  {
    InitInvariant(c, now);
    RunComes(c, Init(c, now), events, j);
  }

  /** Stage `k` has begun in this run, or had before. */
  predicate Begun(c: Config, s: State, events: seq<Event>, k: nat, before: bool) {
    before || Happened(c, s, events, (u, e) => Enters(c, k, u, e))
  }

  /** A stage that has begun is under way or over; once over, its prepared action has been cancelled. */
  predicate BegunInv(s: State, k: nat, begun: bool) {
    begun ==>
      && !s.work.cont.Idle?
      && (InPolicy(s.work.cont) ==> s.work.cont.k > k || (s.work.cont.k == k && InStage(s.work.cont)))
      && (InPolicy(s.work.cont) && s.work.cont.k > k && k < |s.actions| && s.actions[k].prepared ==>
            s.actions[k].cancels == 1)
  }

  lemma StepKeepsBegun(c: Config, s: State, e: Event, k: nat, begun: bool)
    requires Invariant(c, s) && Enabled(s, e) && k < |c.stages| && BegunInv(s, k, begun)
    ensures BegunInv(Apply(c, s, e), k, begun || Enters(c, k, s, e))
  {
    match e {
      case L(l) => LaunchLeavesPrepared(c, s, l, k);
      case O(o) =>
      case C(q) => ContKeepsBegun(c, s, q, k, begun);
    }
  }

  /** Actions are prepared before anything can be requested. */
  lemma LaunchLeavesPrepared(c: Config, s: State, e: LaunchEvent, k: nat)
    requires Invariant(c, s) && LaunchEnabled(s, e) && k < |s.actions|
    ensures Launch(c, s, e).work.cont == s.work.cont
    ensures !s.work.cont.Idle? ==> Launch(c, s, e).actions == s.actions
  {
  }

  lemma ContKeepsBegun(c: Config, s: State, e: ContEvent, k: nat, begun: bool)
    requires Invariant(c, s) && ContEnabled(s, e) && k < |c.stages| && BegunInv(s, k, begun)
    ensures BegunInv(Continue(c, s, e), k, begun || Enters(c, k, s, C(e)))
  {
    if e.PolicyRaises? {
    } else if InPolicy(s.work.cont) {
      PolicyKeepsBegun(c, s, e.up, e.settles, k, begun);
    } else {
      NotBackToPolicy(c, s, e);
    }
  }

  predicate Outside(pc: Continuation) {
    !InPolicy(pc) && !pc.Idle?
  }

  lemma NotBackToPolicy(c: Config, s: State, e: ContEvent)
    requires Shaped(c, s) && ContEnabled(s, e) && e.Proceed? && !InPolicy(s.work.cont)
    ensures !s.work.cont.Idle? ==> Outside(Continue(c, s, e).work.cont)
    ensures s.work.cont.Idle? ==> Continue(c, s, e).work.cont in {StopReaders, Stage(0)}
  {
    if Reaping(s.work.cont) {
      ReapStaysOut(s, e.up);
    } else if SettlingDown(s.work.cont) {
      SettleStaysOut(s, e.settles);
    } else if Sweeping(s.work.cont) {
      SweepStaysOut(c, s);
    }
  }

  lemma ReapStaysOut(s: State, up: bool)
    requires Reaping(s.work.cont)
    ensures Outside(Reap(s, up).work.cont)
  {
  }

  lemma SettleStaysOut(s: State, settles: bool)
    requires SettlingDown(s.work.cont)
    ensures Outside(SettleDown(s, settles).work.cont)
  {
  }

  lemma SweepStaysOut(c: Config, s: State)
    requires Shaped(c, s) && Sweeping(s.work.cont)
    ensures if s.work.cont.Idle? then Sweep(c, s).work.cont in {StopReaders, Stage(0)}
            else Outside(Sweep(c, s).work.cont)
  {
  }

  /** Stage by stage: only a cancelled stage, or one that does not begin, gives way to the next. */
  lemma PolicyMoves(c: Config, s: State, up: bool, settles: bool)
    requires InPolicy(s.work.cont) && Shaped(c, s)
    ensures var pc, qc := s.work.cont, RunPolicy(c, s, up, settles).work.cont;
            InPolicy(qc) ==>
              && (qc.k == pc.k || (qc == Stage(pc.k + 1) && (pc.CancelStage? || pc.Stage?)))
              && (qc.k == pc.k ==> InStage(qc))
              && (qc.k == pc.k && pc.Stage? ==> Enters(c, pc.k, s, C(Proceed(up, settles))))
              && (qc.k > pc.k && pc.Stage? ==> !Enters(c, pc.k, s, C(Proceed(up, settles))))
    ensures !RunPolicy(c, s, up, settles).work.cont.Idle?
  {
  }

  lemma PolicyCancels(c: Config, s: State, up: bool, settles: bool, k: nat)
    requires InPolicy(s.work.cont) && Shaped(c, s) && ActionInv(c, s) && k < |s.actions|
    ensures var t := RunPolicy(c, s, up, settles);
            && |t.actions| == |s.actions| && t.actions[k].prepared == s.actions[k].prepared
            && (s.actions[k].cancels == 1 ==> t.actions[k].cancels == 1)
            && (s.work.cont == CancelStage(k) && s.actions[k].prepared ==> t.actions[k].cancels == 1)
  {
    assert ActionOk(c.stages[k].managed, s.actions[k], s.work.cont.Idle?, k < Swept(c, s.work.cont));
  }

  lemma PolicyKeepsBegun(c: Config, s: State, up: bool, settles: bool, k: nat, begun: bool)
    requires InPolicy(s.work.cont) && Shaped(c, s) && ActionInv(c, s) && k < |c.stages| && BegunInv(s, k, begun)
    ensures BegunInv(RunPolicy(c, s, up, settles), k, begun || Enters(c, k, s, C(Proceed(up, settles))))
  {
    PolicyMoves(c, s, up, settles);
    PolicyCancels(c, s, up, settles, k);
    BegunMoves(c, s, RunPolicy(c, s, up, settles), C(Proceed(up, settles)), k, begun);
  }

  lemma BegunMoves(c: Config, s: State, t: State, e: Event, k: nat, begun: bool)
    requires InPolicy(s.work.cont) && BegunInv(s, k, begun) && !t.work.cont.Idle? && k < |s.actions| == |t.actions|
    requires t.actions[k].prepared == s.actions[k].prepared
    requires s.actions[k].cancels == 1 ==> t.actions[k].cancels == 1
    requires s.work.cont == CancelStage(k) && s.actions[k].prepared ==> t.actions[k].cancels == 1
    requires InPolicy(t.work.cont) ==>
               var pc, qc := s.work.cont, t.work.cont;
               && (qc.k == pc.k || (qc == Stage(pc.k + 1) && (pc.CancelStage? || pc.Stage?)))
               && (qc.k == pc.k ==> InStage(qc))
               && (qc.k > pc.k && pc.Stage? ==> !Enters(c, pc.k, s, e))
    ensures BegunInv(t, k, begun || Enters(c, k, s, e))
  {
  }

  lemma {:induction false} RunKeepsBegun(c: Config, s: State, events: seq<Event>, k: nat, begun: bool)
    requires Invariant(c, s) && Run(c, s, events).At? && k < |c.stages| && BegunInv(s, k, begun)
    ensures BegunInv(Run(c, s, events).state, k, Begun(c, s, events, k, begun))
    decreases events
  {
    if events != [] {
      StepKeepsBegun(c, s, events[0], k, begun);
      StepKeepsInvariant(c, s, events[0]);
      RunKeepsBegun(c, Apply(c, s, events[0]), events[1..], k, begun || Enters(c, k, s, events[0]));
    }
  }

  /** The action of a stage has been cancelled before the policy goes on to a later stage. */
  lemma StageCancelsBeforeNext(c: Config, now: real, events: seq<Event>, s: State, k: nat)
    requires Run(c, Init(c, now), events) == At(s) && k < |c.stages| && k < |s.actions|
    requires Happened(c, Init(c, now), events, (u, e) => Enters(c, k, u, e))
    requires InPolicy(s.work.cont) && s.work.cont.k > k && s.actions[k].prepared
    ensures s.actions[k].cancels == 1
  {
    InitInvariant(c, now);
    RunKeepsBegun(c, Init(c, now), events, k, false);
  }

  /** The action of stage `k` cannot be started, or it is observed done. */
  predicate EndsStage(c: Config, k: nat, s: State, e: Event) {
    && e.C? && e.cont.Proceed? && k < |c.stages|
    && ((s.work.cont == StartAction(k) && c.stages[k].managed && !e.cont.up)
        || (s.work.cont == Observing(k) && e.cont.up))
  }

  predicate TimeIsUp(s: State) {
    s.now >= s.work.stageEnd
  }

  lemma StepEndsStage(c: Config, s: State, e: Event, k: nat)
    requires Invariant(c, s) && Enabled(s, e) && Apply(c, s, e).work.cont == CancelStage(k)
    ensures EndsStage(c, k, s, e) || TimeIsUp(Apply(c, s, e))
            || (s.work.cont == CancelStage(k) && (TimeIsUp(s) ==> TimeIsUp(Apply(c, s, e))))
  {
    match e {
      case L(l) =>
      case O(o) =>
      case C(q) => ContEndsStage(c, s, q, k);
    }
  }

  lemma ContEndsStage(c: Config, s: State, e: ContEvent, k: nat)
    requires Shaped(c, s) && ContEnabled(s, e) && Continue(c, s, e).work.cont == CancelStage(k)
    ensures EndsStage(c, k, s, C(e)) || TimeIsUp(Continue(c, s, e))
  {
    if !InPolicy(s.work.cont) {
      NotBackToPolicy(c, s, e);
    } else if e.Proceed? {
      PolicyEndsStage(c, s, e.up, e.settles, k);
    }
  }

  lemma PolicyEndsStage(c: Config, s: State, up: bool, settles: bool, k: nat)
    requires InPolicy(s.work.cont) && Shaped(c, s) && RunPolicy(c, s, up, settles).work.cont == CancelStage(k)
    ensures EndsStage(c, k, s, C(Proceed(up, settles))) || TimeIsUp(RunPolicy(c, s, up, settles))
  {
  }

  lemma {:induction false} RunEndsStage(c: Config, s: State, events: seq<Event>, k: nat)
    requires Invariant(c, s) && Run(c, s, events).At? && Run(c, s, events).state.work.cont == CancelStage(k)
    requires s.work.cont != CancelStage(k) || TimeIsUp(s)
    ensures Happened(c, s, events, (u, e) => EndsStage(c, k, u, e)) || TimeIsUp(Run(c, s, events).state)
    decreases events
  {
    if events != [] {
      var next := Apply(c, s, events[0]);
      StepKeepsInvariant(c, s, events[0]);
      if next.work.cont == CancelStage(k) {
        StepEndsStage(c, s, events[0], k);
      }
      if !EndsStage(c, k, s, events[0]) {
        RunEndsStage(c, next, events[1..], k);
      }
    }
  }

  /** A stage lasts until its action is observed done, unless it could not be started or the time is up. */
  lemma StageLasts(c: Config, now: real, events: seq<Event>, s: State, k: nat)
    requires Run(c, Init(c, now), events) == At(s) && s.work.cont == CancelStage(k)
    ensures Happened(c, Init(c, now), events, (u, e) => EndsStage(c, k, u, e)) || s.now >= s.work.stageEnd
  {
    InitInvariant(c, now);
    RunEndsStage(c, Init(c, now), events, k);
  }

  // ---------------------------------------------------------------- the deadline of a request

  /** A step that makes the first request. */
  predicate Requests(s: State, e: Event) {
    && !s.shutdown.requested
    && match e
       case L(l) => l.RequestFailed?
       case O(o) => o.ReaderRequest? || o.CallerRequest? || o.DeadlineRequest?
       case C(_) => false
  }

  /** When the first request was made. */
  function RequestTime(c: Config, s: State, events: seq<Event>): Option<real>
    decreases events
  {
    if events == [] || !Shaped(c, s) || !Enabled(s, events[0]) then None
    else if Requests(s, events[0]) then Some(s.now)
    else RequestTime(c, Apply(c, s, events[0]), events[1..])
  }

  lemma StepRequests(c: Config, s: State, e: Event)
    requires Invariant(c, s) && Enabled(s, e)
    ensures var t := Apply(c, s, e);
            && (t.shutdown.requested <==> s.shutdown.requested || Requests(s, e))
            && (Requests(s, e) ==> t.shutdown.end == s.now + c.grace)
            && (!Requests(s, e) ==> t.shutdown.end == s.shutdown.end)
  {
    if e.C? {
      ContLeavesSetup(c, s, e.cont);
    }
  }

  lemma {:induction false} RunRequests(c: Config, s: State, events: seq<Event>)
    requires Invariant(c, s) && Run(c, s, events).At?
    ensures var t := Run(c, s, events).state; var time := RequestTime(c, s, events);
            && (t.shutdown.requested <==> s.shutdown.requested || time.Some?)
            && (s.shutdown.requested ==> t.shutdown.end == s.shutdown.end)
            && (!s.shutdown.requested && time.Some? ==> t.shutdown.end == time.value + c.grace)
    decreases events
  {
    if events != [] {
      StepRequests(c, s, events[0]);
      StepKeepsInvariant(c, s, events[0]);
      RunRequests(c, Apply(c, s, events[0]), events[1..]);
    }
  }

  /** The deadline is the time of the first request and the grace, whatever is requested later. */
  lemma DeadlineIs(c: Config, now: real, events: seq<Event>, s: State)
    requires Run(c, Init(c, now), events) == At(s)
    ensures s.shutdown.requested <==> RequestTime(c, Init(c, now), events).Some?
    ensures s.shutdown.requested ==> s.shutdown.end == RequestTime(c, Init(c, now), events).value + c.grace
  {
    InitInvariant(c, now);
    RunRequests(c, Init(c, now), events);
  }

  // ---------------------------------------------------------------- who may read

  /** A transfer of the launch fails, or finds no stream to take over. */
  predicate TransferFails(s: State, e: Event) {
    && e.L? && e.launch.Transfer? && s.launcher.Transferring?
    && (!e.launch.ok || (s.launcher.i < |s.pipes| && !s.pipes[s.launcher.i].acquired))
  }

  predicate MakesReaders(l: Launcher) {
    l.Making? || l.Configuring? || l.Starting? || l.Tracking? || l.Arming? || l.Announcing?
  }

  /** The launcher goes on to readers only without a failed transfer. */
  predicate TransferInv(s: State) {
    && (MakesReaders(s.launcher) ==> !s.setup.errors)
    && (s.setup.errors ==> forall i :: 0 <= i < |s.pipes| ==> s.pipes[i].reader.Unborn?)
  }

  lemma StepTransfers(c: Config, s: State, e: Event)
    requires Invariant(c, s) && TransferInv(s) && Enabled(s, e)
    ensures TransferInv(Apply(c, s, e))
    ensures Apply(c, s, e).setup.errors <==> s.setup.errors || TransferFails(s, e)
  {
    match e {
      case L(l) => LaunchTransfers(c, s, l);
      case O(o) =>
      case C(k) => ContLeavesSetup(c, s, k);
    }
  }

  lemma LaunchTransfers(c: Config, s: State, e: LaunchEvent)
    requires Invariant(c, s) && TransferInv(s) && LaunchEnabled(s, e)
    ensures TransferInv(Launch(c, s, e))
    ensures Launch(c, s, e).setup.errors <==> s.setup.errors || TransferFails(s, L(e))
  {
    if e.Transfer? {
      forall i | 0 <= i < |s.pipes|
        ensures s.pipes[i].reader.Unborn?
      {
        assert Tracked(s.launcher, i, s.pipes[i]);
      }
    }
  }

  lemma {:induction false} RunTransfers(c: Config, s: State, events: seq<Event>)
    requires Invariant(c, s) && TransferInv(s) && Run(c, s, events).At?
    ensures var t := Run(c, s, events).state;
            TransferInv(t) && (t.setup.errors <==> s.setup.errors || Happened(c, s, events, TransferFails))
    decreases events
  {
    if events != [] {
      StepTransfers(c, s, events[0]);
      StepKeepsInvariant(c, s, events[0]);
      RunTransfers(c, Apply(c, s, events[0]), events[1..]);
    }
  }

  /** No reader is started for either stream when the transfer of one has failed. */
  lemma NoReaderAfterFailedTransfer(c: Config, now: real, events: seq<Event>, s: State, i: nat)
    requires Run(c, Init(c, now), events) == At(s) && i < |s.pipes|
    requires Happened(c, Init(c, now), events, TransferFails)
    ensures s.pipes[i].reader.Unborn?
  {
    InitInvariant(c, now);
    RunTransfers(c, Init(c, now), events);
  }

  // ---------------------------------------------------------------- a launch that fails

  /** Some step of the launch fails. */
  predicate LaunchFails(c: Config, s: State, e: Event) {
    && e.L?
    && match e.launch
       case Prepare(ok) =>
         !ok && s.launcher.Preparing? && s.launcher.k < |c.stages| && c.stages[s.launcher.k].managed
       case Factory(ok, _, _) => !ok
       case Transfer(_) => TransferFails(s, e)
       case Make(ok) => !ok
       case Configure(ok, _) => !ok
       case Start(_, raises) => raises
       case Announce(ok) => !ok
       case _ => false
  }

  /** The launch is bound to end in its own shutdown request. */
  predicate Doomed(s: State) {
    match s.launcher
    case Transferring(_) => s.setup.errors
    case Checking => s.setup.errors
    case Tracking(_, raised) => raised
    case Settling(failed) => failed
    case Failed => true
    case Done => s.shutdown.requested
    case _ => false
  }

  lemma StepDooms(c: Config, s: State, e: Event)
    requires Invariant(c, s) && Enabled(s, e)
    ensures Doomed(s) || LaunchFails(c, s, e) ==> Doomed(Apply(c, s, e))
  {
    match e {
      case L(l) =>
      case O(o) =>
      case C(k) => ContLeavesSetup(c, s, k);
    }
  }

  lemma {:induction false} RunDooms(c: Config, s: State, events: seq<Event>)
    requires Invariant(c, s) && Run(c, s, events).At?
    ensures Doomed(s) || Happened(c, s, events, (u, e) => LaunchFails(c, u, e)) ==> Doomed(Run(c, s, events).state)
    decreases events
  {
    if events != [] {
      StepDooms(c, s, events[0]);
      StepKeepsInvariant(c, s, events[0]);
      RunDooms(c, Apply(c, s, events[0]), events[1..]);
    }
  }

  /** A launch in which any step failed does not return without a shutdown request. */
  lemma FailedLaunchIsShutDown(c: Config, now: real, events: seq<Event>, s: State)
    requires Run(c, Init(c, now), events) == At(s) && s.launcher.Done?
    requires Happened(c, Init(c, now), events, (u, e) => LaunchFails(c, u, e))
    ensures s.shutdown.requested
  {
    InitInvariant(c, now);
    RunDooms(c, Init(c, now), events);
  }

  lemma {:induction false} RunDelivers(c: Config, s: State, events: seq<Event>)
    requires Invariant(c, s) && (s.shutdown.delivered ==> s.shutdown.requested) && Run(c, s, events).At?
    ensures var t := Run(c, s, events).state; t.shutdown.delivered ==> t.shutdown.requested
    decreases events
  {
    if events != [] {
      StepDelivers(c, s, events[0]);
      StepKeepsInvariant(c, s, events[0]);
      RunDelivers(c, Apply(c, s, events[0]), events[1..]);
    }
  }

  lemma StepDelivers(c: Config, s: State, e: Event)
    requires Invariant(c, s) && Enabled(s, e) && (s.shutdown.delivered ==> s.shutdown.requested)
    ensures var t := Apply(c, s, e); t.shutdown.delivered ==> t.shutdown.requested
  {
    if e.C? {
      ContLeavesSetup(c, s, e.cont);
    }
  }

  /** No result is handed out before a shutdown request. */
  lemma DeliveredAfterRequest(c: Config, s: State)
    requires Reachable(c, s) && s.shutdown.delivered
    ensures s.shutdown.requested
  {
    var now, events :| Run(c, Init(c, now), events) == At(s);
    InitInvariant(c, now);
    RunDelivers(c, Init(c, now), events);
  }

  // ---------------------------------------------------------------- streams that are closed to wake their reader

  predicate Wakes(p: Pipe) {
    p.acquired && (p.descriptorless || !p.fileno)
  }

  /** Behind a round of releases such a stream is released, whether its reader has stopped or not. */
  predicate WakeInv(s: State) {
    && (s.work.published || s.work.cont.Settle? || s.work.cont.Evaluate? || s.work.cont.Publish? ==>
          forall i :: 0 <= i < |s.pipes| && Wakes(s.pipes[i]) ==> s.pipes[i].released)
    && (s.work.cont.Release? ==>
          forall i :: 0 <= i < |s.pipes| && i < s.work.cont.i && Wakes(s.pipes[i]) ==> s.pipes[i].released)
  }

  lemma StepWakes(c: Config, s: State, e: Event)
    requires Invariant(c, s) && WaitInv(s) && WakeInv(s) && Enabled(s, e)
    ensures WakeInv(Apply(c, s, e))
  {
    match e {
      case L(l) => LaunchWakes(c, s, l);
      case O(o) =>
      case C(k) => ContWakes(c, s, k);
    }
  }

  lemma LaunchWakes(c: Config, s: State, e: LaunchEvent)
    requires Invariant(c, s) && WakeInv(s) && LaunchEnabled(s, e)
    ensures WakeInv(Launch(c, s, e))
  {
  }

  lemma ContWakes(c: Config, s: State, e: ContEvent)
    requires Invariant(c, s) && WaitInv(s) && WakeInv(s) && ContEnabled(s, e)
    ensures WakeInv(Continue(c, s, e))
  {
    if e.PolicyRaises? {
    } else if InPolicy(s.work.cont) {
      PolicyLeaves(c, s, e.up, e.settles);
      PolicyStaysBefore(c, s, e.up, e.settles);
      PolicyLeavesWork(c, s, e.up, e.settles);
    } else if Reaping(s.work.cont) {
      ReapWakes(s, e.up);
    } else if Sweeping(s.work.cont) {
      SweepWakes(c, s);
    } else if SettlingDown(s.work.cont) {
      SettleWakes(s, e.settles);
    }
  }

  lemma ReapWakes(s: State, up: bool)
    requires Reaping(s.work.cont) && WaitInv(s) && WakeInv(s)
    ensures WakeInv(Reap(s, up))
  {
  }

  lemma SweepWakes(c: Config, s: State)
    requires Shaped(c, s) && Sweeping(s.work.cont) && WakeInv(s)
    ensures WakeInv(Sweep(c, s))
  {
  }

  lemma SettleWakes(s: State, settles: bool)
    requires SettlingDown(s.work.cont) && WaitInv(s) && WakeInv(s)
    ensures WakeInv(SettleDown(s, settles))
  {
  }

  lemma {:induction false} RunWakes(c: Config, s: State, events: seq<Event>)
    requires Invariant(c, s) && WaitInv(s) && WakeInv(s)
    ensures Run(c, s, events).At? ==> WakeInv(Run(c, s, events).state)
    decreases events
  {
    if events != [] && Enabled(s, events[0]) {
      StepKeepsInvariant(c, s, events[0]);
      StepKeepsWait(c, s, events[0]);
      StepWakes(c, s, events[0]);
      RunWakes(c, Apply(c, s, events[0]), events[1..]);
    }
  }

  /** When a status has been published, every acquired stream without a descriptor has been closed. */
  lemma DescriptorlessIsClosed(c: Config, s: State, i: nat)
    requires Reachable(c, s) && s.work.published && i < |s.pipes| && Wakes(s.pipes[i])
    ensures s.pipes[i].released
  {
    var now, events :| Run(c, Init(c, now), events) == At(s);
    InitInvariant(c, now);
    RunWakes(c, Init(c, now), events);
  }

  // ---------------------------------------------------------------- the bounded wait

  /** The rounds after the first publication. */
  predicate Late(pc: Continuation) {
    pc.LateReap? || ((pc.Observe? || pc.Release?) && pc.late)
  }

  /** The first status is evaluated when everything awaited has settled, or the time is up. */
  predicate WaitInv(s: State) {
    && (Late(s.work.cont) ==> s.work.published)
    && ((s.work.cont.Evaluate? || s.work.cont.Publish?) && !s.work.published ==>
          !Unsettled(s) || s.now >= s.shutdown.end)
  }

  lemma StepKeepsWait(c: Config, s: State, e: Event)
    requires Invariant(c, s) && WaitInv(s) && Enabled(s, e)
    ensures WaitInv(Apply(c, s, e))
  {
    match e {
      case L(l) => LaunchKeepsWait(c, s, l);
      case O(o) =>
      case C(k) => ContKeepsWait(c, s, k);
    }
  }

  lemma LaunchKeepsWait(c: Config, s: State, e: LaunchEvent)
    requires Shaped(c, s) && LaunchInv(s) && WaitInv(s) && LaunchEnabled(s, e)
    ensures WaitInv(Launch(c, s, e))
  {
  }

  lemma ContKeepsWait(c: Config, s: State, e: ContEvent)
    requires Invariant(c, s) && WaitInv(s) && ContEnabled(s, e)
    ensures WaitInv(Continue(c, s, e))
  {
    if e.PolicyRaises? {
    } else if InPolicy(s.work.cont) {
      PolicyStaysBefore(c, s, e.up, e.settles);
    } else if SettlingDown(s.work.cont) {
      SettleKeepsWait(s, e.settles);
    }
  }

  lemma SettleKeepsWait(s: State, settles: bool)
    requires SettlingDown(s.work.cont) && WaitInv(s)
    ensures WaitInv(SettleDown(s, settles))
  {
  }

  lemma {:induction false} RunKeepsWait(c: Config, s: State, events: seq<Event>)
    requires Invariant(c, s) && WaitInv(s)
    ensures Run(c, s, events).At? ==> WaitInv(Run(c, s, events).state)
    decreases events
  {
    if events != [] && Enabled(s, events[0]) {
      StepKeepsInvariant(c, s, events[0]);
      StepKeepsWait(c, s, events[0]);
      RunKeepsWait(c, Apply(c, s, events[0]), events[1..]);
    }
  }

  /**
    The first status is never published early: before the shutdown time is up, every prepared action has
    settled and every stream closed to wake its reader has its reader stopped.
   */
  lemma FirstStatusWaits(c: Config, s: State)
    requires Reachable(c, s) && s.work.cont.Publish? && !s.work.published && s.now < s.shutdown.end
    ensures forall k :: 0 <= k < |s.actions| && s.actions[k].prepared ==> s.actions[k].settled
    ensures forall i :: 0 <= i < |s.pipes| && s.pipes[i].descriptorless && s.pipes[i].released ==> Safe(s.pipes[i])
  {
    var now, events :| Run(c, Init(c, now), events) == At(s);
    InitInvariant(c, now);
    RunKeepsWait(c, Init(c, now), events);
    assert !Unsettled(s);
  }
}
