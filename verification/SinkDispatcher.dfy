/**
  `SinkDispatcher`: submitters, one worker thread and finish callers over a bounded queue and one
  lock, as a state machine. Every lock section, queue operation and sink invocation is one step, and
  any enabled step may come next.
 */
module SinkDispatcher {
  import opened Common

  type Chunk = int

  datatype Entry = Work(chunk: Chunk) | Sentinel

  /** Where the worker thread stands in `_run`. */
  datatype Worker =
    | Waiting                    // before `self._queue.get()`
    | Got(chunk: Chunk)          // an item taken, before the first lock section
    | Checked(chunk: Chunk, draining: bool)  // not failed at that section; `_draining` read there
    | DrainExpired(chunk: Chunk) // the drain budget is used up, before `_fail`
    | SinkFailed                 // the callback raised or was late, before `_fail`
    | Delivered                  // before the second lock section
    | Discarding                 // inside `_discard_remaining`
    | Exited

  /** Where the finish call that closes acceptance stands. */
  datatype Finisher =
    | Open
    | Closed                     // acceptance closed, before the sentinel
    | PutFailed                  // the sentinel did not fit in time, before `_fail`
    | Joining
    | Joined                     // the bounded join returned, before the liveness check
    | StillAlive                 // the worker was seen alive, before `_fail`
    | Returning
    | Returned(notice: bool, seen: seq<Chunk>)  // its answer, and everything submitted until then

  datatype State = State(
    capacity: nat,               // 0 means unbounded, as for queue.Queue
    queue: seq<Entry>,
    failed: bool,
    notice: bool,
    accepting: bool,
    draining: bool,
    worker: Worker,
    finisher: Finisher,
    submitted: seq<Chunk>,       // every chunk any submit call was given, in lock order
    accepted: seq<Chunk>,        // those it answered True for
    delivered: seq<Chunk>        // those the sink was invoked with
  )

  function Init(capacity: nat): State {
    State(capacity, [], false, false, true, false, Waiting, Open, [], [], [])
  }

  datatype Event =
    | Submit(chunk: Chunk)
    | Close
    | PutSentinel | PutTimesOut
    | FailPut
    | JoinReturns
    | SeeAlive | SeeDead
    | FailAlive
    | Return
    | LateFinish                 // a finish call that finds acceptance closed
    | Take
    | Check
    | ExpireDrain | FailDrain
    | Invoke(ok: bool)           // the sink; whether it returned in time
    | FailSink
    | Recheck
    | Discard

  predicate Full(s: State) {
    s.capacity > 0 && |s.queue| >= s.capacity
  }

  predicate Enabled(s: State, e: Event) {
    match e
    case Submit(_) => true
    case Close => s.finisher.Open? && s.accepting
    case PutSentinel => s.finisher.Closed? && !Full(s)
    case PutTimesOut => s.finisher.Closed? && Full(s)
    case FailPut => s.finisher.PutFailed?
    case JoinReturns => s.finisher.Joining?
    case SeeAlive => s.finisher.Joined? && !s.worker.Exited?
    case SeeDead => s.finisher.Joined? && s.worker.Exited?
    case FailAlive => s.finisher.StillAlive?
    case Return => s.finisher.Returning?
    case LateFinish => !s.accepting
    case Take => s.worker.Waiting? && s.queue != []
    case Check => s.worker.Got?
    case ExpireDrain => s.worker.Checked? && s.worker.draining
    case FailDrain => s.worker.DrainExpired?
    case Invoke(_) => s.worker.Checked?
    case FailSink => s.worker.SinkFailed?
    case Recheck => s.worker.Delivered?
    case Discard => s.worker.Discarding?
  }

  /** `_fail`. */
  function Fail(s: State): State {
    s.(failed := true, notice := true)
  }

  function Apply(s: State, e: Event): State
    requires Enabled(s, e)
  {
    match e
    case Submit(c) =>
      if s.failed || !s.accepting || Full(s) then s.(notice := true, submitted := s.submitted + [c])
      else s.(queue := s.queue + [Work(c)], submitted := s.submitted + [c], accepted := s.accepted + [c])
    case Close => s.(accepting := false, draining := true, finisher := Closed)
    case PutSentinel => s.(queue := s.queue + [Sentinel], finisher := Joining)
    case PutTimesOut => s.(finisher := PutFailed)
    case FailPut => Fail(s).(finisher := Joining)
    case JoinReturns => s.(finisher := Joined)
    case SeeAlive => s.(finisher := StillAlive)
    case SeeDead => s.(finisher := Returning)
    case FailAlive => Fail(s).(finisher := Returning)
    case Return => s.(finisher := Returned(s.notice, s.submitted))
    case LateFinish => s
    case Take =>
      s.(queue := s.queue[1..],
         worker := if s.queue[0].Sentinel? then Exited else Got(s.queue[0].chunk))
    case Check =>
      if s.failed then s.(worker := Waiting) else s.(worker := Checked(s.worker.chunk, s.draining))
    case ExpireDrain => s.(worker := DrainExpired(s.worker.chunk))
    case FailDrain => Fail(s).(worker := Discarding)
    case Invoke(ok) =>
      s.(delivered := s.delivered + [s.worker.chunk], worker := if ok then Delivered else SinkFailed)
    case FailSink => Fail(s).(worker := Delivered)
    case Recheck => s.(worker := if s.failed then Discarding else Waiting)
    case Discard =>
      if s.queue == [] then s.(worker := Exited)
      else s.(queue := s.queue[1..], worker := if s.queue[0].Sentinel? then Exited else Discarding)
  }

  function Run(s: State, events: seq<Event>): Outcome<State>
    decreases events
  {
    if events == [] then At(s)
    else if Enabled(s, events[0]) then Run(Apply(s, events[0]), events[1..])
    else Stuck
  }

  ghost predicate Reachable(s: State) {
    exists capacity: nat, events :: Run(Init(capacity), events) == At(s)
  }

  // ---------------------------------------------------------------- what every step keeps

  function Chunks(queue: seq<Entry>): seq<Chunk> {
    if queue == [] then []
    else (if queue[0].Work? then [queue[0].chunk] else []) + Chunks(queue[1..])
  }

  function InFlight(w: Worker): seq<Chunk> {
    match w
    case Got(c) => [c]
    case Checked(c, _) => [c]
    case DrainExpired(c) => [c]
    case _ => []
  }

  /** No accepted chunk has been dropped: all of them are delivered, in flight or queued, in order. */
  predicate Intact(s: State) {
    s.accepted == s.delivered + InFlight(s.worker) + Chunks(s.queue)
  }

  /** The sentinel is the last entry ever queued, and only once acceptance is closed. */
  predicate SentinelLast(queue: seq<Entry>) {
    forall i :: 0 <= i < |queue| && queue[i].Sentinel? ==> i == |queue| - 1
  }

  predicate NoSentinel(queue: seq<Entry>) {
    forall i :: 0 <= i < |queue| ==> queue[i].Work?
  }

  /** How the queue, the worker and the closing finish call stand to one another. */
  predicate Protocol(s: State) {
    && (s.failed ==> s.notice)
    && SentinelLast(s.queue)
    && (s.finisher.Open? <==> s.accepting)
    && (s.finisher.Open? || s.finisher.Closed? || s.finisher.PutFailed? ==> NoSentinel(s.queue))
    && (s.worker.Discarding? ==> s.failed)
    && (s.worker.Exited? && !s.failed ==>
          s.queue == [] && !s.accepting && !s.finisher.Closed? && !s.finisher.PutFailed?)
    && (s.finisher.Returning? && !s.notice ==> s.worker.Exited?)
    && (s.finisher.Returned? && s.finisher.notice ==> s.notice)
  }

  /** What has become of the chunks. */
  predicate Ledger(s: State) {
    // Chunks are lost only after a failure was recorded, and refusals are recorded at once.
    && (s.failed || Intact(s))
    && (s.notice || s.submitted == s.accepted)
    // The sink is never invoked again once a chunk was lost, so it has seen a prefix.
    && s.delivered <= s.accepted
    && (s.worker.Checked? ==> s.delivered + [s.worker.chunk] <= s.accepted)
    // What a finish call that answered without a notice has promised.
    && (s.finisher.Returned? && !s.finisher.notice ==>
          s.worker.Exited? && s.delivered == s.accepted == s.finisher.seen)
  }

  predicate Invariant(s: State) {
    Protocol(s) && Ledger(s)
  }

  lemma {:induction false} ChunksAppend(a: seq<Entry>, b: seq<Entry>)
    ensures Chunks(a + b) == Chunks(a) + Chunks(b)
  {
    if a == [] {
      assert a + b == b;
    } else {
      assert (a + b)[1..] == a[1..] + b;
      ChunksAppend(a[1..], b);
      var first := if a[0].Work? then [a[0].chunk] else [];
      assert first + (Chunks(a[1..]) + Chunks(b)) == first + Chunks(a[1..]) + Chunks(b);
    }
  }

  lemma QueueKept(s: State, e: Event)
    requires Intact(s) && Enabled(s, e)
    ensures Apply(s, e).failed || Intact(Apply(s, e)) || s.worker.Discarding?
  {
    if e.Submit? {
      AppendKept(s, Work(e.chunk));
    } else if e.PutSentinel? {
      AppendKept(s, Sentinel);
    } else if e.Take? {
      TakeKept(s);
    }
  }

  lemma AppendKept(s: State, last: Entry)
    requires Intact(s)
    ensures var t := s.(queue := s.queue + [last]);
            s.accepted + Chunks([last]) == t.delivered + InFlight(t.worker) + Chunks(t.queue)
  {
    ChunksAppend(s.queue, [last]);
    var sent := s.delivered + InFlight(s.worker);
    assert sent + (Chunks(s.queue) + Chunks([last])) == sent + Chunks(s.queue) + Chunks([last]);
  }

  lemma TakeKept(s: State)
    requires Intact(s) && Enabled(s, Take)
    ensures Intact(Apply(s, Take))
  {
    var first := if s.queue[0].Work? then [s.queue[0].chunk] else [];
    assert Chunks(s.queue) == first + Chunks(s.queue[1..]);
    assert s.delivered + [] + (first + Chunks(s.queue[1..])) == s.delivered + first + Chunks(s.queue[1..]);
  }

  lemma StepKeepsProtocol(s: State, e: Event)
    requires Protocol(s) && Enabled(s, e)
    ensures Protocol(Apply(s, e))
  {
  }

  lemma StepKeepsInvariant(s: State, e: Event)
    requires Invariant(s) && Enabled(s, e)
    ensures Invariant(Apply(s, e))
  {
    StepKeepsProtocol(s, e);
    if !s.failed {
      QueueKept(s, e);
    }
  }

  lemma {:induction false} RunKeepsInvariant(s: State, events: seq<Event>)
    requires Invariant(s)
    ensures Run(s, events).At? ==> Invariant(Run(s, events).state)
    decreases events
  {
    if events != [] && Enabled(s, events[0]) {
      StepKeepsInvariant(s, events[0]);
      RunKeepsInvariant(Apply(s, events[0]), events[1..]);
    }
  }

  lemma ReachableInvariant(s: State)
    requires Reachable(s)
    ensures Invariant(s)
  {
    var capacity: nat, events :| Run(Init(capacity), events) == At(s);
    RunKeepsInvariant(Init(capacity), events);
  }

  // ---------------------------------------------------------------- the promises

  /**
    No silent loss: when the finish call that closes acceptance answers without a notice, every
    chunk submitted until that answer was accepted, and the sink has been given exactly those, once
    each and in acceptance order. It stays so whatever is called afterwards.
   */
  lemma NoSilentLoss(s: State)
    requires Reachable(s) && s.finisher.Returned? && !s.finisher.notice
    ensures s.delivered == s.accepted == s.finisher.seen
    ensures s.worker.Exited?
  {
    ReachableInvariant(s);
  }

  /** Whatever fails, the sink sees a prefix of what was accepted: nothing reordered or repeated. */
  lemma SinkSeesPrefix(s: State)
    requires Reachable(s)
    ensures s.delivered <= s.accepted
    ensures !s.notice ==> s.submitted == s.accepted == s.delivered + InFlight(s.worker) + Chunks(s.queue)
  {
    ReachableInvariant(s);
  }

  /** The notice is written once: nothing clears it, and `_fail` and refusals leave it recorded. */
  lemma {:induction false} NoticeIsPermanent(s: State, events: seq<Event>)
    requires Run(s, events).At?
    ensures Grown(s, Run(s, events).state)
    decreases events
  {
    if events != [] {
      StepGrows(s, events[0]);
      NoticeIsPermanent(Apply(s, events[0]), events[1..]);
    }
  }

  /** Recorded facts stay recorded, and the logs only grow. */
  predicate Grown(s: State, t: State) {
    && (s.notice ==> t.notice)
    && (s.failed ==> t.failed)
    && s.delivered <= t.delivered
    && s.accepted <= t.accepted
    && (s.finisher.Returned? ==> t.finisher == s.finisher)
  }

  lemma StepGrows(s: State, e: Event)
    requires Enabled(s, e)
    ensures Grown(s, Apply(s, e))
  {
  }

  /** A step that records a sink-contract or finalization failure. */
  predicate Fails(e: Event) {
    e.FailPut? || e.FailAlive? || e.FailDrain? || e.FailSink?
  }

  /** Without such a step no accepted chunk is ever dropped, and an exited worker has drained all. */
  lemma {:induction false} CompliantSinkDrainsAll(capacity: nat, events: seq<Event>)
    requires Run(Init(capacity), events).At?
    requires forall i :: 0 <= i < |events| ==> !Fails(events[i])
    ensures var s := Run(Init(capacity), events).state;
            Intact(s) && (s.worker.Exited? ==> s.delivered == s.accepted)
  {
    RunKeepsInvariant(Init(capacity), events);
    NeverFails(Init(capacity), events);
  }

  lemma {:induction false} NeverFails(s: State, events: seq<Event>)
    requires !s.failed && Run(s, events).At?
    requires forall i :: 0 <= i < |events| ==> !Fails(events[i])
    ensures !Run(s, events).state.failed
    decreases events
  {
    if events != [] {
      assert !Fails(events[0]);
      NeverFails(Apply(s, events[0]), events[1..]);
    }
  }

  /** The worker is between two items. */
  predicate BetweenItems(w: Worker) {
    w.Waiting? || w.SinkFailed? || w.Delivered?
  }

  /**
    A finish call that finds acceptance already closed returns the notice at once. After its answer "no
    notice", a worker that is no longer alive has delivered everything ever submitted; the caller can
    see that by `is_alive`. A live worker has done so exactly when it stands between two items and at
    most the sentinel is queued, which that call does not wait for.
   */
  lemma LateFinishPromise(s: State)
    requires Reachable(s) && Enabled(s, LateFinish) && !s.notice
    ensures s.submitted == s.accepted
    ensures s.worker.Exited? ==> s.delivered == s.submitted
    ensures !s.worker.Exited? ==>
              (s.delivered == s.submitted <==> BetweenItems(s.worker) && (s.queue == [] || s.queue == [Sentinel]))
  {
    ReachableInvariant(s);
    assert |s.accepted| == |s.delivered| + |InFlight(s.worker)| + |Chunks(s.queue)|;
    NoChunks(s.queue);
  }

  /** A queue whose sentinel is last and which holds no chunk. */
  lemma NoChunks(queue: seq<Entry>)
    requires SentinelLast(queue)
    ensures Chunks(queue) == [] <==> queue == [] || queue == [Sentinel]
  {
    if queue != [] && queue[0].Sentinel? {
      assert queue == [queue[0]];
    }
  }

  /** One submit, the closing finish call, and a second finish call before the worker has run. */
  lemma LateFinishCanAnswerEarly()
    ensures exists s :: Reachable(s) && Enabled(s, LateFinish) && !s.notice && s.delivered != s.accepted
  {
    var a := Init(0);
    var b := Apply(a, Submit(7));
    var c := Apply(b, Close);
    var events := [Submit(7), Close];
    assert events[1..] == [Close] && [Close][1..] == [];
    assert Run(c, []) == At(c);
    assert Run(b, [Close]) == At(c);
    assert Run(a, events) == At(c);
    assert Reachable(c);
  }

  // ---------------------------------------------------------------- what a notice means

  /** Some step of the run is of that kind. */
  predicate Happened(s: State, events: seq<Event>, what: (State, Event) -> bool)
    decreases events
  {
    && events != [] && Enabled(s, events[0])
    && (what(s, events[0]) || Happened(Apply(s, events[0]), events[1..], what))
  }

  /** A submit that finds acceptance closed, a failure recorded or no room. */
  predicate Turns(s: State, e: Event) {
    e.Submit? && (!s.accepting || s.failed || (s.capacity > 0 && |s.queue| >= s.capacity))
  }

  /** A failure is recorded: of the sentinel, the join, the drain budget or the sink. */
  predicate Records(s: State, e: Event) {
    e.FailPut? || e.FailAlive? || e.FailDrain? || e.FailSink?
  }

  /** A submit is accepted, at the end of the queue, exactly when it is not turned away. */
  lemma SubmitIsAccepted(s: State, c: Chunk)
    ensures var t := Apply(s, Submit(c));
            && t.submitted == s.submitted + [c]
            && (Turns(s, Submit(c)) ==> t.accepted == s.accepted && t.queue == s.queue && t.notice)
            && (!Turns(s, Submit(c)) ==>
                  t.accepted == s.accepted + [c] && t.queue == s.queue + [Work(c)] && t.notice == s.notice)
  {
  }

  lemma StepNotices(s: State, e: Event)
    requires Enabled(s, e) && (s.failed ==> s.notice)
    ensures Apply(s, e).notice <==> s.notice || Turns(s, e) || Records(s, e)
    ensures Apply(s, e).failed <==> s.failed || Records(s, e)
  {
  }

  lemma {:induction false} RunNotices(s: State, events: seq<Event>)
    requires Invariant(s) && Run(s, events).At?
    ensures var t := Run(s, events).state;
            && (t.notice <==> s.notice || Happened(s, events, Turns) || Happened(s, events, Records))
            && (t.failed <==> s.failed || Happened(s, events, Records))
    decreases events
  {
    if events != [] {
      StepKeepsInvariant(s, events[0]);
      StepNotices(s, events[0]);
      RunNotices(Apply(s, events[0]), events[1..]);
    }
  }

  /**
    The truncation notice is there exactly when a submit was turned away or a failure was recorded; as long
    as neither happened every submit has been accepted.
   */
  lemma NoticeMeans(capacity: nat, events: seq<Event>, s: State)
    requires Run(Init(capacity), events) == At(s)
    ensures s.notice <==> Happened(Init(capacity), events, Turns) || Happened(Init(capacity), events, Records)
    ensures !s.notice ==> s.submitted == s.accepted
  {
    RunNotices(Init(capacity), events);
    assert Reachable(s);
    ReachableInvariant(s);
  }

  // ---------------------------------------------------------------- the drain budget

  /** The drain budget begins with the closing finish call. */
  predicate DrainInv(s: State) {
    && (s.draining <==> !s.accepting)
    && (s.worker.DrainExpired? || (s.worker.Checked? && s.worker.draining) ==> s.draining)
  }

  lemma {:induction false} RunDrains(s: State, events: seq<Event>)
    requires Invariant(s) && DrainInv(s)
    ensures Run(s, events).At? ==> DrainInv(Run(s, events).state)
    decreases events
  {
    if events != [] && Enabled(s, events[0]) {
      StepKeepsInvariant(s, events[0]);
      RunDrains(Apply(s, events[0]), events[1..]);
    }
  }

  /** The worker is under the drain budget exactly from the closing finish call on, and fails by it only then. */
  lemma DrainsOnceClosed(s: State)
    requires Reachable(s)
    ensures s.draining <==> !s.accepting
    ensures s.worker.DrainExpired? ==> !s.accepting
  {
    var capacity: nat, events :| Run(Init(capacity), events) == At(s);
    RunDrains(Init(capacity), events);
  }

  // ---------------------------------------------------------------- how the worker ends

  /** The closing call has reached the worker or has recorded why not, and an exited worker leaves no chunk. */
  predicate EndInv(s: State) {
    && (!s.accepting && !s.finisher.Closed? && !s.finisher.PutFailed? ==>
          s.failed || Sentinel in s.queue || s.worker.Exited?)
    && (s.worker.Exited? ==> Chunks(s.queue) == [] && (s.failed || !s.accepting))
  }

  lemma StepEnds(s: State, e: Event)
    requires Invariant(s) && EndInv(s) && Enabled(s, e)
    ensures EndInv(Apply(s, e))
  {
    if e.Submit? || e.PutSentinel? {
      var last := if e.Submit? then Work(e.chunk) else Sentinel;
      ChunksAppend(s.queue, [last]);
      assert [last][1..] == [];
    } else if (e.Take? || e.Discard?) && s.queue != [] {
      FirstTaken(s.queue);
    }
  }

  lemma FirstTaken(queue: seq<Entry>)
    requires queue != [] && SentinelLast(queue)
    ensures queue[0].Sentinel? ==> queue[1..] == []
    ensures queue[0].Work? ==> (Sentinel in queue <==> Sentinel in queue[1..])
  {
    assert queue == [queue[0]] + queue[1..];
  }

  lemma {:induction false} RunEnds(s: State, events: seq<Event>)
    requires Invariant(s) && EndInv(s)
    ensures Run(s, events).At? ==> EndInv(Run(s, events).state)
    decreases events
  {
    if events != [] && Enabled(s, events[0]) {
      StepEnds(s, events[0]);
      StepKeepsInvariant(s, events[0]);
      RunEnds(Apply(s, events[0]), events[1..]);
    }
  }

  /**
    Behind the sentinel's put, the worker will meet the sentinel, has exited, or a failure is on record; and
    a worker that has exited has emptied the queue of chunks, whether it delivered or discarded them.
   */
  lemma WorkerIsTold(s: State)
    requires Reachable(s)
    ensures s.finisher.Joining? || s.finisher.Joined? || s.finisher.Returning? || s.finisher.Returned? ==>
              s.failed || Sentinel in s.queue || s.worker.Exited?
    ensures s.worker.Exited? ==> Chunks(s.queue) == []
  {
    var capacity: nat, events :| Run(Init(capacity), events) == At(s);
    RunEnds(Init(capacity), events);
    ReachableInvariant(s);
  }
}
