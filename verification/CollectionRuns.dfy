/**
  Whole runs of the output collection: where the announced outcomes come from, when reads begin, what stop,
  cancel and failure lead to, and that the last flush is bounded.
 */
module CollectionRuns {
  import opened Common
  import opened ProcessCollection

  // ---------------------------------------------------------------- where outcomes come from

  /** Some step of the run is of that kind. */
  predicate Happened(callback: bool, s: State, events: seq<Event>, what: (State, Event) -> bool)
    decreases events
  {
    && events != [] && WellFormed(s) && Enabled(s, events[0])
    && (what(s, events[0]) || Happened(callback, Apply(callback, s, events[0]), events[1..], what))
  }

  predicate Undecided(s: State, i: nat) {
    i < |s.streams| && s.streams[i].outcome.Pending?
  }

  /** The reader of stream `i` reads the end of the file, and nothing has cancelled it. */
  predicate ReadsEnd(i: nat, s: State, e: Event) {
    e == R(i, ReadChunk(EndOfFile)) && !s.flags.cancel && Undecided(s, i)
  }

  /** A read of stream `i` raises. */
  predicate ReadRaises(i: nat, s: State, e: Event) {
    e == R(i, ReadChunk(Raises)) && Undecided(s, i)
  }

  lemma StepDecides(callback: bool, s: State, e: Event, i: nat)
    requires Invariant(callback, s) && Enabled(s, e) && i < STREAMS
    ensures var x, y := s.streams[i], Apply(callback, s, e).streams[i];
            && |Apply(callback, s, e).streams| == STREAMS
            && (y.outcome.Eof? <==> x.outcome.Eof? || ReadsEnd(i, s, e))
            && (y.outcome.ReadFailed? <==> x.outcome.ReadFailed? || ReadRaises(i, s, e))
  {
    match e {
      case R(j, r) =>
        if j == i {
          ReaderDecides(s.flags, Full(s), s.streams[i], r);
        }
      case S(x) => ShutdownDecides(s, x, i);
      case K(k) => CollectorDecides(callback, s, k, i);
    }
  }

  lemma ReaderDecides(flags: Flags, full: bool, x: Stream, e: ReaderEvent)
    requires ReaderEnabled(x, e)
    ensures var y := ReaderStep(flags, full, x, e);
            && (y.outcome.Eof? <==>
                  x.outcome.Eof? || (e == ReadChunk(EndOfFile) && !flags.cancel && x.outcome.Pending?))
            && (y.outcome.ReadFailed? <==> x.outcome.ReadFailed? || (e == ReadChunk(Raises) && x.outcome.Pending?))
  {
  }

  lemma ShutdownDecides(s: State, e: ShutdownEvent, i: nat)
    requires |s.streams| == STREAMS && ShutdownEnabled(s, e) && i < STREAMS
    ensures var x, y := s.streams[i], ShutdownStep(s, e).streams[i];
            && |ShutdownStep(s, e).streams| == STREAMS && x.reader == y.reader
            && (y.outcome.Eof? <==> x.outcome.Eof?) && (y.outcome.ReadFailed? <==> x.outcome.ReadFailed?)
  {
  }

  lemma CollectorDecides(callback: bool, s: State, e: CollectorEvent, i: nat)
    requires WellFormed(s) && CollectorEnabled(s, e) && i < STREAMS
    ensures var x, y := s.streams[i], CollectorStep(callback, s, e).streams[i];
            && |CollectorStep(callback, s, e).streams| == STREAMS && x.reader == y.reader
            && (y.outcome.Eof? <==> x.outcome.Eof?) && (y.outcome.ReadFailed? <==> x.outcome.ReadFailed?)
  {
  }

  lemma {:induction false} RunDecides(callback: bool, s: State, events: seq<Event>, i: nat)
    requires Invariant(callback, s) && Run(callback, s, events).At? && i < STREAMS
    ensures var t := Run(callback, s, events).state;
            && |t.streams| == STREAMS
            && (t.streams[i].outcome.Eof? <==>
                  s.streams[i].outcome.Eof? || Happened(callback, s, events, (u, e) => ReadsEnd(i, u, e)))
            && (t.streams[i].outcome.ReadFailed? <==>
                  s.streams[i].outcome.ReadFailed? || Happened(callback, s, events, (u, e) => ReadRaises(i, u, e)))
    decreases events
  {
    if events != [] {
      StepDecides(callback, s, events[0], i);
      StepKeepsInvariant(callback, s, events[0]);
      RunDecides(callback, Apply(callback, s, events[0]), events[1..], i);
    }
  }

  /** An announcement carries the outcome that was decided for its stream. */
  lemma AnnouncedIsDecided(callback: bool, s: State, i: nat, o: StreamOutcome)
    requires Invariant(callback, s) && End(i, o) in s.log
    ensures i < |s.streams| && o == s.streams[i].outcome && !o.Pending?
  {
    var a :| 0 <= a < |s.log| && s.log[a] == End(i, o);
    assert s.streams[i].notified;
    var b :| 0 <= b < |s.log| && s.log[b] == End(i, s.streams[i].outcome);
    assert StreamAt(callback, s, i);
    assert a == b;
  }

  /**
    What an end callback announces, over every run: a clean end only if the reader read the end of the file
    without being cancelled, a failure only if a read raised, in both cases before anything else was
    decided, and such a read is announced as that; every other stream that ends was aborted.
   */
  lemma AnnouncedOutcomeIs(callback: bool, start: State, events: seq<Event>, s: State, i: nat, o: StreamOutcome)
    requires Initial(start) && Run(callback, start, events) == At(s) && End(i, o) in s.log
    ensures o == if Happened(callback, start, events, (u, e) => ReadsEnd(i, u, e)) then Eof
                 else if Happened(callback, start, events, (u, e) => ReadRaises(i, u, e)) then ReadFailed
                 else Aborted
  {
    InitialInvariant(callback, start);
    RunKeepsInvariant(callback, start, events);
    AnnouncedIsDecided(callback, s, i, o);
    assert InitialStream(start.streams[i]);
    RunDecides(callback, start, events, i);
  }

  // ---------------------------------------------------------------- when reads begin

  /** The reader of stream `i` reads. */
  predicate Reads(i: nat, s: State, e: Event) {
    e.R? && e.i == i && e.reader.ReadChunk?
  }

  /** The start of a reader, up to the end of its first read. */
  predicate BeforeFirstRead(x: Stream) {
    x.reader == AtLoop(true) || x.reader == Reading
  }

  lemma StepBegins(callback: bool, s: State, e: Event, i: nat)
    requires Invariant(callback, s) && Enabled(s, e) && i < STREAMS && BeforeFirstRead(s.streams[i])
    ensures var t := Apply(callback, s, e);
            && |t.streams| == STREAMS
            && (BeforeFirstRead(t.streams[i]) || Reads(i, s, e) || t.flags.delivered)
  {
    match e {
      case R(j, r) =>
      case S(x) => ShutdownDecides(s, x, i);
      case K(k) => CollectorDecides(callback, s, k, i);
    }
  }

  /** Flags that stay set. */
  predicate FlagsGrow(a: Flags, b: Flags) {
    && (a.delivered ==> b.delivered) && (a.cancel ==> b.cancel) && (a.stop ==> b.stop) && (a.failed ==> b.failed)
  }

  lemma FlagsStay(callback: bool, s: State, e: Event)
    requires Invariant(callback, s) && Enabled(s, e)
    ensures FlagsGrow(s.flags, Apply(callback, s, e).flags)
  {
    match e {
      case R(j, r) =>
      case S(x) => ShutdownFlags(s, x);
      case K(k) => CollectorFlags(callback, s, k);
    }
  }

  lemma ShutdownFlags(s: State, e: ShutdownEvent)
    requires |s.streams| == STREAMS && ShutdownEnabled(s, e)
    ensures FlagsGrow(s.flags, ShutdownStep(s, e).flags)
    ensures ShutdownStep(s, e).flags.cancel <==> s.flags.cancel || Cancels(s, S(e))
  {
  }

  lemma CollectorFlags(callback: bool, s: State, e: CollectorEvent)
    requires WellFormed(s) && CollectorEnabled(s, e)
    ensures FlagsGrow(s.flags, CollectorStep(callback, s, e).flags)
    ensures CollectorStep(callback, s, e).flags.cancel <==> s.flags.cancel || Cancels(s, K(e))
  {
  }

  lemma {:induction false} DeliveredForGood(callback: bool, s: State, events: seq<Event>)
    requires Invariant(callback, s) && Run(callback, s, events).At?
    ensures s.flags.delivered ==> Run(callback, s, events).state.flags.delivered
    decreases events
  {
    if events != [] {
      FlagsStay(callback, s, events[0]);
      StepKeepsInvariant(callback, s, events[0]);
      DeliveredForGood(callback, Apply(callback, s, events[0]), events[1..]);
    }
  }

  lemma {:induction false} RunBegins(callback: bool, s: State, events: seq<Event>, i: nat)
    requires Invariant(callback, s) && Run(callback, s, events).At? && i < STREAMS
    requires BeforeFirstRead(s.streams[i])
    ensures var t := Run(callback, s, events).state;
            && |t.streams| == STREAMS
            && (BeforeFirstRead(t.streams[i]) || t.flags.delivered
                || Happened(callback, s, events, (u, e) => Reads(i, u, e)))
    decreases events
  {
    RunKeepsInvariant(callback, s, events);
    if events != [] {
      var next := Apply(callback, s, events[0]);
      StepBegins(callback, s, events[0], i);
      StepKeepsInvariant(callback, s, events[0]);
      if next.flags.delivered {
        DeliveredForGood(callback, next, events[1..]);
      } else if BeforeFirstRead(next.streams[i]) {
        RunBegins(callback, next, events[1..], i);
      }
    }
  }

  /** However soon shutdown comes, a started reader makes its first read, unless a result was delivered. */
  lemma FirstReadIsMade(callback: bool, start: State, events: seq<Event>, s: State, i: nat)
    requires Initial(start) && Run(callback, start, events) == At(s) && i < |start.streams|
    requires start.streams[i].reader == AtLoop(true)
    ensures i < |s.streams|
    ensures BeforeFirstRead(s.streams[i]) || s.flags.delivered
            || Happened(callback, start, events, (u, e) => Reads(i, u, e))
  {
    InitialInvariant(callback, start);
    RunBegins(callback, start, events, i);
  }

  /** The state in which no further read of a stream may begin. */
  predicate NoMoreReads(s: State, i: nat) {
    s.flags.cancel && s.flags.delivered && i < |s.streams| && !s.streams[i].reader.Reading?
  }

  lemma StepReadsNoMore(callback: bool, s: State, e: Event, i: nat)
    requires Invariant(callback, s) && Enabled(s, e) && NoMoreReads(s, i)
    ensures NoMoreReads(Apply(callback, s, e), i) && !Reads(i, s, e)
  {
    FlagsStay(callback, s, e);
    match e {
      case R(j, r) =>
      case S(x) => ShutdownDecides(s, x, i);
      case K(k) => CollectorDecides(callback, s, k, i);
    }
  }

  /** Once readers are cancelled and a result is delivered, no read begins. */
  lemma {:induction false} NoReadForADeliveredResult(callback: bool, s: State, events: seq<Event>, i: nat)
    requires Invariant(callback, s) && Run(callback, s, events).At? && NoMoreReads(s, i)
    ensures forall k :: 0 <= k < |events| ==> !Reads(i, s, events[k])
    decreases events
  {
    if events != [] {
      StepReadsNoMore(callback, s, events[0], i);
      StepKeepsInvariant(callback, s, events[0]);
      NoReadForADeliveredResult(callback, Apply(callback, s, events[0]), events[1..], i);
      forall k | 0 <= k < |events|
        ensures !Reads(i, s, events[k])
      {
        assert k > 0 ==> events[k] == events[1..][k - 1] && !Reads(i, Apply(callback, s, events[0]), events[k]);
      }
    }
  }

  // ---------------------------------------------------------------- stop, cancel and failure

  /** A first stop that does not drain, the collector's own included, or the cancel after the stop policy. */
  predicate Cancels(s: State, e: Event) {
    match e
    case S(Stop(drain)) => !drain && !s.flags.stop
    case S(Cancel) => true
    case K(Request(drain)) => !drain && !s.flags.stop
    case _ => false
  }

  predicate CancelInv(s: State) {
    s.flags.cancel ==> forall i :: 0 <= i < |s.streams| && s.streams[i].acquired ==> !s.streams[i].outcome.Pending?
  }

  lemma StepCancels(callback: bool, s: State, e: Event)
    requires Invariant(callback, s) && CancelInv(s) && Enabled(s, e)
    ensures CancelInv(Apply(callback, s, e))
    ensures Apply(callback, s, e).flags.cancel <==> s.flags.cancel || Cancels(s, e)
  {
    match e {
      case R(j, r) => ReaderKeepsOutcome(s.flags, Full(s), s.streams[j], r);
      case S(x) =>
        ShutdownFlags(s, x);
        ShutdownKeepsCancel(s, x);
      case K(k) =>
        CollectorFlags(callback, s, k);
        CollectorKeepsCancel(callback, s, k);
    }
  }

  lemma ReaderKeepsOutcome(flags: Flags, full: bool, x: Stream, e: ReaderEvent)
    requires ReaderEnabled(x, e)
    ensures var y := ReaderStep(flags, full, x, e);
            y.acquired == x.acquired && (!x.outcome.Pending? ==> !y.outcome.Pending?)
  {
  }

  lemma ShutdownKeepsCancel(s: State, e: ShutdownEvent)
    requires |s.streams| == STREAMS && ShutdownEnabled(s, e) && CancelInv(s)
    ensures CancelInv(ShutdownStep(s, e))
  {
  }

  lemma CollectorKeepsCancel(callback: bool, s: State, e: CollectorEvent)
    requires WellFormed(s) && CollectorEnabled(s, e) && CancelInv(s)
    ensures CancelInv(CollectorStep(callback, s, e))
  {
  }

  lemma {:induction false} RunCancels(callback: bool, s: State, events: seq<Event>)
    requires Invariant(callback, s) && CancelInv(s) && Run(callback, s, events).At?
    ensures var t := Run(callback, s, events).state;
            CancelInv(t) && (t.flags.cancel <==> s.flags.cancel || Happened(callback, s, events, Cancels))
    decreases events
  {
    if events != [] {
      StepCancels(callback, s, events[0]);
      StepKeepsInvariant(callback, s, events[0]);
      RunCancels(callback, Apply(callback, s, events[0]), events[1..]);
    }
  }

  /** Readers are cancelled exactly by such a step, and then no acquired stream is left without an outcome. */
  lemma CancelledIs(callback: bool, start: State, events: seq<Event>, s: State)
    requires Initial(start) && Run(callback, start, events) == At(s)
    ensures s.flags.cancel <==> Happened(callback, start, events, Cancels)
    ensures s.flags.cancel ==>
              forall i :: 0 <= i < |s.streams| && s.streams[i].acquired ==> !s.streams[i].outcome.Pending?
  {
    InitialInvariant(callback, start);
    RunCancels(callback, start, events);
  }

  /** After a stop, this chunk will not be queued any more. */
  predicate GivenUp(s: State, i: nat, chunk: nat) {
    && s.flags.stop && i < |s.streams| && chunk !in s.streams[i].puts
    && (s.streams[i].reader == Blocked(chunk) || chunk < Offset(s.streams[i]))
  }

  lemma StepGivesUp(callback: bool, s: State, e: Event, i: nat, chunk: nat)
    requires Invariant(callback, s) && Enabled(s, e) && GivenUp(s, i, chunk)
    ensures GivenUp(Apply(callback, s, e), i, chunk)
  {
    assert StreamAt(callback, s, i);
    FlagsStay(callback, s, e);
    match e {
      case R(j, r) =>
        if j == i {
          ReaderGivesUp(s.flags, Full(s), s.streams[i], r, chunk);
        }
      case S(x) => ShutdownLeavesPuts(s, x, i);
      case K(k) => CollectorLeavesPuts(callback, s, k, i);
    }
  }

  lemma ReaderGivesUp(flags: Flags, full: bool, x: Stream, e: ReaderEvent, chunk: nat)
    requires ReaderEnabled(x, e) && flags.stop && chunk !in x.puts && Ordered(x, true)
    requires x.reader == Blocked(chunk) || chunk < Offset(x)
    ensures var y := ReaderStep(flags, full, x, e);
            chunk !in y.puts && (y.reader == Blocked(chunk) || chunk < Offset(y))
  {
  }

  lemma ShutdownLeavesPuts(s: State, e: ShutdownEvent, i: nat)
    requires |s.streams| == STREAMS && ShutdownEnabled(s, e) && i < STREAMS
    ensures var x, y := s.streams[i], ShutdownStep(s, e).streams[i];
            && |ShutdownStep(s, e).streams| == STREAMS
            && y.reader == x.reader && y.puts == x.puts && y.readCount == x.readCount
  {
  }

  lemma CollectorLeavesPuts(callback: bool, s: State, e: CollectorEvent, i: nat)
    requires WellFormed(s) && CollectorEnabled(s, e) && i < STREAMS
    ensures var x, y := s.streams[i], CollectorStep(callback, s, e).streams[i];
            && |CollectorStep(callback, s, e).streams| == STREAMS
            && y.reader == x.reader && y.puts == x.puts && y.readCount == x.readCount
  {
  }

  /** A chunk that finds the queue full is given up once a stop is requested: nobody waits for the consumer. */
  lemma {:induction false} BlockedChunkIsGivenUp(callback: bool, s: State, events: seq<Event>, i: nat, chunk: nat)
    requires Invariant(callback, s) && Run(callback, s, events).At? && GivenUp(s, i, chunk)
    ensures GivenUp(Run(callback, s, events).state, i, chunk)
    decreases events
  {
    if events != [] {
      StepGivesUp(callback, s, events[0], i, chunk);
      StepKeepsInvariant(callback, s, events[0]);
      BlockedChunkIsGivenUp(callback, Apply(callback, s, events[0]), events[1..], i, chunk);
    }
  }

  lemma BlockedAtStop(callback: bool, s: State, i: nat)
    requires Reachable(callback, s) && s.flags.stop && i < |s.streams| && s.streams[i].reader.Blocked?
    ensures GivenUp(s, i, s.streams[i].reader.chunk)
  {
    ReachableInvariant(callback, s);
    assert StreamAt(callback, s, i);
  }

  /** A failed collection is neither in its loop nor about to invoke the chunk callback. */
  predicate FailInv(s: State) {
    s.flags.failed ==> !s.collector.Looping? && !s.collector.Got?
  }

  lemma StepFails(callback: bool, s: State, e: Event)
    requires Invariant(callback, s) && FailInv(s) && Enabled(s, e)
    ensures FailInv(Apply(callback, s, e))
    ensures s.flags.failed ==> Apply(callback, s, e).log == s.log || (e.K? && e.collector.Notify?)
  {
  }

  lemma {:induction false} RunFails(callback: bool, s: State, events: seq<Event>)
    requires Invariant(callback, s) && FailInv(s) && Run(callback, s, events).At?
    ensures FailInv(Run(callback, s, events).state)
    decreases events
  {
    if events != [] {
      StepFails(callback, s, events[0]);
      StepKeepsInvariant(callback, s, events[0]);
      RunFails(callback, Apply(callback, s, events[0]), events[1..]);
    }
  }

  lemma {:induction false} FailedRun(callback: bool, s: State, events: seq<Event>, i: nat)
    requires Invariant(callback, s) && FailInv(s) && Run(callback, s, events).At? && s.flags.failed && i < STREAMS
    ensures ChunksOf(Run(callback, s, events).state.log, i) == ChunksOf(s.log, i)
    decreases events
  {
    if events != [] {
      StepFails(callback, s, events[0]);
      StepKeepsInvariant(callback, s, events[0]);
      FlagsStay(callback, s, events[0]);
      if events[0].K? && events[0].collector.Notify? && s.collector.i < STREAMS {
        NotifyLeaves(callback, s, events[0].collector.interrupted, i);
      }
      FailedRun(callback, Apply(callback, s, events[0]), events[1..], i);
    }
  }

  /** Control flow escapes from a callback that was invoked, or the collection meets a defect. */
  predicate Breaks(callback: bool, s: State, e: Event) {
    match e
    case K(Fail) => true
    case K(Invoke(interrupted)) => interrupted && callback && !s.flags.delivered
    case K(Notify(interrupted)) =>
      && interrupted && s.collector.Notifying? && s.collector.i < |s.streams|
      && Ready(s.streams[s.collector.i], s.collector.next == ToEnd)
    case _ => false
  }

  lemma StepBreaks(callback: bool, s: State, e: Event)
    requires Invariant(callback, s) && Enabled(s, e)
    ensures Apply(callback, s, e).flags.failed <==> s.flags.failed || Breaks(callback, s, e)
  {
    match e {
      case R(j, r) =>
      case S(x) => ShutdownNeverFails(s, x);
      case K(k) => CollectorBreaks(callback, s, k);
    }
  }

  lemma ShutdownNeverFails(s: State, e: ShutdownEvent)
    requires |s.streams| == STREAMS && ShutdownEnabled(s, e)
    ensures ShutdownStep(s, e).flags.failed == s.flags.failed
  {
  }

  lemma CollectorBreaks(callback: bool, s: State, e: CollectorEvent)
    requires WellFormed(s) && CollectorEnabled(s, e)
    ensures CollectorStep(callback, s, e).flags.failed <==> s.flags.failed || Breaks(callback, s, K(e))
  {
    if e.Request? {
      ShutdownNeverFails(s, Stop(e.drain));
    } else if e.Notify? {
      NotifyBreaks(callback, s, e.interrupted);
    }
  }

  lemma NotifyBreaks(callback: bool, s: State, interrupted: bool)
    requires WellFormed(s) && s.collector.Notifying?
    ensures CollectorStep(callback, s, Notify(interrupted)).flags.failed
            <==> s.flags.failed || Breaks(callback, s, K(Notify(interrupted)))
  {
  }

  lemma {:induction false} RunBreaks(callback: bool, s: State, events: seq<Event>)
    requires Invariant(callback, s) && Run(callback, s, events).At?
    ensures Run(callback, s, events).state.flags.failed <==>
              s.flags.failed || Happened(callback, s, events, (u, e) => Breaks(callback, u, e))
    decreases events
  {
    if events != [] {
      StepBreaks(callback, s, events[0]);
      StepKeepsInvariant(callback, s, events[0]);
      RunBreaks(callback, Apply(callback, s, events[0]), events[1..]);
    }
  }

  /** A collection counts as failed exactly when that has happened. */
  lemma FailedIs(callback: bool, start: State, events: seq<Event>, s: State)
    requires Initial(start) && Run(callback, start, events) == At(s)
    ensures s.flags.failed <==> Happened(callback, start, events, (u, e) => Breaks(callback, u, e))
  {
    InitialInvariant(callback, start);
    RunBreaks(callback, start, events);
  }

  /** Once an interruption or a defect has failed a collection, no chunk callback is invoked any more. */
  lemma NoChunkAfterFailure(callback: bool, s: State, events: seq<Event>, i: nat)
    requires Reachable(callback, s) && s.flags.failed && Run(callback, s, events).At? && i < STREAMS
    ensures ChunksOf(Run(callback, s, events).state.log, i) == ChunksOf(s.log, i)
  {
    ReachableInvariant(callback, s);
    var start, before :| Initial(start) && Run(callback, start, before) == At(s);
    InitialInvariant(callback, start);
    RunFails(callback, start, before);
    FailedRun(callback, s, events, i);
  }

  /**
    Every round announces the streams whose end has come: with nothing left to hand over, one that was read
    to its end or failed, and an aborted one whose reader has stopped.
   */
  lemma RoundAnnounces(callback: bool, s: State, interrupted: bool)
    requires Reachable(callback, s) && s.collector.Notifying? && s.collector.i < |s.streams|
    ensures var i := s.collector.i; var x := s.streams[i];
            !x.outcome.Pending? && x.queued == 0 && (x.outcome.Aborted? ==> Safe(x)) ==>
              var after := Run(callback, s, [K(Notify(interrupted))]);
              after.At? && End(i, x.outcome) in after.state.log
  {
    ReachableInvariant(callback, s);
    var i := s.collector.i;
    var e := K(Notify(interrupted));
    assert [e][1..] == [];
    assert Run(callback, s, [e]) == At(Apply(callback, s, e));
    var t := Apply(callback, s, e);
    if Ready(s.streams[i], s.collector.next == ToEnd) {
      assert t.log[|s.log|] == End(i, s.streams[i].outcome);
    } else if s.streams[i].notified {
      assert End(i, s.streams[i].outcome) in s.log;
    }
  }

  // ---------------------------------------------------------------- the closed dispatch

  predicate AfterClose(pc: Collector) {
    pc.Flushing? || pc.Aborting? || Final(pc) || ((pc.Got? || pc.Counting?) && pc.flush)
    || (pc.Notifying? && pc.next == ToFlush)
  }

  predicate CloseInv(s: State) {
    AfterClose(s.collector) ==> s.flags.closed
  }

  lemma StepCloses(callback: bool, s: State, e: Event)
    requires Invariant(callback, s) && CloseInv(s) && Enabled(s, e)
    ensures CloseInv(Apply(callback, s, e)) && (s.flags.closed ==> Apply(callback, s, e).flags.closed)
  {
  }

  lemma {:induction false} RunCloses(callback: bool, s: State, events: seq<Event>)
    requires Invariant(callback, s) && CloseInv(s)
    ensures Run(callback, s, events).At? ==> CloseInv(Run(callback, s, events).state)
    decreases events
  {
    if events != [] && Enabled(s, events[0]) {
      StepCloses(callback, s, events[0]);
      StepKeepsInvariant(callback, s, events[0]);
      RunCloses(callback, Apply(callback, s, events[0]), events[1..]);
    }
  }

  lemma StepQueuesNothing(callback: bool, s: State, e: Event, i: nat)
    requires Invariant(callback, s) && Enabled(s, e) && s.flags.closed && i < STREAMS
    ensures |Apply(callback, s, e).streams| == STREAMS
    ensures Apply(callback, s, e).streams[i].puts == s.streams[i].puts
  {
    match e {
      case R(j, r) =>
      case S(x) => ShutdownLeavesPuts(s, x, i);
      case K(k) => CollectorLeavesPuts(callback, s, k, i);
    }
  }

  lemma {:induction false} ClosedRun(callback: bool, s: State, events: seq<Event>, i: nat)
    requires Invariant(callback, s) && CloseInv(s) && Run(callback, s, events).At? && s.flags.closed && i < STREAMS
    ensures |Run(callback, s, events).state.streams| == STREAMS
    ensures Run(callback, s, events).state.streams[i].puts == s.streams[i].puts
    decreases events
  {
    if events != [] {
      StepQueuesNothing(callback, s, events[0], i);
      StepCloses(callback, s, events[0]);
      StepKeepsInvariant(callback, s, events[0]);
      ClosedRun(callback, Apply(callback, s, events[0]), events[1..], i);
    }
  }

  /** While the collector flushes, and ever after, no reader queues another chunk: the flush is bounded. */
  lemma NothingIsQueuedWhileFlushing(callback: bool, s: State, events: seq<Event>, i: nat)
    requires Reachable(callback, s) && AfterClose(s.collector) && Run(callback, s, events).At? && i < STREAMS
    ensures i < |s.streams| && i < |Run(callback, s, events).state.streams|
    ensures Run(callback, s, events).state.streams[i].puts == s.streams[i].puts
  {
    ReachableInvariant(callback, s);
    var start, before :| Initial(start) && Run(callback, start, before) == At(s);
    InitialInvariant(callback, start);
    RunCloses(callback, start, before);
    ClosedRun(callback, s, events, i);
  }
}
