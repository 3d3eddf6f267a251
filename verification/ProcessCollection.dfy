/**
  Collection of the captured output: two readers feed one bounded queue, the collector invokes the
  chunk and end callbacks, and shutdown may stop and cancel at any moment. The n-th chunk read from a
  stream is identified by n.
 */
module ProcessCollection {
  import opened Common

  const STREAMS: nat := 2
  const QUEUE_LIMIT: nat := 32

  datatype StreamOutcome = Pending | Eof | ReadFailed | Aborted

  /** Where a reader stands in `_read`. */
  datatype Reader =
    | NotStarted
    | AtLoop(first: bool)
    | Reading
    | Pushing(chunk: nat)        // before an attempt to queue its chunk
    | Blocked(chunk: nat)        // the queue was full
    | Polling
    | Exiting                    // out of the loop; it queues nothing more
    | Stopped                    // the stop barrier is set

  datatype Stream = Stream(
    acquired: bool,
    reader: Reader,
    outcome: StreamOutcome,
    queued: int,                 // the source's count of chunks queued or in the collector's hands
    readCount: nat,              // chunks read so far
    puts: seq<nat>,              // chunks queued so far
    taken: seq<nat>,             // chunks the collector has finished with
    notified: bool)

  datatype Callback = Chunk(stream: nat, chunk: nat) | End(stream: nat, outcome: StreamOutcome)

  datatype Next = ToLoop | ToBreak | ToShutdown | ToFlush | ToEnd

  /** Where the collector stands in `_collect`. */
  datatype Collector =
    | Looping
    | Got(stream: nat, chunk: nat, flush: bool)   // before the chunk callback
    | Counting(stream: nat, chunk: nat, flush: bool)  // before the count is lowered
    | Notifying(i: nat, next: Next)               // inside `notify`
    | Requesting                                  // before its own shutdown request
    | Closing                                     // before dispatch is closed
    | Flushing
    | Aborting(i: nat)
    | Finished

  datatype Flags = Flags(
    stop: bool,
    cancel: bool,
    delivered: bool,             // a result was handed to some caller
    closed: bool,                // dispatch is closed
    failed: bool,                // the collector holds a failure of this collection
    drained: bool)               // its loop ended with nothing left and no stop requested

  datatype State = State(
    streams: seq<Stream>,
    queue: seq<(nat, nat)>,
    flags: Flags,
    collector: Collector,
    log: seq<Callback>)          // every callback invoked, in order

  /** Launch acquired some streams and started some of their readers. */
  predicate Initial(s: State) {
    && |s.streams| == STREAMS
    && (forall i :: 0 <= i < STREAMS ==> InitialStream(s.streams[i]))
    && s.queue == [] && s.log == []
    && s.flags == Flags(false, false, false, false, false, false)
    && s.collector == Looping
  }

  predicate InitialStream(x: Stream) {
    && (x.reader == NotStarted || (x.acquired && x.reader == AtLoop(true)))
    && x == Stream(x.acquired, x.reader, Pending, 0, 0, [], [], false)
  }

  // ---------------------------------------------------------------- readers

  datatype ReadResult = NothingYet | Data | EndOfFile | Raises

  datatype ReaderEvent =
    | TestLoop
    | ReadChunk(result: ReadResult)
    | Push
    | Retry
    | Poll(leaves: bool, raises: bool)
    | Exit

  predicate ReaderEnabled(x: Stream, e: ReaderEvent) {
    match e
    case TestLoop => x.reader.AtLoop?
    case ReadChunk(_) => x.reader.Reading?
    case Push => x.reader.Pushing?
    case Retry => x.reader.Blocked?
    case Poll(_, _) => x.reader.Polling?
    case Exit => x.reader.Exiting?
  }

  /** `_set_outcome`: the first terminal outcome stays. */
  function WithOutcome(x: Stream, outcome: StreamOutcome): Stream {
    if x.outcome.Pending? then x.(outcome := outcome) else x
  }

  predicate Full(s: State) {
    |s.queue| >= QUEUE_LIMIT
  }

  /** The stream after its reader's step; whether a chunk is queued with it is `Queues`. */
  function ReaderStep(flags: Flags, full: bool, x: Stream, e: ReaderEvent): Stream
    requires ReaderEnabled(x, e)
  {
    match e
    case TestLoop =>
      x.(reader := if !flags.cancel || (x.reader.first && !flags.delivered) then Reading else Exiting)
    case ReadChunk(NothingYet) => x.(reader := Polling)
    case ReadChunk(Data) => x.(reader := Pushing(x.readCount), readCount := x.readCount + 1)
    case ReadChunk(EndOfFile) => WithOutcome(x, if flags.cancel then Aborted else Eof).(reader := Exiting)
    case ReadChunk(Raises) => WithOutcome(x, ReadFailed).(reader := Exiting)
    case Push =>
      if flags.closed || flags.delivered then x.(reader := Polling)
      else if full then x.(reader := Blocked(x.reader.chunk))
      else x.(reader := Polling, queued := x.queued + 1, puts := x.puts + [x.reader.chunk])
    case Retry => x.(reader := if flags.stop then Polling else Pushing(x.reader.chunk))
    case Poll(leaves, raises) =>
      if raises then WithOutcome(x, Aborted).(reader := Exiting)
      else x.(reader := if leaves then Exiting else AtLoop(false))
    case Exit => WithOutcome(x, Aborted).(reader := Stopped)
  }

  predicate Queues(flags: Flags, full: bool, x: Stream, e: ReaderEvent) {
    e.Push? && x.reader.Pushing? && !flags.closed && !flags.delivered && !full
  }

  // ---------------------------------------------------------------- shutdown from elsewhere

  datatype ShutdownEvent =
    | Stop(drain: bool)          // the locked part of a first `_shutdown`
    | Cancel                     // the continuation, after the stop policy
    | Deliver

  predicate ShutdownEnabled(s: State, e: ShutdownEvent) {
    e.Stop? || s.flags.stop
  }

  /** `_cancel_readers_locked` on one stream. */
  function Cancelled(x: Stream): Stream {
    if x.acquired then WithOutcome(x, Aborted) else x
  }

  function CancelReaders(s: State): State
    requires |s.streams| == STREAMS
  {
    s.(streams := [Cancelled(s.streams[0]), Cancelled(s.streams[1])], flags := s.flags.(cancel := true))
  }

  function ShutdownStep(s: State, e: ShutdownEvent): State
    requires |s.streams| == STREAMS && ShutdownEnabled(s, e)
  {
    match e
    case Stop(drain) =>
      if s.flags.stop then s
      else
        var stopped := s.(flags := s.flags.(stop := true));
        if drain then stopped else CancelReaders(stopped)
    case Cancel => CancelReaders(s)
    case Deliver => s.(flags := s.flags.(delivered := true))
  }

  // ---------------------------------------------------------------- the collector

  /** A reader that will not queue anything again. */
  predicate Done(x: Stream) {
    x.reader.NotStarted? || x.reader.Exiting? || x.reader.Stopped?
  }

  /** `_safe`. */
  predicate Safe(x: Stream) {
    x.reader.NotStarted? || x.reader.Stopped?
  }

  /** `notify`: the stream's end may be announced. */
  predicate Ready(x: Stream, force: bool) {
    && !x.notified
    && !x.outcome.Pending?
    && (force || (x.queued == 0 && (x.outcome != Aborted || Safe(x))))
  }

  datatype CollectorEvent =
    | Take                       // an item from the queue
    | Empty                      // the timed get found nothing
    | Leave                      // the loop condition is false, and the child has exited or stop is set
    | Fail                       // an unexpected exception inside the guarded part
    | Invoke(interrupted: bool)  // the chunk callback; whether control flow escaped from it
    | Count
    | Notify(interrupted: bool)
    | Request(drain: bool)
    | Close
    | FlushEnds
    | Abort

  predicate CollectorEnabled(s: State, e: CollectorEvent) {
    match e
    case Take => (s.collector.Looping? || (s.collector.Flushing? && !s.flags.failed)) && s.queue != []
    case Empty => s.collector.Looping? && s.queue == []
    case Leave => s.collector.Looping? && s.queue == [] && forall i :: 0 <= i < |s.streams| ==> Safe(s.streams[i])
    case Fail => s.collector.Looping? || (s.collector.Notifying? && s.collector.next == ToShutdown)
    case Invoke(_) => s.collector.Got?
    case Count => s.collector.Counting?
    case Notify(_) => s.collector.Notifying?
    case Request(_) => s.collector.Requesting?
    case Close => s.collector.Closing?
    // The spool is empty, or an interruption forbids further chunks.
    case FlushEnds => s.collector.Flushing?
    case Abort => s.collector.Aborting?
  }

  function To(s: State, pc: Collector): State {
    s.(collector := pc)
  }

  function Resume(s: State, next: Next): Collector {
    match next
    case ToLoop => if s.flags.failed then Notifying(0, ToShutdown) else Looping
    case ToBreak => if s.flags.stop || s.flags.failed then Notifying(0, ToShutdown) else Looping
    case ToShutdown => Requesting
    case ToFlush => Flushing
    case ToEnd => Finished
  }

  function WithStream(s: State, i: nat, x: Stream): State
    requires i < |s.streams|
  {
    s.(streams := s.streams[i := x])
  }

  /** One stream inside `notify`. */
  function NotifyOne(s: State, i: nat, force: bool, interrupted: bool): State
    requires i < |s.streams|
  {
    var x := s.streams[i];
    if !Ready(x, force) then s
    else WithStream(s, i, x.(notified := true)).(
           log := s.log + [End(i, x.outcome)],
           flags := s.flags.(failed := s.flags.failed || interrupted))
  }

  predicate WellFormed(s: State) {
    && |s.streams| == STREAMS
    && |s.queue| <= QUEUE_LIMIT
    && (forall k :: 0 <= k < |s.queue| ==> s.queue[k].0 < STREAMS)
    && (s.collector.Got? || s.collector.Counting? ==> s.collector.stream < STREAMS)
    && (s.collector.Notifying? || s.collector.Aborting? ==> s.collector.i <= STREAMS)
  }

  function CollectorStep(callback: bool, s: State, e: CollectorEvent): State
    requires WellFormed(s) && CollectorEnabled(s, e)
  {
    var pc := s.collector;
    match e
    case Take => s.(queue := s.queue[1..], collector := Got(s.queue[0].0, s.queue[0].1, pc.Flushing?))
    case Empty => To(s, Notifying(0, ToBreak))
    case Leave => s.(flags := s.flags.(drained := !s.flags.stop), collector := Notifying(0, ToShutdown))
    case Fail => s.(flags := s.flags.(failed := true), collector := Requesting)
    case Invoke(interrupted) =>
      var counting := To(s, Counting(pc.stream, pc.chunk, pc.flush));
      if !callback || s.flags.delivered then counting
      else counting.(log := s.log + [Chunk(pc.stream, pc.chunk)],
                     flags := s.flags.(failed := s.flags.failed || interrupted))
    case Count =>
      var x := s.streams[pc.stream];
      To(WithStream(s, pc.stream, x.(queued := x.queued - 1, taken := x.taken + [pc.chunk])),
         Notifying(0, if pc.flush then ToFlush else ToLoop))
    case Notify(interrupted) =>
      if pc.i < STREAMS
      then To(NotifyOne(s, pc.i, pc.next == ToEnd, interrupted), Notifying(pc.i + 1, pc.next))
      else To(s, Resume(s, pc.next))
    case Request(drain) => To(ShutdownStep(s, Stop(drain)), Closing)
    case Close => s.(flags := s.flags.(closed := true), collector := Flushing)
    case FlushEnds => To(s, Aborting(0))
    case Abort =>
      if pc.i < STREAMS
      then To(WithStream(s, pc.i, Cancelled(s.streams[pc.i])), Aborting(pc.i + 1))
      else To(s, Notifying(0, ToEnd))
  }

  // ---------------------------------------------------------------- runs

  datatype Event =
    | R(i: nat, reader: ReaderEvent)
    | S(shutdown: ShutdownEvent)
    | K(collector: CollectorEvent)

  predicate Enabled(s: State, e: Event) {
    match e
    case R(i, r) => i < |s.streams| && ReaderEnabled(s.streams[i], r)
    case S(x) => ShutdownEnabled(s, x)
    case K(k) => CollectorEnabled(s, k)
  }

  function Apply(callback: bool, s: State, e: Event): State
    requires WellFormed(s) && Enabled(s, e)
  {
    match e
    case R(i, r) =>
      var x := s.streams[i];
      var after := WithStream(s, i, ReaderStep(s.flags, Full(s), x, r));
      if Queues(s.flags, Full(s), x, r) then after.(queue := s.queue + [(i, x.reader.chunk)]) else after
    case S(x) => ShutdownStep(s, x)
    case K(k) => CollectorStep(callback, s, k)
  }

  // ---------------------------------------------------------------- what every step keeps

  /** The chunks of one stream that wait in the queue. */
  function QueueOf(queue: seq<(nat, nat)>, i: nat): seq<nat> {
    if queue == [] then []
    else (if queue[0].0 == i then [queue[0].1] else []) + QueueOf(queue[1..], i)
  }

  /** The chunks of one stream its callback was invoked with. */
  function ChunksOf(log: seq<Callback>, i: nat): seq<nat> {
    if log == [] then []
    else
      var last := log[|log| - 1];
      ChunksOf(log[..|log| - 1], i) + if last.Chunk? && last.stream == i then [last.chunk] else []
  }

  lemma {:induction false} QueueOfSnoc(queue: seq<(nat, nat)>, item: (nat, nat), i: nat)
    ensures QueueOf(queue + [item], i) == QueueOf(queue, i) + if item.0 == i then [item.1] else []
  {
    var last := if item.0 == i then [item.1] else [];
    if queue == [] {
      assert [item][1..] == [];
      assert queue + [item] == [item];
    } else {
      var first := if queue[0].0 == i then [queue[0].1] else [];
      assert (queue + [item])[1..] == queue[1..] + [item];
      QueueOfSnoc(queue[1..], item, i);
      assert first + (QueueOf(queue[1..], i) + last) == first + QueueOf(queue[1..], i) + last;
    }
  }

  lemma ChunksOfSnoc(log: seq<Callback>, entry: Callback, i: nat)
    ensures ChunksOf(log + [entry], i) ==
            ChunksOf(log, i) + if entry.Chunk? && entry.stream == i then [entry.chunk] else []
  {
    assert (log + [entry])[..|log|] == log;
  }

  /** What the collector has taken from the queue and not yet counted off. */
  function Held(pc: Collector, i: nat): seq<nat> {
    if (pc.Got? || pc.Counting?) && pc.stream == i then [pc.chunk] else []
  }

  /** What the collector is done with, as far as callbacks are concerned. */
  function Offered(x: Stream, pc: Collector, i: nat): seq<nat> {
    x.taken + if pc.Counting? then Held(pc, i) else []
  }

  predicate Increasing(a: seq<nat>) {
    forall j, k :: 0 <= j < k < |a| ==> a[j] < a[k]
  }

  predicate UpTo(a: seq<nat>, n: nat) {
    |a| == n && forall k :: 0 <= k < n ==> a[k] == k
  }

  /** The number of chunks read that the reader no longer holds. */
  function Offset(x: Stream): int {
    if x.reader.Pushing? || x.reader.Blocked? then x.readCount - 1 else x.readCount
  }

  /** Queued chunks are in read order, and before a stop none was skipped. */
  predicate Ordered(x: Stream, stop: bool) {
    && 0 <= Offset(x)
    && (x.reader.Pushing? || x.reader.Blocked? ==> x.reader.chunk == Offset(x))
    && Increasing(x.puts)
    && (forall k :: 0 <= k < |x.puts| ==> x.puts[k] < Offset(x))
    && (!stop ==> UpTo(x.puts, Offset(x)))
  }

  predicate OutcomeOk(x: Stream) {
    && (x.outcome.Eof? || x.outcome.ReadFailed? ==> x.reader.Exiting? || x.reader.Stopped?)
    && (x.reader.Stopped? ==> !x.outcome.Pending?)
    && (!x.acquired ==> x.reader.NotStarted? && x.outcome.Pending?)
    && (x.notified ==> !x.outcome.Pending?)
  }

  /** Nothing of the stream is lost or repeated between the reader's put and the collector's count. */
  predicate Accounted(x: Stream, held: seq<nat>, queue: seq<nat>) {
    x.puts == x.taken + held + queue && x.queued == |held| + |queue|
  }

  /** The collector is past its last chunk callback. */
  predicate Final(pc: Collector) {
    pc.Finished? || (pc.Notifying? && pc.next == ToEnd)
  }

  /** An announced stream has nothing left that a chunk callback could still be given. */
  predicate Exhausted(x: Stream, pc: Collector) {
    x.notified ==> Final(pc) || (Done(x) && x.queued == 0)
  }

  /** The chunk callbacks are what was offered, cut off at the delivery of a result. */
  predicate Delivered(callback: bool, delivered: bool, chunks: seq<nat>, offered: seq<nat>) {
    if callback then chunks <= offered && (!delivered ==> chunks == offered) else chunks == []
  }

  /** A drained loop has seen both readers end and every chunk they read. */
  predicate DrainedOk(callback: bool, drained: bool, x: Stream, chunks: seq<nat>) {
    drained ==> Safe(x) && x.puts == x.taken && UpTo(x.taken, x.readCount) && (callback ==> chunks == x.taken)
  }

  /** The last rounds: every acquired stream gets an outcome, then its announcement. */
  predicate FinalRounds(x: Stream, pc: Collector, i: nat) {
    x.acquired ==>
      && ((pc.Aborting? && i < pc.i) || Final(pc) ==> !x.outcome.Pending?)
      && (pc.Finished? || (Final(pc) && pc.Notifying? && i < pc.i) ==> x.notified)
  }

  /** One stream with its share of the queue and of the chunk callbacks. */
  predicate StreamOk(callback: bool, x: Stream, i: nat, pc: Collector, flags: Flags, queue: seq<nat>,
                     chunks: seq<nat>) {
    && Accounted(x, Held(pc, i), queue)
    && Ordered(x, flags.stop)
    && OutcomeOk(x)
    && Exhausted(x, pc)
    && Delivered(callback, flags.delivered, chunks, Offered(x, pc, i))
    && DrainedOk(callback, flags.drained, x, chunks)
    && FinalRounds(x, pc, i)
  }

  predicate StreamAt(callback: bool, s: State, i: nat)
    requires i < |s.streams|
  {
    StreamOk(callback, s.streams[i], i, s.collector, s.flags, QueueOf(s.queue, i), ChunksOf(s.log, i))
  }

  /** Callbacks of one stream: an end is its last, and it is there when the stream is announced. */
  predicate LogOk(s: State) {
    && (forall a, b :: 0 <= a < b < |s.log| && s.log[a].End? ==> s.log[b].stream != s.log[a].stream)
    && (forall a :: 0 <= a < |s.log| && s.log[a].End? ==>
          s.log[a].stream < |s.streams| && s.streams[s.log[a].stream].notified)
    && (forall i :: 0 <= i < |s.streams| && s.streams[i].notified ==> End(i, s.streams[i].outcome) in s.log)
  }

  predicate AfterRequest(pc: Collector) {
    || pc.Closing? || pc.Flushing? || pc.Aborting? || Final(pc)
    || ((pc.Got? || pc.Counting?) && pc.flush)
    || (pc.Notifying? && pc.next == ToFlush)
  }

  predicate AfterLoop(pc: Collector) {
    AfterRequest(pc) || pc.Requesting? || (pc.Notifying? && pc.next == ToShutdown)
  }

  predicate FlagsOk(pc: Collector, flags: Flags) {
    && (flags.cancel || flags.delivered || flags.closed || AfterRequest(pc) ==> flags.stop)
    && (flags.drained ==> AfterLoop(pc))
  }

  predicate Invariant(callback: bool, s: State) {
    && WellFormed(s)
    && FlagsOk(s.collector, s.flags)
    && LogOk(s)
    && forall i :: 0 <= i < |s.streams| ==> StreamAt(callback, s, i)
  }

  // ---------------------------------------------------------------- readers and shutdown keep it

  lemma QueuedCounts(x: Stream, held: seq<nat>, queue: seq<nat>, stop: bool)
    requires Accounted(x, held, queue) && Ordered(x, stop) && x.reader.Pushing?
    ensures var y := x.(reader := Polling, queued := x.queued + 1, puts := x.puts + [x.reader.chunk]);
            Accounted(y, held, queue + [x.reader.chunk]) && Ordered(y, stop)
  {
    assert x.taken + held + queue + [x.reader.chunk] == x.taken + held + (queue + [x.reader.chunk]);
  }

  /** A step that queues nothing; only a shutdown lets it drop the chunk it holds. */
  lemma OtherStepFrame(x: Stream, flags: Flags, full: bool, e: ReaderEvent)
    requires ReaderEnabled(x, e) && !Queues(flags, full, x, e)
    requires x.reader.Pushing? || x.reader.Blocked? ==> x.reader.chunk == Offset(x)
    requires flags.closed || flags.delivered ==> flags.stop
    ensures var y := ReaderStep(flags, full, x, e);
            && y.puts == x.puts && y.taken == x.taken && y.queued == x.queued
            && Offset(x) <= Offset(y) && (!flags.stop ==> Offset(x) == Offset(y))
            && (y.reader.Pushing? || y.reader.Blocked? ==> y.reader.chunk == Offset(y))
  {
  }

  lemma StillOrdered(x: Stream, y: Stream, stop: bool)
    requires Ordered(x, stop) && y.puts == x.puts
    requires Offset(x) <= Offset(y) && (!stop ==> Offset(x) == Offset(y))
    requires y.reader.Pushing? || y.reader.Blocked? ==> y.reader.chunk == Offset(y)
    ensures Ordered(y, stop)
  {
  }

  lemma ReaderStepCounts(x: Stream, held: seq<nat>, flags: Flags, queue: seq<nat>, full: bool, e: ReaderEvent)
    requires Accounted(x, held, queue) && Ordered(x, flags.stop) && ReaderEnabled(x, e)
    requires flags.closed || flags.delivered ==> flags.stop
    ensures Accounted(ReaderStep(flags, full, x, e), held,
                      queue + if Queues(flags, full, x, e) then [x.reader.chunk] else [])
    ensures Ordered(ReaderStep(flags, full, x, e), flags.stop)
  {
    if Queues(flags, full, x, e) {
      QueuedCounts(x, held, queue, flags.stop);
    } else {
      assert queue + [] == queue;
      OtherStepFrame(x, flags, full, e);
      StillOrdered(x, ReaderStep(flags, full, x, e), flags.stop);
    }
  }

  /** A reader's step leaves an announced stream as it is, and queues nothing for it. */
  lemma ReaderStepRest(x: Stream, i: nat, pc: Collector, flags: Flags, full: bool, e: ReaderEvent)
    requires OutcomeOk(x) && Exhausted(x, pc) && FinalRounds(x, pc, i) && ReaderEnabled(x, e)
    ensures var y := ReaderStep(flags, full, x, e);
            && OutcomeOk(y) && Exhausted(y, pc) && FinalRounds(y, pc, i)
            && y.taken == x.taken && y.notified == x.notified
            && (x.notified ==> y.outcome == x.outcome)
  {
  }

  lemma ReaderStepOk(callback: bool, x: Stream, i: nat, pc: Collector, flags: Flags, queue: seq<nat>, chunks: seq<nat>,
                     full: bool, e: ReaderEvent)
    requires StreamOk(callback, x, i, pc, flags, queue, chunks) && FlagsOk(pc, flags) && ReaderEnabled(x, e)
    ensures StreamOk(callback, ReaderStep(flags, full, x, e), i, pc, flags,
                     queue + if Queues(flags, full, x, e) then [x.reader.chunk] else [], chunks)
  {
    ReaderStepCounts(x, Held(pc, i), flags, queue, full, e);
    ReaderStepRest(x, i, pc, flags, full, e);
  }

  /** Streams may change in anything but their announcement. */
  lemma LogKept(s: State, t: State)
    requires LogOk(s) && t.log == s.log && |t.streams| == |s.streams|
    requires forall i :: 0 <= i < |s.streams| ==> SameAnnouncement(s.streams[i], t.streams[i])
    ensures LogOk(t)
  {
  }

  predicate SameAnnouncement(x: Stream, y: Stream) {
    x.notified == y.notified && (x.notified ==> x.outcome == y.outcome)
  }

  /** The queue after a reader's step, seen from one stream. */
  lemma ReaderQueue(callback: bool, s: State, i: nat, e: ReaderEvent, j: nat)
    requires WellFormed(s) && i < STREAMS && ReaderEnabled(s.streams[i], e)
    ensures QueueOf(Apply(callback, s, R(i, e)).queue, j) == QueueOf(s.queue, j) +
              if i == j && Queues(s.flags, Full(s), s.streams[i], e) then [s.streams[i].reader.chunk] else []
  {
    if Queues(s.flags, Full(s), s.streams[i], e) {
      QueueOfSnoc(s.queue, (i, s.streams[i].reader.chunk), j);
    }
  }

  lemma ReaderKeepsStream(callback: bool, s: State, i: nat, e: ReaderEvent, j: nat)
    requires WellFormed(s) && FlagsOk(s.collector, s.flags)
    requires i < STREAMS && j < STREAMS && StreamAt(callback, s, i) && StreamAt(callback, s, j)
    requires ReaderEnabled(s.streams[i], e)
    ensures StreamAt(callback, Apply(callback, s, R(i, e)), j)
    ensures SameAnnouncement(s.streams[j], Apply(callback, s, R(i, e)).streams[j])
  {
    ReaderQueue(callback, s, i, e, j);
    if i == j {
      var x := s.streams[i];
      ReaderStepOk(callback, x, i, s.collector, s.flags, QueueOf(s.queue, i), ChunksOf(s.log, i), Full(s), e);
      ReaderStepRest(x, i, s.collector, s.flags, Full(s), e);
    } else {
      assert QueueOf(s.queue, j) + [] == QueueOf(s.queue, j);
    }
  }

  lemma ReaderKeeps(callback: bool, s: State, i: nat, e: ReaderEvent)
    requires Invariant(callback, s) && i < |s.streams| && ReaderEnabled(s.streams[i], e)
    ensures Invariant(callback, Apply(callback, s, R(i, e)))
  {
    var t := Apply(callback, s, R(i, e));
    forall j | 0 <= j < STREAMS
      ensures StreamAt(callback, t, j) && SameAnnouncement(s.streams[j], t.streams[j])
    {
      ReaderKeepsStream(callback, s, i, e, j);
    }
    LogKept(s, t);
  }

  lemma CancelledOk(callback: bool, x: Stream, i: nat, pc: Collector, flags: Flags, queue: seq<nat>, chunks: seq<nat>)
    requires StreamOk(callback, x, i, pc, flags, queue, chunks)
    ensures StreamOk(callback, Cancelled(x), i, pc, flags, queue, chunks)
    ensures SameAnnouncement(x, Cancelled(x))
  {
  }

  /** Setting a flag of the shutdown only weakens what a stream still has to promise. */
  lemma FlagsWeaken(callback: bool, x: Stream, i: nat, pc: Collector, flags: Flags, more: Flags, queue: seq<nat>,
                    chunks: seq<nat>)
    requires StreamOk(callback, x, i, pc, flags, queue, chunks)
    requires more.drained == flags.drained && (flags.stop ==> more.stop) && (flags.delivered ==> more.delivered)
    ensures StreamOk(callback, x, i, pc, more, queue, chunks)
  {
  }

  lemma ShutdownKeepsStream(callback: bool, s: State, e: ShutdownEvent, i: nat)
    requires WellFormed(s) && i < STREAMS && StreamAt(callback, s, i) && ShutdownEnabled(s, e)
    ensures StreamAt(callback, ShutdownStep(s, e), i)
    ensures SameAnnouncement(s.streams[i], ShutdownStep(s, e).streams[i])
  {
    var t := ShutdownStep(s, e);
    var x, q, l := s.streams[i], QueueOf(s.queue, i), ChunksOf(s.log, i);
    assert t.streams[i] == x || t.streams[i] == Cancelled(x);
    assert t.queue == s.queue && t.log == s.log && t.collector == s.collector;
    CancelledOk(callback, x, i, s.collector, s.flags, q, l);
    FlagsWeaken(callback, t.streams[i], i, s.collector, s.flags, t.flags, q, l);
  }

  lemma ShutdownKeeps(callback: bool, s: State, e: ShutdownEvent)
    requires Invariant(callback, s) && ShutdownEnabled(s, e)
    ensures Invariant(callback, ShutdownStep(s, e))
  {
    var t := ShutdownStep(s, e);
    forall i | 0 <= i < STREAMS
      ensures StreamAt(callback, t, i) && SameAnnouncement(s.streams[i], t.streams[i])
    {
      ShutdownKeepsStream(callback, s, e, i);
    }
    LogKept(s, t);
  }

  // ---------------------------------------------------------------- the collector keeps it

  predicate Handles(pc: Collector) {
    pc.Got? || pc.Counting?
  }

  /** A move of the collector that touches no chunk. */
  lemma PcMoves(callback: bool, x: Stream, i: nat, pc: Collector, qc: Collector, flags: Flags, more: Flags,
                queue: seq<nat>, chunks: seq<nat>)
    requires StreamOk(callback, x, i, pc, flags, queue, chunks)
    requires !Handles(pc) && !Handles(qc) && (Final(pc) ==> Final(qc)) && FinalRounds(x, qc, i)
    requires more.stop == flags.stop && more.delivered == flags.delivered && more.drained == flags.drained
    ensures StreamOk(callback, x, i, qc, more, queue, chunks)
  {
  }

  lemma TakeOk(callback: bool, x: Stream, i: nat, pc: Collector, stream: nat, chunk: nat, flush: bool, flags: Flags,
               queue: seq<nat>, rest: seq<nat>, chunks: seq<nat>)
    requires StreamOk(callback, x, i, pc, flags, queue, chunks)
    requires !Handles(pc) && !Final(pc)
    requires queue == (if stream == i then [chunk] else []) + rest
    ensures StreamOk(callback, x, i, Got(stream, chunk, flush), flags, rest, chunks)
  {
    var qc := Got(stream, chunk, flush);
    assert x.taken + Held(pc, i) + queue == x.taken + Held(qc, i) + rest;
  }

  /** A chunk in the collector's hands belongs to a stream that is neither announced nor drained. */
  lemma HeldIsLive(callback: bool, x: Stream, i: nat, pc: Collector, flags: Flags, queue: seq<nat>, chunks: seq<nat>)
    requires StreamOk(callback, x, i, pc, flags, queue, chunks) && Handles(pc) && pc.stream == i
    ensures !x.notified && !flags.drained && x.queued > 0
  {
    assert |x.puts| == |x.taken| + |Held(pc, i)| + |queue|;
  }

  lemma InvokeOk(callback: bool, x: Stream, i: nat, pc: Collector, flags: Flags, queue: seq<nat>, chunks: seq<nat>,
                 failed: bool)
    requires StreamOk(callback, x, i, pc, flags, queue, chunks) && pc.Got?
    ensures var invoked := callback && !flags.delivered && pc.stream == i;
            StreamOk(callback, x, i, Counting(pc.stream, pc.chunk, pc.flush), flags.(failed := failed), queue,
                     chunks + if invoked then [pc.chunk] else [])
  {
    if pc.stream == i {
      HeldIsLive(callback, x, i, pc, flags, queue, chunks);
    }
    assert chunks + [] == chunks;
    assert x.taken + [] == x.taken;
  }

  lemma CountOk(callback: bool, x: Stream, i: nat, pc: Collector, qc: Collector, flags: Flags, queue: seq<nat>,
                chunks: seq<nat>)
    requires StreamOk(callback, x, i, pc, flags, queue, chunks)
    requires pc.Counting? && qc.Notifying? && !Final(qc)
    ensures var y := if pc.stream == i then x.(queued := x.queued - 1, taken := x.taken + [pc.chunk]) else x;
            StreamOk(callback, y, i, qc, flags, queue, chunks)
  {
    if pc.stream == i {
      HeldIsLive(callback, x, i, pc, flags, queue, chunks);
      assert x.taken + [pc.chunk] + [] + queue == x.taken + [pc.chunk] + queue;
    } else {
      assert x.taken + [] == x.taken;
    }
  }

  /** The loop ended with nothing left: before any stop that means every chunk read was delivered. */
  lemma LeaveOk(callback: bool, x: Stream, i: nat, flags: Flags, chunks: seq<nat>)
    requires StreamOk(callback, x, i, Looping, flags, [], chunks)
    requires FlagsOk(Looping, flags) && Safe(x)
    ensures StreamOk(callback, x, i, Notifying(0, ToShutdown), flags.(drained := !flags.stop), [], chunks)
  {
    assert x.taken + [] + [] == x.taken;
  }

  lemma NotifyOk(callback: bool, x: Stream, i: nat, pc: Collector, flags: Flags, failed: bool, queue: seq<nat>,
                 chunks: seq<nat>)
    requires StreamOk(callback, x, i, pc, flags, queue, chunks)
    requires pc.Notifying? && pc.i == i < STREAMS
    ensures StreamOk(callback, if Ready(x, pc.next == ToEnd) then x.(notified := true) else x, i,
                     Notifying(i + 1, pc.next), flags.(failed := failed), queue, chunks)
  {
  }

  lemma CollectorKeepsFlags(callback: bool, s: State, e: CollectorEvent)
    requires WellFormed(s) && FlagsOk(s.collector, s.flags) && CollectorEnabled(s, e)
    ensures WellFormed(CollectorStep(callback, s, e))
    ensures FlagsOk(CollectorStep(callback, s, e).collector, CollectorStep(callback, s, e).flags)
  {
  }

  lemma TakeKeepsStream(callback: bool, s: State, i: nat)
    requires WellFormed(s) && i < STREAMS && StreamAt(callback, s, i) && CollectorEnabled(s, Take)
    ensures StreamAt(callback, CollectorStep(callback, s, Take), i)
  {
    var item := s.queue[0];
    TakeOk(callback, s.streams[i], i, s.collector, item.0, item.1, s.collector.Flushing?, s.flags,
           QueueOf(s.queue, i), QueueOf(s.queue[1..], i), ChunksOf(s.log, i));
  }

  lemma InvokeKeepsStream(callback: bool, s: State, interrupted: bool, i: nat)
    requires WellFormed(s) && i < STREAMS && StreamAt(callback, s, i) && s.collector.Got?
    ensures StreamAt(callback, CollectorStep(callback, s, Invoke(interrupted)), i)
  {
    var pc := s.collector;
    ChunksOfSnoc(s.log, Chunk(pc.stream, pc.chunk), i);
    InvokeOk(callback, s.streams[i], i, pc, s.flags, QueueOf(s.queue, i), ChunksOf(s.log, i),
             s.flags.failed || interrupted);
    InvokeOk(callback, s.streams[i], i, pc, s.flags, QueueOf(s.queue, i), ChunksOf(s.log, i), s.flags.failed);
    assert ChunksOf(s.log, i) + [] == ChunksOf(s.log, i);
  }

  lemma CountKeepsStream(callback: bool, s: State, i: nat)
    requires WellFormed(s) && i < STREAMS && StreamAt(callback, s, i) && s.collector.Counting?
    ensures StreamAt(callback, CollectorStep(callback, s, Count), i)
  {
    CountOk(callback, s.streams[i], i, s.collector, Notifying(0, if s.collector.flush then ToFlush else ToLoop),
            s.flags, QueueOf(s.queue, i), ChunksOf(s.log, i));
  }

  lemma NotifyLeaves(callback: bool, s: State, interrupted: bool, i: nat)
    requires WellFormed(s) && i < STREAMS && s.collector.Notifying? && s.collector.i < STREAMS
    ensures var t := CollectorStep(callback, s, Notify(interrupted));
            && t.queue == s.queue && ChunksOf(t.log, i) == ChunksOf(s.log, i)
            && (i != s.collector.i ==> t.streams[i] == s.streams[i])
  {
    ChunksOfSnoc(s.log, End(s.collector.i, s.streams[s.collector.i].outcome), i);
    assert ChunksOf(s.log, i) + [] == ChunksOf(s.log, i);
  }

  lemma NotifyKeepsStream(callback: bool, s: State, interrupted: bool, i: nat)
    requires WellFormed(s) && i < STREAMS && StreamAt(callback, s, i)
    requires s.collector.Notifying? && s.collector.i < STREAMS
    ensures StreamAt(callback, CollectorStep(callback, s, Notify(interrupted)), i)
  {
    var pc, x := s.collector, s.streams[i];
    var t := CollectorStep(callback, s, Notify(interrupted));
    NotifyLeaves(callback, s, interrupted, i);
    if i == pc.i {
      NotifyOk(callback, x, i, pc, s.flags, t.flags.failed, QueueOf(s.queue, i), ChunksOf(s.log, i));
    } else {
      PcMoves(callback, x, i, pc, t.collector, s.flags, t.flags, QueueOf(s.queue, i), ChunksOf(s.log, i));
    }
  }

  lemma LeaveKeepsStream(callback: bool, s: State, i: nat)
    requires WellFormed(s) && i < STREAMS && StreamAt(callback, s, i) && FlagsOk(s.collector, s.flags)
    requires CollectorEnabled(s, Leave)
    ensures StreamAt(callback, CollectorStep(callback, s, Leave), i)
  {
    LeaveOk(callback, s.streams[i], i, s.flags, ChunksOf(s.log, i));
  }

  lemma RequestKeepsStream(callback: bool, s: State, drain: bool, i: nat)
    requires WellFormed(s) && i < STREAMS && StreamAt(callback, s, i) && s.collector.Requesting?
    ensures StreamAt(callback, CollectorStep(callback, s, Request(drain)), i)
  {
    ShutdownKeepsStream(callback, s, Stop(drain), i);
    var t := ShutdownStep(s, Stop(drain));
    PcMoves(callback, t.streams[i], i, t.collector, Closing, t.flags, t.flags, QueueOf(s.queue, i), ChunksOf(s.log, i));
  }

  lemma AbortKeepsStream(callback: bool, s: State, i: nat)
    requires WellFormed(s) && i < STREAMS && StreamAt(callback, s, i) && s.collector.Aborting?
    ensures StreamAt(callback, CollectorStep(callback, s, Abort), i)
  {
    var x, q, l := s.streams[i], QueueOf(s.queue, i), ChunksOf(s.log, i);
    var t := CollectorStep(callback, s, Abort);
    CancelledOk(callback, x, i, s.collector, s.flags, q, l);
    PcMoves(callback, t.streams[i], i, s.collector, t.collector, s.flags, t.flags, q, l);
  }

  /** The remaining moves leave streams, queue and log alone. */
  predicate Moves(s: State, e: CollectorEvent) {
    e.Empty? || e.Fail? || e.Close? || e.FlushEnds? || (e.Notify? && s.collector.Notifying? && s.collector.i >= STREAMS)
  }

  lemma MoveKeepsStream(callback: bool, s: State, e: CollectorEvent, i: nat)
    requires WellFormed(s) && i < STREAMS && StreamAt(callback, s, i) && CollectorEnabled(s, e) && Moves(s, e)
    ensures StreamAt(callback, CollectorStep(callback, s, e), i)
  {
    var t := CollectorStep(callback, s, e);
    PcMoves(callback, s.streams[i], i, s.collector, t.collector, s.flags, t.flags, QueueOf(s.queue, i),
            ChunksOf(s.log, i));
  }

  lemma CollectorKeepsStream(callback: bool, s: State, e: CollectorEvent, i: nat)
    requires WellFormed(s) && FlagsOk(s.collector, s.flags) && i < STREAMS && StreamAt(callback, s, i)
    requires CollectorEnabled(s, e)
    ensures StreamAt(callback, CollectorStep(callback, s, e), i)
  {
    match e {
      case Take => TakeKeepsStream(callback, s, i);
      case Invoke(interrupted) => InvokeKeepsStream(callback, s, interrupted, i);
      case Count => CountKeepsStream(callback, s, i);
      case Notify(interrupted) =>
        if s.collector.i < STREAMS {
          NotifyKeepsStream(callback, s, interrupted, i);
        } else {
          MoveKeepsStream(callback, s, e, i);
        }
      case Leave => LeaveKeepsStream(callback, s, i);
      case Request(drain) => RequestKeepsStream(callback, s, drain, i);
      case Abort => AbortKeepsStream(callback, s, i);
      case _ => MoveKeepsStream(callback, s, e, i);
    }
  }

  // ---------------------------------------------------------------- the log

  lemma ChunkLogged(s: State, stream: nat, chunk: nat, t: State)
    requires LogOk(s) && stream < |s.streams| && !s.streams[stream].notified
    requires t.streams == s.streams && t.log == s.log + [Chunk(stream, chunk)]
    ensures LogOk(t)
  {
    forall i | 0 <= i < |t.streams| && t.streams[i].notified
      ensures End(i, t.streams[i].outcome) in t.log
    {
      assert End(i, s.streams[i].outcome) in s.log;
    }
  }

  lemma EndLogged(s: State, i: nat, t: State)
    requires LogOk(s) && i < |s.streams| && !s.streams[i].notified
    requires t.streams == s.streams[i := s.streams[i].(notified := true)]
    requires t.log == s.log + [End(i, s.streams[i].outcome)]
    ensures LogOk(t)
  {
    forall j | 0 <= j < |t.streams| && t.streams[j].notified
      ensures End(j, t.streams[j].outcome) in t.log
    {
      if j == i {
        assert t.log[|s.log|] == End(i, s.streams[i].outcome);
      } else {
        assert End(j, s.streams[j].outcome) in s.log;
      }
    }
  }

  /** Neither a chunk nor a pass over the other stream changes an announcement. */
  lemma AnnouncementKept(callback: bool, s: State, e: CollectorEvent, i: nat)
    requires WellFormed(s) && i < STREAMS && OutcomeOk(s.streams[i]) && CollectorEnabled(s, e)
    requires e.Notify? ==> s.collector.i != i
    ensures SameAnnouncement(s.streams[i], CollectorStep(callback, s, e).streams[i])
  {
  }

  lemma InvokeKeepsLog(callback: bool, s: State, interrupted: bool)
    requires Invariant(callback, s) && s.collector.Got?
    ensures LogOk(CollectorStep(callback, s, Invoke(interrupted)))
  {
    var pc := s.collector;
    assert StreamAt(callback, s, pc.stream);
    HeldIsLive(callback, s.streams[pc.stream], pc.stream, pc, s.flags, QueueOf(s.queue, pc.stream),
               ChunksOf(s.log, pc.stream));
    if callback && !s.flags.delivered {
      ChunkLogged(s, pc.stream, pc.chunk, CollectorStep(callback, s, Invoke(interrupted)));
    }
  }

  lemma CollectorKeepsLog(callback: bool, s: State, e: CollectorEvent)
    requires Invariant(callback, s) && CollectorEnabled(s, e)
    ensures LogOk(CollectorStep(callback, s, e))
  {
    var t := CollectorStep(callback, s, e);
    if e.Invoke? {
      InvokeKeepsLog(callback, s, e.interrupted);
    } else if e.Notify? {
      if s.collector.i < STREAMS && Ready(s.streams[s.collector.i], s.collector.next == ToEnd) {
        EndLogged(s, s.collector.i, t);
      }
    } else {
      forall i | 0 <= i < STREAMS
        ensures SameAnnouncement(s.streams[i], t.streams[i])
      {
        assert StreamAt(callback, s, i);
        AnnouncementKept(callback, s, e, i);
      }
      LogKept(s, t);
    }
  }

  lemma CollectorKeeps(callback: bool, s: State, e: CollectorEvent)
    requires Invariant(callback, s) && CollectorEnabled(s, e)
    ensures Invariant(callback, CollectorStep(callback, s, e))
  {
    CollectorKeepsFlags(callback, s, e);
    CollectorKeepsLog(callback, s, e);
    forall i | 0 <= i < STREAMS
      ensures StreamAt(callback, CollectorStep(callback, s, e), i)
    {
      CollectorKeepsStream(callback, s, e, i);
    }
  }

  // ---------------------------------------------------------------- every run

  lemma StepKeepsInvariant(callback: bool, s: State, e: Event)
    requires Invariant(callback, s) && Enabled(s, e)
    ensures Invariant(callback, Apply(callback, s, e))
  {
    match e {
      case R(i, r) => ReaderKeeps(callback, s, i, r);
      case S(x) => ShutdownKeeps(callback, s, x);
      case K(k) => CollectorKeeps(callback, s, k);
    }
  }

  function Run(callback: bool, s: State, events: seq<Event>): Outcome<State>
    decreases events
  {
    if events == [] then At(s)
    else if WellFormed(s) && Enabled(s, events[0]) then Run(callback, Apply(callback, s, events[0]), events[1..])
    else Stuck
  }

  ghost predicate Reachable(callback: bool, s: State) {
    exists start, events :: Initial(start) && Run(callback, start, events) == At(s)
  }

  lemma {:induction false} RunKeepsInvariant(callback: bool, s: State, events: seq<Event>)
    requires Invariant(callback, s)
    ensures Run(callback, s, events).At? ==> Invariant(callback, Run(callback, s, events).state)
    decreases events
  {
    if events != [] && Enabled(s, events[0]) {
      StepKeepsInvariant(callback, s, events[0]);
      RunKeepsInvariant(callback, Apply(callback, s, events[0]), events[1..]);
    }
  }

  lemma InitialInvariant(callback: bool, s: State)
    requires Initial(s)
    ensures Invariant(callback, s)
  {
    forall i | 0 <= i < STREAMS
      ensures StreamAt(callback, s, i)
    {
      assert InitialStream(s.streams[i]);
    }
  }

  lemma ReachableInvariant(callback: bool, s: State)
    requires Reachable(callback, s)
    ensures Invariant(callback, s)
  {
    var start, events :| Initial(start) && Run(callback, start, events) == At(s);
    InitialInvariant(callback, start);
    RunKeepsInvariant(callback, start, events);
  }

  /** No callback of a stream, chunk or end, ever follows its end callback. */
  lemma EndIsLast(callback: bool, s: State, a: nat, b: nat)
    requires Reachable(callback, s) && a < b < |s.log| && s.log[a].End?
    ensures s.log[b].stream != s.log[a].stream
  {
    ReachableInvariant(callback, s);
  }

  /** A finished collection has announced exactly the acquired streams, each with its final outcome. */
  lemma EveryAcquiredStreamEnds(callback: bool, s: State, i: nat)
    requires Reachable(callback, s) && s.collector.Finished? && i < |s.streams|
    ensures s.streams[i].acquired <==> exists a :: 0 <= a < |s.log| && s.log[a].End? && s.log[a].stream == i
    ensures s.streams[i].acquired ==> !s.streams[i].outcome.Pending? && End(i, s.streams[i].outcome) in s.log
  {
    ReachableInvariant(callback, s);
    assert StreamAt(callback, s, i);
    if s.streams[i].acquired {
      var a :| 0 <= a < |s.log| && s.log[a] == End(i, s.streams[i].outcome);
    }
  }

  /** Chunks reach the callback in read order, none twice, none that was not read and queued. */
  lemma ChunksInReadOrder(callback: bool, s: State, i: nat)
    requires Reachable(callback, s) && i < |s.streams|
    ensures Increasing(ChunksOf(s.log, i))
    ensures ChunksOf(s.log, i) <= s.streams[i].puts
    ensures forall k :: 0 <= k < |ChunksOf(s.log, i)| ==> ChunksOf(s.log, i)[k] < s.streams[i].readCount
  {
    ReachableInvariant(callback, s);
    assert StreamAt(callback, s, i);
    var x := s.streams[i];
    if callback {
      assert Offered(x, s.collector, i) <= x.puts;
    }
  }

  /**
    When both readers ended and the queue was emptied before any stop was requested, the callback has
    been given every chunk read, however shutdown and delivery go on from there.
   */
  lemma NaturalEndDeliversAll(s: State, i: nat)
    requires Reachable(true, s) && i < |s.streams|
    requires s.flags.drained || (CollectorEnabled(s, Leave) && !s.flags.stop)
    ensures UpTo(ChunksOf(s.log, i), s.streams[i].readCount)
    ensures Safe(s.streams[i])
  {
    ReachableInvariant(true, s);
    assert StreamAt(true, s, i);
    if !s.flags.drained {
      LeaveKeepsStream(true, s, i);
    }
  }
}
