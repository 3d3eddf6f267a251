/** `_FailureLedger`: the shared precedence plus the context in which each failure occurred. */
module FailureLedgers {
  import opened Failures

  datatype Phase = Setup | Read | Join | Release | Wait | Action | Callback | Reporter | Coordination

  datatype Stream = NoStream | Stdout | Stderr

  datatype FailureInfo = FailureInfo(error: Error, kind: Kind, phase: Phase, stream: Stream)

  /** Which phases carry a stream (`FailureInfo.__post_init__`). */
  predicate ContextOk(phase: Phase, stream: Stream) {
    && (phase in {Read, Callback, Reporter} ==> stream != NoStream)
    && (phase in {Wait, Action, Coordination} ==> stream == NoStream)
  }

  predicate WellFormed(f: FailureInfo) {
    (f.kind.Interruption? <==> !f.error.exception) && ContextOk(f.phase, f.stream)
  }

  type Contexts = map<(Error, nat), FailureInfo>

  datatype Ledger = Ledger(groups: Groups, contexts: Contexts)

  function RankOf(kind: Kind): nat {
    match kind
    case Interruption => 0
    case Unexpected => 1
    case Ordinary => 3
  }

  function Group(g: Groups, rank: nat): seq<Error>
    requires rank < 4
  {
    if rank == 0 then g.interruptions
    else if rank == 1 then g.unexpected
    else if rank == 2 then PrimaryOf(g)
    else g.ordinary
  }

  /** The rank an error is reported under: the first group that holds it. */
  function Rank(g: Groups, e: Error): nat {
    if e in g.interruptions then 0
    else if e in g.unexpected then 1
    else if e == g.primary then 2
    else 3
  }

  predicate HasContext(l: Ledger, e: Error, rank: nat) {
    && (e, rank) in l.contexts
    && l.contexts[(e, rank)].error == e
    && l.contexts[(e, rank)].kind == (if rank == 0 then Interruption else if rank == 1 then Unexpected else Ordinary)
    && WellFormed(l.contexts[(e, rank)])
  }

  /** Every listed error has its context, and every context belongs to a listed error. */
  predicate Consistent(l: Ledger) {
    && Sorted(l.groups)
    && (forall rank: nat, e :: rank < 4 && e in Group(l.groups, rank) ==> HasContext(l, e, rank))
    && (forall key :: key in l.contexts ==> key.1 < 4 && key.0 in Group(l.groups, key.1))
  }

  // ---------------------------------------------------------------- the operations, on values

  function Empty(): Ledger {
    Ledger(Started(null), map[])
  }

  function Added(l: Ledger, f: FailureInfo): Ledger {
    var key := (f.error, RankOf(f.kind));
    if key in l.contexts then l
    else Ledger(Noticed(l.groups, f.error, f.kind), l.contexts[key := f])
  }

  function Observed(e: Error, policy: Policy, phase: Phase, stream: Stream): FailureInfo {
    FailureInfo(e, Classify(e, policy), phase, stream)
  }

  predicate AlreadyAuthoritative(g: Groups, e: Error) {
    e in g.interruptions || e in g.unexpected || e == g.primary
  }

  function Promoted(l: Ledger, e: Error, phase: Phase): Ledger {
    if AlreadyAuthoritative(l.groups, e) then l
    else if l.groups.primary == null && e.exception then
      Ledger(l.groups.(primary := e), l.contexts[(e, 2) := FailureInfo(e, Ordinary, phase, NoStream)])
    else Added(l, Observed(e, AnyException, phase, NoStream))
  }

  /** The context an error is reported with: the one of the highest rank it holds. */
  predicate ReportedAs(l: Ledger, e: Error, f: FailureInfo) {
    && (e, Rank(l.groups, e)) in l.contexts
    && f == l.contexts[(e, Rank(l.groups, e))]
    && f.error == e
  }

  /** `ordered` reports exactly `errors`, in that order. */
  predicate Reports(l: Ledger, ordered: seq<FailureInfo>, errors: seq<Error>) {
    |ordered| == |errors| && forall k :: 0 <= k < |errors| ==> ReportedAs(l, errors[k], ordered[k])
  }

  /** The groups of a higher authority than `rank`, in order. */
  function Before(g: Groups, rank: nat): seq<Error>
    requires rank <= 4
  {
    if rank == 0 then [] else Before(g, rank - 1) + Group(g, rank - 1)
  }

  lemma BeforeAll(g: Groups)
    ensures Before(g, 4) == Listed(g)
  {
    assert Before(g, 1) == g.interruptions;
    assert Before(g, 2) == g.interruptions + g.unexpected;
    assert Before(g, 3) == g.interruptions + g.unexpected + PrimaryOf(g);
  }

  lemma GroupListed(g: Groups, rank: nat, e: Error)
    requires rank < 4 && e in Group(g, rank)
    ensures e in Listed(g) && Rank(g, e) <= rank && e in Group(g, Rank(g, e))
  {
  }

  lemma {:induction false} BeforeIs(g: Groups, rank: nat, e: Error)
    requires rank <= 4
    ensures e in Before(g, rank) <==> e in Listed(g) && Rank(g, e) < rank
  {
    if rank > 0 {
      BeforeIs(g, rank - 1, e);
      if e in Group(g, rank - 1) {
        GroupListed(g, rank - 1, e);
      }
    }
  }

  /** An error first met in a group is reported under that group's rank. */
  lemma FirstMet(l: Ledger, done: seq<Error>, rank: nat, e: Error)
    requires Consistent(l) && rank < 4 && e in Group(l.groups, rank)
    requires Before(l.groups, rank) <= done && e !in done
    ensures (e, rank) in l.contexts && ReportedAs(l, e, l.contexts[(e, rank)])
  {
    GroupListed(l.groups, rank, e);
    BeforeIs(l.groups, rank, e);
    assert HasContext(l, e, rank);
  }

  /** One turn of `result`'s inner loop; `seen` holds the errors reported so far. */
  method ReportNext(l: Ledger, rank: nat, e: Error, ordered: seq<FailureInfo>, seen: seq<Error>, ghost done: seq<Error>)
      returns (r: seq<FailureInfo>, s: seq<Error>)
    requires Consistent(l) && rank < 4 && e in Group(l.groups, rank)
    requires Before(l.groups, rank) <= done
    requires seen == Distinct(done) && Reports(l, ordered, seen)
    ensures s == Distinct(done + [e]) && Reports(l, r, s)
  {
    ExtendSnoc([], done, e);
    ExtendIs([], done);
    if e in seen {
      return ordered, seen;
    }
    FirstMet(l, done, rank, e);
    return ordered + [l.contexts[(e, rank)]], seen + [e];
  }

  /** One group is appended, errors already seen being skipped. */
  method ReportGroup(l: Ledger, rank: nat, ordered: seq<FailureInfo>, seen: seq<Error>)
      returns (r: seq<FailureInfo>, s: seq<Error>)
    requires Consistent(l) && rank < 4
    requires seen == Distinct(Before(l.groups, rank)) && Reports(l, ordered, seen)
    ensures s == Distinct(Before(l.groups, rank + 1)) && Reports(l, r, s)
  {
    var group := Group(l.groups, rank);
    ghost var before := Before(l.groups, rank);
    r, s := ordered, seen;
    assert before + group[..0] == before;
    for i := 0 to |group|
      invariant s == Distinct(before + group[..i])
      invariant Reports(l, r, s)
    {
      r, s := ReportNext(l, rank, group[i], r, s, before + group[..i]);
      assert before + group[..i + 1] == before + group[..i] + [group[i]];
    }
    assert before + group[..|group|] == Before(l.groups, rank + 1);
  }

  class FailureLedger {
    var shared: CleanupFailures
    var contexts: Contexts

    function View(): Ledger
      reads this, shared
    {
      Ledger(shared.View(), contexts)
    }

    predicate Valid()
      reads this, shared
    {
      !shared.completed && Consistent(View())
    }

    constructor (primary: Error?)
      ensures Valid() && fresh(shared)
      ensures View() == if primary == null then Empty()
                        else if primary.exception then Promoted(Empty(), primary, Coordination)
                        else Added(Empty(), FailureInfo(primary, Interruption, Coordination, NoStream))
    {
      shared := new CleanupFailures(primary);
      contexts := map[];
      if primary != null {
        var rank: nat := if primary.exception then 2 else 0;
        contexts := map[(primary, rank) :=
            FailureInfo(primary, if rank == 2 then Ordinary else Interruption, Coordination, NoStream)];
      }
    }

    method Add(f: FailureInfo)
      requires Valid() && WellFormed(f)
      modifies this`contexts, shared
      ensures Valid() && View() == Added(old(View()), f)
    {
      AddedConsistent(View(), f);
      var rank := RankOf(f.kind);
      if (f.error, rank) in contexts {
        return;
      }
      var _ := shared.Run(f.error, if f.kind.Ordinary? then AnyException else NothingOrdinary);
      contexts := contexts[(f.error, rank) := f];
    }

    method Record(e: Error, policy: Policy, phase: Phase, stream: Stream)
      requires Valid() && ContextOk(phase, stream)
      modifies this`contexts, shared
      ensures Valid() && View() == Added(old(View()), Observed(e, policy, phase, stream))
    {
      var classified := new CleanupFailures(null);
      var _ := classified.Run(e, policy);
      var kind := if classified.interruptions != [] then Interruption
                  else if classified.unexpected != [] then Unexpected
                  else Ordinary;
      Add(FailureInfo(e, kind, phase, stream));
    }

    method Primary(e: Error, phase: Phase)
      requires Valid() && ContextOk(phase, NoStream)
      modifies this, shared
      ensures Valid() && View() == Promoted(old(View()), e, phase)
    {
      PromotedConsistent(View(), e, phase);
      if e in shared.interruptions || e in shared.unexpected || e == shared.originalPrimary {
        return;
      }
      if shared.originalPrimary == null && e.exception {
        var previous := shared;
        shared := new CleanupFailures(e);
        contexts := contexts[(e, 2) := FailureInfo(e, Ordinary, phase, NoStream)];
        Replay(previous.interruptions + previous.unexpected, previous.ordinaryFailures, previous.View());
      } else {
        Record(e, AnyException, phase, NoStream);
      }
    }

    /** The re-recording loops of `primary`: a fresh accumulator receives the earlier failures. */
    method Replay(severe: seq<Error>, ordinary: seq<Error>, ghost was: Groups)
      requires Sorted(was) && severe == was.interruptions + was.unexpected && ordinary == was.ordinary
      requires !shared.completed && shared.interruptions == shared.unexpected == shared.ordinaryFailures == []
      modifies shared
      ensures !shared.completed
      ensures shared.View() == was.(primary := old(shared.originalPrimary))
    {
      ReplaySevere(severe, was);
      ReplayOrdinary(ordinary);
    }

    /** The interruptions among the first `k` severe failures, and the unexpected ones. */
    static function Early(was: Groups, k: nat): seq<Error> {
      if k <= |was.interruptions| then was.interruptions[..k] else was.interruptions
    }

    static function Late(was: Groups, k: nat): seq<Error>
      requires k <= |was.interruptions| + |was.unexpected|
    {
      if k <= |was.interruptions| then [] else was.unexpected[..k - |was.interruptions|]
    }

    static lemma ReplayNext(was: Groups, k: nat)
      requires Sorted(was) && k < |was.interruptions| + |was.unexpected|
      ensures var e := (was.interruptions + was.unexpected)[k];
              if e.exception then Early(was, k + 1) == Early(was, k) && Late(was, k + 1) == Late(was, k) + [e]
              else Early(was, k + 1) == Early(was, k) + [e] && Late(was, k + 1) == Late(was, k)
    {
      var n := |was.interruptions|;
      if k < n {
        assert was.interruptions[k] in was.interruptions;
      } else {
        assert was.unexpected[k - n] in was.unexpected;
      }
    }

    method ReplaySevere(severe: seq<Error>, ghost was: Groups)
      requires Sorted(was) && severe == was.interruptions + was.unexpected
      requires !shared.completed && shared.interruptions == shared.unexpected == shared.ordinaryFailures == []
      modifies shared
      ensures !shared.completed && shared.originalPrimary == old(shared.originalPrimary)
      ensures shared.interruptions == was.interruptions && shared.unexpected == was.unexpected
      ensures shared.ordinaryFailures == []
    {
      for k := 0 to |severe|
        invariant !shared.completed && shared.originalPrimary == old(shared.originalPrimary)
        invariant shared.interruptions == Early(was, k) && shared.unexpected == Late(was, k)
        invariant shared.ordinaryFailures == []
      {
        ReplayNext(was, k);
        var _ := shared.Run(severe[k], NothingOrdinary);
      }
    }

    method ReplayOrdinary(ordinary: seq<Error>)
      requires (forall e :: e in ordinary ==> e.exception)
      requires !shared.completed && shared.ordinaryFailures == []
      modifies shared
      ensures !shared.completed && shared.originalPrimary == old(shared.originalPrimary)
      ensures shared.interruptions == old(shared.interruptions) && shared.unexpected == old(shared.unexpected)
      ensures shared.ordinaryFailures == ordinary
    {
      for k := 0 to |ordinary|
        invariant !shared.completed && shared.originalPrimary == old(shared.originalPrimary)
        invariant shared.interruptions == old(shared.interruptions) && shared.unexpected == old(shared.unexpected)
        invariant shared.ordinaryFailures == ordinary[..k]
      {
        var _ := shared.Run(ordinary[k], AnyException);
      }
    }

    /**
      Total: every distinct error is reported once, in order of precedence, with the context recorded
      for it at the highest rank it holds.
     */
    method Result() returns (ordered: seq<FailureInfo>)
      requires Valid()
      ensures Reports(View(), ordered, Entries(shared.View()))
    {
      ordered := [];
      var seen: seq<Error> := [];
      for rank := 0 to 4
        invariant seen == Distinct(Before(View().groups, rank)) && Reports(View(), ordered, seen)
      {
        ordered, seen := ReportGroup(View(), rank, ordered, seen);
      }
      BeforeAll(shared.View());
    }
  }

  lemma AddedConsistent(l: Ledger, f: FailureInfo)
    requires Consistent(l) && WellFormed(f)
    ensures Consistent(Added(l, f))
  {
    var m := Added(l, f);
    if (f.error, RankOf(f.kind)) !in l.contexts {
      forall rank: nat, e | rank < 4 && e in Group(m.groups, rank)
        ensures HasContext(m, e, rank)
      {
        if (e, rank) != (f.error, RankOf(f.kind)) {
          assert e in Group(l.groups, rank);
          assert HasContext(l, e, rank);
        }
      }
      forall key | key in m.contexts
        ensures key.1 < 4 && key.0 in Group(m.groups, key.1)
      {
        if key != (f.error, RankOf(f.kind)) {
          assert key in l.contexts;
        }
      }
    }
  }

  lemma PromotedConsistent(l: Ledger, e: Error, phase: Phase)
    requires Consistent(l) && ContextOk(phase, NoStream)
    ensures Consistent(Promoted(l, e, phase))
  {
    if AlreadyAuthoritative(l.groups, e) {
    } else if l.groups.primary == null && e.exception {
      var m := Promoted(l, e, phase);
      forall rank: nat, x | rank < 4 && x in Group(m.groups, rank)
        ensures HasContext(m, x, rank)
      {
        if rank != 2 {
          assert x in Group(l.groups, rank);
          assert HasContext(l, x, rank);
        }
      }
      forall key | key in m.contexts
        ensures key.1 < 4 && key.0 in Group(m.groups, key.1)
      {
        if key != (e, 2) {
          assert key in l.contexts;
        }
      }
    } else {
      AddedConsistent(l, Observed(e, AnyException, phase, NoStream));
    }
  }

  // ---------------------------------------------------------------- whole histories

  datatype Op =
    | Add(failure: FailureInfo)
    | Record(raised: Error, policy: Policy, phase: Phase, stream: Stream)
    | Primary(original: Error, context: Phase)

  predicate OpOk(op: Op) {
    match op
    case Add(f) => WellFormed(f)
    case Record(_, _, phase, stream) => ContextOk(phase, stream)
    case Primary(_, phase) => ContextOk(phase, NoStream)
  }

  function ErrorOf(op: Op): Error {
    match op
    case Add(f) => f.error
    case Record(e, _, _, _) => e
    case Primary(e, _) => e
  }

  function Apply(l: Ledger, op: Op): Ledger {
    match op
    case Add(f) => Added(l, f)
    case Record(e, policy, phase, stream) => Added(l, Observed(e, policy, phase, stream))
    case Primary(e, phase) => Promoted(l, e, phase)
  }

  function Run(l: Ledger, ops: seq<Op>): Ledger
    decreases ops
  {
    if ops == [] then l else Run(Apply(l, ops[0]), ops[1..])
  }

  /** Authority only rises: the head is replaced by a failure of a strictly higher rank or kept. */
  predicate Rises(g: Groups, h: Groups) {
    && HeadRank(h) <= HeadRank(g)
    && (Listed(g) != [] && HeadRank(h) == HeadRank(g) ==> Listed(h) != [] && Listed(h)[0] == Listed(g)[0])
  }

  lemma NoticedListed(g: Groups, e: Error, kind: Kind, x: Error)
    ensures x in Listed(Noticed(g, e, kind)) <==> x in Listed(g) || x == e
  {
  }

  lemma ApplyIs(l: Ledger, op: Op)
    requires Consistent(l) && OpOk(op)
    ensures Consistent(Apply(l, op))
    ensures Rises(l.groups, Apply(l, op).groups)
    ensures forall x :: x in Listed(Apply(l, op).groups) <==> x in Listed(l.groups) || x == ErrorOf(op)
  {
    var e := ErrorOf(op);
    match op {
      case Add(f) => AddedConsistent(l, f);
        AddedRises(l, f);
      case Record(_, policy, phase, stream) =>
        AddedConsistent(l, Observed(e, policy, phase, stream));
        AddedRises(l, Observed(e, policy, phase, stream));
      case Primary(_, phase) =>
        PromotedConsistent(l, e, phase);
        PromotedRises(l, e, phase);
    }
  }

  lemma AddedRises(l: Ledger, f: FailureInfo)
    requires Consistent(l) && WellFormed(f)
    ensures Rises(l.groups, Added(l, f).groups)
    ensures forall x :: x in Listed(Added(l, f).groups) <==> x in Listed(l.groups) || x == f.error
  {
    if (f.error, RankOf(f.kind)) in l.contexts {
      GroupListed(l.groups, RankOf(f.kind), f.error);
    } else {
      forall x {
        NoticedListed(l.groups, f.error, f.kind, x);
      }
    }
  }

  lemma PromotedRises(l: Ledger, e: Error, phase: Phase)
    requires Consistent(l) && ContextOk(phase, NoStream)
    ensures Rises(l.groups, Promoted(l, e, phase).groups)
    ensures forall x :: x in Listed(Promoted(l, e, phase).groups) <==> x in Listed(l.groups) || x == e
  {
    if !AlreadyAuthoritative(l.groups, e) && !(l.groups.primary == null && e.exception) {
      AddedRises(l, Observed(e, AnyException, phase, NoStream));
    }
  }

  /**
    Over any history of `add`, `record` and `primary`: nothing is lost and nothing invented, the head
    only rises in authority, and the ledger stays able to report every failure with its context.
   */
  lemma {:induction false} HistoryIs(l: Ledger, ops: seq<Op>)
    requires Consistent(l)
    requires forall i :: 0 <= i < |ops| ==> OpOk(ops[i])
    ensures Consistent(Run(l, ops))
    ensures Rises(l.groups, Run(l, ops).groups)
    ensures forall x :: x in Entries(Run(l, ops).groups) <==> x in Listed(l.groups) || Mentions(ops, x)
    ensures NoRepeats(Entries(Run(l, ops).groups))
    decreases ops
  {
    if ops == [] {
      ExtendIs([], Listed(l.groups));
    } else {
      ApplyIs(l, ops[0]);
      assert OpOk(ops[0]);
      HistoryIs(Apply(l, ops[0]), ops[1..]);
      forall x
        ensures Mentions(ops, x) <==> x == ErrorOf(ops[0]) || Mentions(ops[1..], x)
      {
        MentionsFirst(ops, x);
      }
    }
  }

  predicate Mentions(ops: seq<Op>, x: Error) {
    exists i :: 0 <= i < |ops| && ErrorOf(ops[i]) == x
  }

  lemma MentionsFirst(ops: seq<Op>, x: Error)
    requires ops != []
    ensures Mentions(ops, x) <==> x == ErrorOf(ops[0]) || Mentions(ops[1..], x)
  {
    if Mentions(ops, x) {
      var i :| 0 <= i < |ops| && ErrorOf(ops[i]) == x;
      if i > 0 {
        assert ops[1..][i - 1] == ops[i];
      }
    }
    if Mentions(ops[1..], x) {
      var i :| 0 <= i < |ops[1..]| && ErrorOf(ops[1..][i]) == x;
      assert ops[i + 1] == ops[1..][i];
    }
    if x == ErrorOf(ops[0]) {
      assert Mentions(ops, x);
    }
  }
}
