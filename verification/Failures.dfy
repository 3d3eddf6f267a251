/**
  Failure precedence: `CleanupFailures`, `attach_secondary` and `_FailureLedger`. An exception is an
  object, compared by identity; what matters of its type is whether it is an `Exception`, whether it
  is an `OSError`, and how it takes secondary failures.
 */
module Failures {

  const MAX_SECONDARY_NOTES := 32

  /** Its own `add_secondary`, a new attribute that holds objects, or only bounded notes. */
  datatype Carrier = OwnMethod | Attribute | NotesOnly

  class Error {
    const exception: bool        // otherwise process control: an interruption
    const os: bool
    const carrier: Carrier
    var given: seq<Error>        // the calls of its own `add_secondary` so far
    var secondary: seq<Error>    // what its attribute holds
    var notes: nat               // how many notes it carries

    constructor (exception: bool, os: bool, carrier: Carrier)
      ensures this.exception == exception && this.os == os && this.carrier == carrier
      ensures given == [] && secondary == [] && notes == 0
    {
      this.exception, this.os, this.carrier := exception, os, carrier;
      given, secondary, notes := [], [], 0;
    }
  }

  // ---------------------------------------------------------------- lists without repetition

  /** `existing` followed by the items of `more` that are new, each once, in order. */
  function Extend<T(==)>(existing: seq<T>, more: seq<T>): seq<T> {
    if more == [] then existing
    else
      var before := Extend(existing, more[..|more| - 1]);
      var last := more[|more| - 1];
      if last in before then before else before + [last]
  }

  function Distinct<T(==)>(items: seq<T>): seq<T> {
    Extend([], items)
  }

  predicate NoRepeats<T(==)>(items: seq<T>) {
    forall i, j :: 0 <= i < j < |items| ==> items[i] != items[j]
  }

  lemma {:induction false} ExtendIs<T>(existing: seq<T>, more: seq<T>)
    ensures existing <= Extend(existing, more)
    ensures forall x :: x in Extend(existing, more) <==> x in existing || x in more
    ensures NoRepeats(existing) ==> NoRepeats(Extend(existing, more))
  {
    if more != [] {
      ExtendIs(existing, more[..|more| - 1]);
      assert more == more[..|more| - 1] + [more[|more| - 1]];
    }
  }

  function Without<T(==)>(items: seq<T>, x: T): seq<T> {
    if items == [] then []
    else
      var before := Without(items[..|items| - 1], x);
      if items[|items| - 1] == x then before else before + [items[|items| - 1]]
  }

  lemma {:induction false} WithoutIs<T>(items: seq<T>, x: T)
    ensures forall y :: y in Without(items, x) <==> y in items && y != x
  {
    if items != [] {
      WithoutIs(items[..|items| - 1], x);
      assert items == items[..|items| - 1] + [items[|items| - 1]];
    }
  }

  lemma ExtendSnoc<T>(existing: seq<T>, more: seq<T>, last: T)
    ensures Extend(existing, more + [last]) ==
            var before := Extend(existing, more); if last in before then before else before + [last]
  {
    assert (more + [last])[..|more|] == more;
  }

  /** The list without its head, deduplicated, is the rest of the deduplicated list. */
  lemma {:induction false} DistinctTail<T>(head: T, rest: seq<T>)
    ensures Distinct([head] + rest) == [head] + Distinct(Without(rest, head))
  {
    if rest == [] {
      ExtendSnoc([], [], head);
      assert [head] + rest == [] + [head];
    } else {
      var init, last := rest[..|rest| - 1], rest[|rest| - 1];
      DistinctTail(head, init);
      assert [head] + rest == ([head] + init) + [last];
      ExtendSnoc([], [head] + init, last);
      ExtendSnoc([], Without(init, head), last);
      assert last in [head] + Distinct(Without(init, head)) <==> last == head || last in Distinct(Without(init, head));
    }
  }

  // ---------------------------------------------------------------- attach_secondary

  function Min(a: nat, b: nat): nat {
    if a <= b then a else b
  }

  /** How many notes an error carries once `more` have been offered, under the total cap. */
  function Noted(notes: nat, more: nat): nat {
    if notes >= MAX_SECONDARY_NOTES then notes else Min(MAX_SECONDARY_NOTES, notes + more)
  }

  function Offered(offers: seq<nat>): nat {
    if offers == [] then 0 else offers[0] + Offered(offers[1..])
  }

  function NotesAfter(notes: nat, offers: seq<nat>): nat
    decreases |offers|
  {
    if offers == [] then notes else NotesAfter(Noted(notes, offers[0]), offers[1..])
  }

  /**
    The cap is a total over every attachment to one error: nothing is dropped below it, nothing is
    added at it, and notes that were there before are never taken away.
   */
  lemma {:induction false} NotesAreCapped(notes: nat, offers: seq<nat>)
    ensures NotesAfter(notes, offers) ==
            if notes >= 32 then notes else if notes + Offered(offers) > 32 then 32 else notes + Offered(offers)
    decreases |offers|
  {
    if offers != [] {
      NotesAreCapped(Noted(notes, offers[0]), offers[1..]);
    }
  }

  /** The calls of its own `add_secondary` that `primary` has had once `secondary` was attached to it. */
  function Given(primary: Error, had: seq<Error>, secondary: seq<Error>): seq<Error> {
    if primary.carrier.OwnMethod? then had + Without(secondary, primary) else had
  }

  /** What the attribute of `primary` holds then. */
  function Retained(primary: Error, had: seq<Error>, secondary: seq<Error>): seq<Error> {
    if primary.carrier.Attribute? then Extend(had, Without(secondary, primary)) else had
  }

  method AttachSecondary(primary: Error, secondary: seq<Error>)
    modifies primary
    ensures primary.given == Given(primary, old(primary.given), secondary)
    ensures primary.secondary == Retained(primary, old(primary.secondary), secondary)
    ensures primary.notes == if primary.carrier.NotesOnly?
                             then Noted(old(primary.notes), |Distinct(Without(secondary, primary))|)
                             else old(primary.notes)
  {
    var pending := Pending(primary, secondary);
    if primary.carrier.OwnMethod? {
      GiveAll(primary, pending);
      return;
    }
    var held := if primary.carrier.Attribute? then primary.secondary else [];
    var collected := AppendUnique(held, pending);
    if primary.carrier.Attribute? {
      primary.secondary := collected;
    } else {
      primary.notes := Noted(primary.notes, |collected|);
    }
  }

  method Pending(primary: Error, secondary: seq<Error>) returns (pending: seq<Error>)
    ensures pending == Without(secondary, primary)
  {
    pending := [];
    for k := 0 to |secondary|
      invariant pending == Without(secondary[..k], primary)
    {
      assert secondary[..k + 1][..k] == secondary[..k];
      if secondary[k] != primary {
        pending := pending + [secondary[k]];
      }
    }
    assert secondary[..|secondary|] == secondary;
  }

  /** Each in turn through the error's own `add_secondary`. */
  method GiveAll(primary: Error, pending: seq<Error>)
    modifies primary`given
    ensures primary.given == old(primary.given) + pending
  {
    for k := 0 to |pending|
      invariant primary.given == old(primary.given) + pending[..k]
    {
      primary.given := primary.given + [pending[k]];
    }
    assert pending[..|pending|] == pending;
  }

  /** `_append_unique` for each in turn. */
  method AppendUnique(held: seq<Error>, pending: seq<Error>) returns (collected: seq<Error>)
    ensures collected == Extend(held, pending)
  {
    collected := held;
    for k := 0 to |pending|
      invariant collected == Extend(held, pending[..k])
    {
      assert pending[..k + 1][..k] == pending[..k];
      if pending[k] !in collected {
        collected := collected + [pending[k]];
      }
    }
    assert pending[..|pending|] == pending;
  }

  // ---------------------------------------------------------------- CleanupFailures

  datatype Kind = Ordinary | Unexpected | Interruption

  /** The exception types an action's caller declares ordinary. */
  datatype Policy = NothingOrdinary | OsErrors | AnyException

  function Classify(e: Error, policy: Policy): Kind {
    if !e.exception then Interruption
    else if policy.AnyException? || (policy.OsErrors? && e.os) then Ordinary
    else Unexpected
  }

  datatype Groups = Groups(interruptions: seq<Error>, unexpected: seq<Error>, primary: Error?, ordinary: seq<Error>)

  function PrimaryOf(g: Groups): seq<Error> {
    if g.primary == null then [] else [g.primary]
  }

  /** Every recorded failure in order of precedence. */
  function Listed(g: Groups): seq<Error> {
    g.interruptions + g.unexpected + PrimaryOf(g) + g.ordinary
  }

  /** `_entries`: each distinct failure once. */
  function Entries(g: Groups): seq<Error> {
    Distinct(Listed(g))
  }

  /** Each group holds only errors of its kind. */
  predicate Sorted(g: Groups) {
    && (forall e :: e in g.interruptions ==> !e.exception)
    && (forall e :: e in g.unexpected ==> e.exception)
    && (g.primary != null ==> g.primary.exception)
    && (forall e :: e in g.ordinary ==> e.exception)
  }

  function Started(primary: Error?): Groups {
    if primary == null then Groups([], [], null, [])
    else if primary.exception then Groups([], [], primary, [])
    else Groups([primary], [], null, [])
  }

  function Noticed(g: Groups, e: Error, kind: Kind): Groups {
    match kind
    case Interruption => g.(interruptions := g.interruptions + [e])
    case Unexpected => g.(unexpected := g.unexpected + [e])
    case Ordinary => g.(ordinary := g.ordinary + [e])
  }

  /** 0 interruption, 1 unexpected, 2 the caller's primary, 3 ordinary, 4 nothing at all. */
  function HeadRank(g: Groups): nat {
    if g.interruptions != [] then 0
    else if g.unexpected != [] then 1
    else if g.primary != null then 2
    else if g.ordinary != [] then 3
    else 4
  }

  datatype Completion =
    | AlreadyComplete            // RuntimeError
    | Raised(error: Error)
    | CallerPropagates           // None: the original primary stays authoritative
    | Returned(error: Error)
    | Clean                      // None: nothing failed

  /** Who must act on the head, by its rank. */
  function Settled(g: Groups): Completion {
    match HeadRank(g)
    case 0 => Raised(g.interruptions[0])
    case 1 => Raised(g.unexpected[0])
    case 2 => CallerPropagates
    case 3 => Returned(g.ordinary[0])
    case _ => Clean
  }

  class CleanupFailures {
    var originalPrimary: Error?
    var ordinaryFailures: seq<Error>
    var unexpected: seq<Error>
    var interruptions: seq<Error>
    var completed: bool

    function View(): Groups
      reads this
    {
      Groups(interruptions, unexpected, originalPrimary, ordinaryFailures)
    }

    ghost function Head(): set<Error>
      reads this
    {
      if Listed(View()) == [] then {} else {Listed(View())[0]}
    }

    constructor (primary: Error?)
      ensures View() == Started(primary) && !completed
    {
      ordinaryFailures, unexpected, interruptions, completed := [], [], [], false;
      originalPrimary := null;
      if primary != null {
        if primary.exception {
          originalPrimary := primary;
        } else {
          interruptions := [primary];
        }
      }
    }

    /** One attempted action, which raised `raised` or returned; refused after completion. */
    method Run(raised: Error?, policy: Policy) returns (accepted: bool)
      modifies this
      ensures accepted == !old(completed) && completed == old(completed)
      ensures View() == if accepted && raised != null
                        then Noticed(old(View()), raised, Classify(raised, policy))
                        else old(View())
    {
      if completed {
        return false;
      }
      accepted := true;
      if raised != null {
        if !raised.exception {
          interruptions := interruptions + [raised];
        } else if policy.AnyException? || (policy.OsErrors? && raised.os) {
          ordinaryFailures := ordinaryFailures + [raised];
        } else {
          unexpected := unexpected + [raised];
        }
      }
    }

    /** The head is raised, left to the caller or returned, with everything listed after it attached. */
    method Complete() returns (c: Completion)
      modifies this`completed, Head()
      ensures completed && View() == old(View())
      ensures c == if old(completed) then AlreadyComplete else Settled(View())
      ensures !old(completed) && Listed(View()) != [] ==>
                var listed := Listed(View());
                && listed[0].given == Given(listed[0], old(Listed(View())[0].given), listed[1..])
                && listed[0].secondary == Retained(listed[0], old(Listed(View())[0].secondary), listed[1..])
      ensures old(completed) ==>
                forall e :: e in Head() ==>
                  e.given == old(e.given) && e.secondary == old(e.secondary) && e.notes == old(e.notes)
    {
      if completed {
        return AlreadyComplete;
      }
      completed := true;
      ghost var listed := Listed(View());
      var rest: seq<Error>;
      if interruptions != [] {
        rest := AfterInterruption();
        assert listed[1..] == rest;
        AttachSecondary(interruptions[0], rest);
        return Raised(interruptions[0]);
      }
      if unexpected != [] {
        rest := AfterUnexpected();
        assert listed[1..] == rest;
        AttachSecondary(unexpected[0], rest);
        return Raised(unexpected[0]);
      }
      if originalPrimary != null {
        assert listed[1..] == ordinaryFailures;
        AttachSecondary(originalPrimary, ordinaryFailures);
        return CallerPropagates;
      }
      if ordinaryFailures != [] {
        assert listed[1..] == ordinaryFailures[1..];
        AttachSecondary(ordinaryFailures[0], ordinaryFailures[1..]);
        return Returned(ordinaryFailures[0]);
      }
      return Clean;
    }

    method AfterInterruption() returns (rest: seq<Error>)
      requires interruptions != []
      ensures rest == Listed(View())[1..]
    {
      rest := interruptions[1..] + unexpected;
      if originalPrimary != null {
        rest := rest + [originalPrimary];
      }
      rest := rest + ordinaryFailures;
    }

    method AfterUnexpected() returns (rest: seq<Error>)
      requires interruptions == [] && unexpected != []
      ensures rest == Listed(View())[1..]
    {
      rest := unexpected[1..];
      if originalPrimary != null {
        rest := rest + [originalPrimary];
      }
      rest := rest + ordinaryFailures;
    }
  }

  /** The first entry is the first of the highest group present. */
  lemma HeadIs(g: Groups)
    requires Listed(g) != []
    ensures Entries(g) != [] && Entries(g)[0] == Listed(g)[0]
    ensures HeadRank(g) == 0 ==> Listed(g)[0] == g.interruptions[0]
    ensures HeadRank(g) == 1 ==> Listed(g)[0] == g.unexpected[0]
    ensures HeadRank(g) == 2 ==> Listed(g)[0] == g.primary
    ensures HeadRank(g) == 3 ==> Listed(g)[0] == g.ordinary[0]
  {
    var l := Listed(g);
    assert l == [l[0]] + l[1..];
    DistinctTail(l[0], l[1..]);
  }

  /** A head that held nothing, with what is attached to it: each distinct failure once. */
  lemma RetainedTail(head: Error, rest: seq<Error>)
    ensures head.carrier.Attribute? ==> [head] + Retained(head, [], rest) == Distinct([head] + rest)
  {
    DistinctTail(head, rest);
  }

  /** What a head carried before stays, and every other failure listed after it is there, too. */
  lemma NothingLost(head: Error, had: seq<Error>, rest: seq<Error>)
    ensures head.carrier.Attribute? ==>
              var out := Retained(head, had, rest);
              had <= out && forall x :: x in rest ==> x == head || x in out
    ensures head.carrier.OwnMethod? ==>
              var out := Given(head, had, rest);
              had <= out && forall x :: x in rest ==> x == head || x in out
  {
    WithoutIs(rest, head);
    ExtendIs(had, Without(rest, head));
  }

  /**
    `complete` acts on the first entry. A head with an attribute then holds every other distinct failure
    besides what it held: one that held nothing makes, with its attachments, exactly the entries in order
    of precedence. A head with its own `add_secondary` was given each of them. What neither can do is
    counted in bounded notes.
   */
  lemma CompletionLosesNothing(g: Groups, had: seq<Error>)
    requires Listed(g) != []
    ensures var head, rest := Listed(g)[0], Listed(g)[1..];
            && Entries(g) != [] && head == Entries(g)[0]
            && Settled(g) in {Raised(head), CallerPropagates, Returned(head)}
            && (Settled(g).CallerPropagates? ==> head == g.primary)
            && (head.carrier.Attribute? ==> [head] + Retained(head, [], rest) == Entries(g))
            && (head.carrier.Attribute? ==>
                  var out := Retained(head, had, rest);
                  had <= out && forall x :: x in rest ==> x == head || x in out)
            && (head.carrier.OwnMethod? ==>
                  var out := Given(head, had, rest);
                  had <= out && forall x :: x in rest ==> x == head || x in out)
  {
    var head, rest := Listed(g)[0], Listed(g)[1..];
    HeadIs(g);
    assert Listed(g) == [head] + rest;
    RetainedTail(head, rest);
    NothingLost(head, had, rest);
  }
}
