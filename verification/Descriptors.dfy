/**
  Descriptor ownership: secure path walks, adoption, child creation and recursive removal, over an
  operating system in which every call may fail. A log records each open and each close attempt.
 */
module Descriptors {

  datatype Op = Opened(fd: nat) | Closed(fd: nat)

  /** The descriptors a log leaves open, and those it closed; `Bad` once a close hit a dead one. */
  datatype Account = Bad | Account(live: set<nat>, closed: set<nat>)

  function Audit(log: seq<Op>): Account {
    if log == [] then Account({}, {})
    else
      match (Audit(log[..|log| - 1]), log[|log| - 1])
      case (Bad, _) => Bad
      case (Account(live, closed), Opened(fd)) =>
        if fd in live + closed then Bad else Account(live + {fd}, closed)
      case (Account(live, closed), Closed(fd)) =>
        if fd in live then Account(live - {fd}, closed + {fd}) else Bad
  }

  /** Between two moments of a log at most `limit` descriptors were open at once. */
  predicate Peak(log: seq<Op>, from: nat, limit: nat) {
    forall k :: from <= k <= |log| ==> Audit(log[..k]).Account? && |Audit(log[..k]).live| <= limit
  }

  /** How a system call or a validation ends: a result, an `OSError` or something more severe. */
  datatype Outcome = Fine | Ordinary | Severe

  datatype Opening = Got(fd: nat) | Refused(error: Outcome)

  class System {
    var log: seq<Op>
    var next: nat
    ghost var failures: nat   // calls and checks that did not end well
    ghost var severes: nat    // those of them that were no `OSError`

    predicate Valid()
      reads this
    {
      Audit(log).Account? && forall fd :: fd in Audit(log).live + Audit(log).closed ==> fd < next
    }

    constructor ()
      ensures Valid() && log == []
    {
      log, next, failures, severes := [], 0, 0, 0;
    }

    function Live(): set<nat>
      requires Valid()
      reads this
    {
      Audit(log).live
    }

    /** `openat`: a fresh descriptor or a failure. */
    method OpenAt() returns (r: Opening)
      requires Valid()
      modifies this
      ensures Valid()
      ensures r.Got? ==> log == old(log) + [Opened(r.fd)] && Live() == old(Live()) + {r.fd} && r.fd !in old(Live())
      ensures r.Refused? ==> log == old(log) && !r.error.Fine?
      ensures failures == old(failures) + if r.Got? then 0 else 1
      ensures severes == old(severes) + if r.Refused? && r.error.Severe? then 1 else 0
    {
      var ok: bool := *;
      if ok {
        r := Got(next);
        assert (log + [Opened(next)])[..|log|] == log;
        log, next := log + [Opened(next)], next + 1;
      } else {
        var severe: bool := *;
        failures := failures + 1;
        severes := severes + if severe then 1 else 0;
        r := Refused(if severe then Severe else Ordinary);
      }
    }

    /** `close`: the attempt counts, whatever it reports. */
    method Close(fd: nat) returns (r: Outcome)
      requires Valid() && fd in Live()
      modifies this
      ensures Valid() && log == old(log) + [Closed(fd)] && Live() == old(Live()) - {fd}
      ensures failures == old(failures) + if r == Fine then 0 else 1
      ensures severes == old(severes) + if r == Severe then 1 else 0
    {
      assert (log + [Closed(fd)])[..|log|] == log;
      assert fd in Audit(log).live + Audit(log).closed;
      log := log + [Closed(fd)];
      r := Any();
    }

    /** Any other call or check: `fstat` and its verdict, `fchmod`, `mkdirat`. */
    method Any() returns (r: Outcome)
      modifies this`failures, this`severes
      ensures failures == old(failures) + if r == Fine then 0 else 1
      ensures severes == old(severes) + if r == Severe then 1 else 0
    {
      var ok: bool := *;
      var severe: bool := *;
      r := if ok then Fine else if severe then Severe else Ordinary;
      failures := failures + if ok then 0 else 1;
      severes := severes + if r == Severe then 1 else 0;
    }
  }

  // ---------------------------------------------------------------- peaks

  lemma PeakStep(log: seq<Op>, op: Op, from: nat, limit: nat)
    requires Peak(log, from, limit)
    requires Audit(log + [op]).Account? && |Audit(log + [op]).live| <= limit
    ensures Peak(log + [op], from, limit)
  {
    forall k | from <= k <= |log + [op]|
      ensures Audit((log + [op])[..k]).Account? && |Audit((log + [op])[..k]).live| <= limit
    {
      if k <= |log| {
        assert (log + [op])[..k] == log[..k];
      } else {
        assert (log + [op])[..k] == log + [op];
      }
    }
  }

  lemma PeakNow(log: seq<Op>, limit: nat)
    requires Audit(log).Account? && |Audit(log).live| <= limit
    ensures Peak(log, |log|, limit)
  {
    assert log[..|log|] == log;
  }

  // ---------------------------------------------------------------- what an audited log says

  function Opens(log: seq<Op>, fd: nat): nat {
    if log == [] then 0 else Opens(log[..|log| - 1], fd) + if log[|log| - 1] == Opened(fd) then 1 else 0
  }

  function Closes(log: seq<Op>, fd: nat): nat {
    if log == [] then 0 else Closes(log[..|log| - 1], fd) + if log[|log| - 1] == Closed(fd) then 1 else 0
  }

  /** A log that audits: no descriptor is closed twice, and the open ones are those never closed. */
  lemma {:induction false} AuditIs(log: seq<Op>, fd: nat)
    requires Audit(log).Account?
    ensures Closes(log, fd) <= Opens(log, fd) <= 1
    ensures fd in Audit(log).live <==> Opens(log, fd) == 1 && Closes(log, fd) == 0
    ensures fd in Audit(log).closed <==> Closes(log, fd) == 1
    ensures Audit(log).live !! Audit(log).closed
  {
    if log != [] {
      AuditIs(log[..|log| - 1], fd);
    }
  }

  // ---------------------------------------------------------------- ownership

  datatype Ownership = Live | Transferred | Released

  class OwnedDescriptor {
    const fd: nat
    var state: Ownership

    constructor (fd: nat)
      ensures this.fd == fd && state == Live
    {
      this.fd := fd;
      state := Live;
    }

    /** At most one close attempt: the state changes before the attempt. */
    method Close(w: System) returns (r: Outcome)
      requires w.Valid() && (state == Live ==> fd in w.Live())
      modifies this, w
      ensures w.Valid()
      ensures old(state) == Live ==>
                state == Released && w.log == old(w.log) + [Closed(fd)] && w.Live() == old(w.Live()) - {fd}
      ensures old(state) != Live ==> state == old(state) && w.log == old(w.log) && r == Fine
      ensures w.failures == old(w.failures) + if r == Fine then 0 else 1
      ensures w.severes == old(w.severes) + if r == Severe then 1 else 0
    {
      r := Fine;
      if state == Live {
        state := Released;
        r := w.Close(fd);
      }
    }

    /** The raw descriptor goes to the caller; a later close does nothing. */
    method Detach() returns (r: Opening)
      modifies this
      ensures old(state) == Live ==> r == Got(fd) && state == Transferred
      ensures old(state) != Live ==> r.Refused? && state == old(state)
    {
      if state != Live {
        return Refused(Ordinary);
      }
      state := Transferred;
      return Got(fd);
    }
  }

  // ---------------------------------------------------------------- adoption

  /**
    `adopt`: the descriptor belongs to the result or has had its one close attempt. The result is the
    directory owner, null when validation failed.
   */
  method Adopt(w: System, fd: nat) returns (d: OwnedDescriptor?)
    requires w.Valid() && fd in w.Live()
    modifies w
    ensures w.Valid()
    ensures d != null ==> fresh(d) && d.fd == fd && d.state == Live && w.log == old(w.log) && w.Live() == old(w.Live())
    ensures d == null ==> w.log == old(w.log) + [Closed(fd)] && w.Live() == old(w.Live()) - {fd}
    ensures w.failures >= old(w.failures) && (d != null <==> w.failures == old(w.failures))
    ensures d != null ==> w.severes == old(w.severes)
  {
    d := new OwnedDescriptor(fd);
    var stat := w.Any();
    if stat == Fine {
      stat := w.Any();  // a directory, of the right owner
    }
    if stat != Fine {
      var _ := d.Close(w);
      d := null;
    }
  }

  /** `_secure_and_adopt`: validated before its mode is changed, and released once if that fails. */
  method SecureAndAdopt(w: System, fd: nat, secure: bool) returns (d: OwnedDescriptor?)
    requires w.Valid() && fd in w.Live()
    modifies w
    ensures w.Valid()
    ensures d != null ==> fresh(d) && d.fd == fd && d.state == Live && w.log == old(w.log) && w.Live() == old(w.Live())
    ensures d == null ==> w.log == old(w.log) + [Closed(fd)] && w.Live() == old(w.Live()) - {fd}
    ensures w.failures >= old(w.failures) && (d != null <==> w.failures == old(w.failures))
    ensures d != null ==> w.severes == old(w.severes)
  {
    d := Adopt(w, fd);
    if d != null && secure {
      var chmod := w.Any();
      if chmod != Fine {
        var _ := d.Close(w);
        d := null;
      }
    }
  }

  /** What opening one child leaves in the log. */
  ghost predicate OpenedChild(before: seq<Op>, after: seq<Op>, kept: Opening) {
    if kept.Got? then after == before + [Opened(kept.fd)]
    else after == before || exists fd :: after == before + [Opened(fd), Closed(fd)]
  }

  function Kept(d: OwnedDescriptor?): Opening {
    if d == null then Refused(Ordinary) else Got(d.fd)
  }

  /** `_open_validated_child`. */
  method OpenValidatedChild(w: System, secure: bool) returns (d: OwnedDescriptor?)
    requires w.Valid()
    modifies w
    ensures w.Valid() && OpenedChild(old(w.log), w.log, Kept(d))
    ensures d != null ==> fresh(d) && d.state == Live && d.fd !in old(w.Live()) && w.Live() == old(w.Live()) + {d.fd}
    ensures d == null ==> w.Live() == old(w.Live())
    ensures w.failures >= old(w.failures) && (d != null <==> w.failures == old(w.failures))
    ensures d != null ==> w.severes == old(w.severes)
  {
    var opening := w.OpenAt();
    if opening.Refused? {
      return null;
    }
    d := SecureAndAdopt(w, opening.fd, secure);
    assert [Opened(opening.fd)] + [Closed(opening.fd)] == [Opened(opening.fd), Closed(opening.fd)];
    assert d == null ==> w.log == old(w.log) + [Opened(opening.fd), Closed(opening.fd)];
  }

  /** `open_or_create_directory`: only a missing child is created; it never holds two. */
  method OpenOrCreateDirectory(w: System) returns (d: OwnedDescriptor?)
    requires w.Valid()
    modifies w
    ensures w.Valid() && OpenedChild(old(w.log), w.log, Kept(d))
    ensures d != null ==> fresh(d) && d.state == Live && d.fd !in old(w.Live()) && w.Live() == old(w.Live()) + {d.fd}
    ensures d == null ==> w.Live() == old(w.Live())
    ensures d == null ==> w.failures > old(w.failures)
    ensures d != null ==> w.failures <= old(w.failures) + 1 && w.severes == old(w.severes)
  {
    var opening := w.OpenAt();
    if opening.Refused? {
      var missing: bool := *;
      if opening.error == Severe || !missing {
        return null;
      }
      var made := w.Any();
      if made != Fine {
        return null;
      }
      d := OpenValidatedChild(w, true);
      return;
    }
    d := SecureAndAdopt(w, opening.fd, true);
    assert [Opened(opening.fd)] + [Closed(opening.fd)] == [Opened(opening.fd), Closed(opening.fd)];
    assert d == null ==> w.log == old(w.log) + [Opened(opening.fd), Closed(opening.fd)];
  }

  // ---------------------------------------------------------------- the secure walk

  /** Since `start` at most `limit` descriptors were open at once, and now exactly `live` are. */
  predicate Walked(log: seq<Op>, start: nat, limit: nat, live: set<nat>) {
    && Audit(log).Account? && Audit(log).live == live
    && start <= |log| && Peak(log, start, limit)
  }

  lemma WalkedStep(log: seq<Op>, op: Op, start: nat, limit: nat, live: set<nat>, now: set<nat>)
    requires Walked(log, start, limit, live)
    requires Audit(log + [op]).Account? && Audit(log + [op]).live == now && |now| <= limit
    ensures Walked(log + [op], start, limit, now)
  {
    PeakStep(log, op, start, limit);
  }

  /** Opening one more on top of at most one. */
  lemma WalkedOpen(log: seq<Op>, start: nat, base: set<nat>, held: set<nat>, fd: nat)
    requires Walked(log, start, |base| + 2, base + held) && |held| <= 1 && fd !in base + held
    requires Audit(log + [Opened(fd)]) == Account(base + held + {fd}, Audit(log).closed)
    ensures Walked(log + [Opened(fd)], start, |base| + 2, base + held + {fd})
  {
    assert |base + held| <= |base| + |held|;
    WalkedStep(log, Opened(fd), start, |base| + 2, base + held, base + held + {fd});
  }

  lemma AuditOpen(log: seq<Op>, fd: nat)
    requires Audit(log).Account? && Audit(log + [Opened(fd)]).Account?
    ensures Audit(log + [Opened(fd)]) == Account(Audit(log).live + {fd}, Audit(log).closed)
  {
    assert (log + [Opened(fd)])[..|log|] == log;
  }

  /**
    `open_secure_path` over `depth` components: whatever fails, every descriptor it opens has had
    exactly one close attempt except the one it returns, and it never holds more than two. It returns
    one exactly when nothing failed, and then the log shows one open per component and one for the
    root, and a close for all but the last.
   */
  method OpenSecurePath(w: System, depth: nat) returns (d: OwnedDescriptor?)
    requires w.Valid()
    modifies w
    ensures w.Valid() && old(w.log) <= w.log
    ensures d != null ==> fresh(d) && d.state == Live && d.fd !in old(w.Live())
    ensures Walked(w.log, |old(w.log)|, |old(w.Live())| + 2, old(w.Live()) + if d == null then {} else {d.fd})
    ensures d != null <==> w.failures == old(w.failures)
    ensures d != null ==> |w.log| == |old(w.log)| + 2 * depth + 1
  {
    ghost var start, base := |w.log|, w.Live();
    ghost var limit := |base| + 2;
    assert w.log[..start] == w.log;
    PeakNow(w.log, limit);
    var root := w.OpenAt();
    if root.Refused? {
      return null;
    }
    AuditOpen(old(w.log), root.fd);
    assert base + {} == base;
    WalkedOpen(old(w.log), start, base, {}, root.fd);
    if depth == 0 {
      ghost var before := w.log;
      d := Adopt(w, root.fd);
      if d == null {
        WalkedStep(before, Closed(root.fd), start, limit, base + {root.fd}, base);
        assert base + {root.fd} - {root.fd} == base;
      }
      return;
    }
    d := WalkComponents(w, root.fd, depth, start, base);
  }

  /** The loop over the components and the releases after it. */
  method WalkComponents(w: System, root: nat, depth: nat, ghost start: nat, ghost base: set<nat>)
      returns (d: OwnedDescriptor?)
    requires w.Valid() && depth > 0 && root !in base
    requires Walked(w.log, start, |base| + 2, base + {root})
    modifies w
    ensures w.Valid() && old(w.log) <= w.log
    ensures d != null ==> fresh(d) && d.state == Live && d.fd !in base
    ensures Walked(w.log, start, |base| + 2, base + if d == null then {} else {d.fd})
    ensures w.failures >= old(w.failures) && (d != null <==> w.failures == old(w.failures))
    ensures d != null ==> |w.log| == |old(w.log)| + 2 * depth
  {
    var retained := new OwnedDescriptor(root);
    var capability: OwnedDescriptor? := null;
    var failed := false;
    var index := 0;
    while index < depth && !failed && capability == null
      invariant w.Valid() && old(w.log) <= w.log
      invariant fresh(retained) && retained.state == Live && retained.fd !in base
      invariant capability != null ==>
                  fresh(capability) && capability != retained && capability.state == Live
                  && capability.fd !in base + {retained.fd}
      invariant Walked(w.log, start, |base| + 2,
                       base + {retained.fd} + if capability == null then {} else {capability.fd})
      invariant !failed && capability == null ==> index < depth
      invariant w.failures >= old(w.failures) && (failed <==> w.failures > old(w.failures))
      invariant index <= depth && (capability != null ==> index == depth)
      invariant !failed ==> |w.log| == |old(w.log)| + 2 * index - if capability == null then 0 else 1
      decreases depth - index, !failed
    {
      failed, retained, capability := Descend(w, retained, index == depth - 1, start, base);
      index := index + 1;
    }
    d := ReleaseWalk(w, retained, capability, failed, start, base);
  }

  /** One component: the child is opened relative to the retained parent and takes its place. */
  method Descend(w: System, parent: OwnedDescriptor, last: bool, ghost start: nat, ghost base: set<nat>)
      returns (failed: bool, retained: OwnedDescriptor, capability: OwnedDescriptor?)
    requires w.Valid() && parent.state == Live && parent.fd !in base
    requires Walked(w.log, start, |base| + 2, base + {parent.fd})
    modifies w, parent
    ensures w.Valid() && old(w.log) <= w.log
    ensures (retained == parent || fresh(retained)) && retained.state == Live && retained.fd !in base
    ensures capability != null ==>
              fresh(capability) && capability != retained && capability.state == Live
              && capability.fd !in base + {retained.fd}
    ensures Walked(w.log, start, |base| + 2, base + {retained.fd} + if capability == null then {} else {capability.fd})
    ensures failed ==> capability == null
    ensures !failed ==> (capability != null <==> last)
    ensures w.failures >= old(w.failures) && (failed <==> w.failures > old(w.failures))
    ensures !failed ==> |w.log| == |old(w.log)| + if last then 1 else 2
  {
    failed, retained, capability := true, parent, null;
    ghost var before := w.log;
    var opening := w.OpenAt();
    if opening.Refused? {
      return;
    }
    var child := opening.fd;
    AuditOpen(before, child);
    WalkedOpen(before, start, base, {parent.fd}, child);
    assert base + {parent.fd} + {child} == base + {parent.fd, child};
    if last {
      capability := AdoptLeaf(w, child, start, base, parent.fd);
      failed := capability == null;
    } else {
      failed, retained := StepDown(w, parent, child, start, base);
    }
  }

  /** The last component: adoption owns the child, or has closed it. */
  method AdoptLeaf(w: System, child: nat, ghost start: nat, ghost base: set<nat>, ghost parent: nat)
      returns (capability: OwnedDescriptor?)
    requires w.Valid() && parent !in base && child !in base + {parent}
    requires Walked(w.log, start, |base| + 2, base + {parent, child})
    modifies w
    ensures w.Valid() && old(w.log) <= w.log
    ensures capability != null ==>
              fresh(capability) && capability.fd == child && capability.state == Live && w.log == old(w.log)
    ensures Walked(w.log, start, |base| + 2, base + {parent} + if capability == null then {} else {child})
    ensures w.failures >= old(w.failures) && (capability == null <==> w.failures > old(w.failures))
  {
    ghost var before := w.log;
    capability := Adopt(w, child);
    assert base + {parent} + {child} == base + {parent, child};
    assert base + {parent} + {} == base + {parent, child} - {child};
    if capability == null {
      WalkedStep(before, Closed(child), start, |base| + 2, base + {parent, child}, base + {parent});
    }
  }

  /** Any other component: the child replaces the parent, which has its one close attempt. */
  method StepDown(w: System, parent: OwnedDescriptor, child: nat, ghost start: nat, ghost base: set<nat>)
      returns (failed: bool, retained: OwnedDescriptor)
    requires w.Valid() && parent.state == Live && parent.fd !in base && child !in base + {parent.fd}
    requires Walked(w.log, start, |base| + 2, base + {parent.fd, child})
    modifies w, parent
    ensures w.Valid() && |w.log| == |old(w.log)| + 1 && old(w.log) <= w.log
    ensures fresh(retained) && retained.state == Live && retained.fd == child
    ensures Walked(w.log, start, |base| + 2, base + {child})
    ensures w.failures >= old(w.failures) && (failed <==> w.failures > old(w.failures))
  {
    ghost var before := w.log;
    retained := new OwnedDescriptor(child);
    var closed := parent.Close(w);
    failed := closed != Fine;
    assert base + {parent.fd, child} - {parent.fd} == base + {child};
    WalkedStep(before, Closed(parent.fd), start, |base| + 2, base + {parent.fd, child}, base + {child});
  }

  /** The independent releases at the end: the parent always, the leaf unless it can be returned. */
  method ReleaseWalk(w: System, retained: OwnedDescriptor, capability: OwnedDescriptor?, failed: bool,
                     ghost start: nat, ghost base: set<nat>) returns (d: OwnedDescriptor?)
    requires w.Valid() && retained.state == Live && retained.fd !in base
    requires capability != null ==>
               capability != retained && capability.state == Live && capability.fd !in base + {retained.fd}
    requires Walked(w.log, start, |base| + 2, base + {retained.fd} + if capability == null then {} else {capability.fd})
    modifies w, retained, if capability == null then {} else {capability}
    ensures w.Valid() && old(w.log) <= w.log
    ensures d != null ==> d == capability && d.state == Live
    ensures Walked(w.log, start, |base| + 2, base + if d == null then {} else {d.fd})
    ensures w.failures >= old(w.failures)
    ensures d != null <==> capability != null && !failed && w.failures == old(w.failures)
    ensures d != null ==> |w.log| == |old(w.log)| + 1
  {
    ghost var leaf: set<nat> := if capability == null then {} else {capability.fd};
    ghost var before := w.log;
    var closed := retained.Close(w);
    assert base + {retained.fd} + leaf - {retained.fd} == base + leaf;
    WalkedStep(before, Closed(retained.fd), start, |base| + 2, base + {retained.fd} + leaf, base + leaf);
    d := capability;
    if capability != null && (failed || closed != Fine) {
      before := w.log;
      var _ := capability.Close(w);
      assert base + leaf - {capability.fd} == base;
      WalkedStep(before, Closed(capability.fd), start, |base| + 2, base + leaf, base);
      d := null;
    }
  }
}
