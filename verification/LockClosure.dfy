/** `_validate_closure`: the installed part of the lock graph, its omissions and its rejections. */
module LockClosure {
  import opened Common
  import opened LockPaths
  import opened LockGraph

  datatype Omitted = Omitted(parent: string, name: string, range: string)

  /** One required or optional reference to an installed node. */
  datatype Reference = Reference(parent: string, target: string, optional: bool)

  datatype Fault = MissingNode | UnsatisfiedRange | InapplicableRequired | OptionalMarkedRequired

  /** What one edge of an installed node comes to. */
  datatype Verdict = Skip | Reject(fault: Fault) | Omit | Follow(target: string)

  function Judge(m: Lock, sat: Satisfies, e: Edge, resolved: Option<string>): Verdict
    requires resolved.Some? ==> resolved.value in m
  {
    if resolved.None? then (if e.kind.Peer? && e.optional then Skip else Reject(MissingNode))
    else
      var node := m[resolved.value];
      if !sat(e.range, node.version) then Reject(UnsatisfiedRange)
      else if !node.applicable then (if e.optional then Omit else Reject(InapplicableRequired))
      else Follow(resolved.value)
  }

  function VerdictOf(m: Lock, sat: Satisfies, p: string, e: Edge): Verdict {
    ResolvedInLock(m, p, e.name, e.kind);
    Judge(m, sat, e, Resolve(m.Keys, p, e.name, e.kind))
  }

  // ---------------------------------------------------------------- what a closure must be

  /** How an edge of an installed node can break the closure's contract. */
  predicate Breaks(m: Lock, sat: Satisfies, p: string, e: Edge, fault: Fault) {
    ResolvedInLock(m, p, e.name, e.kind);
    var r := Resolve(m.Keys, p, e.name, e.kind);
    match fault
    case MissingNode => r.None? && !(e.kind.Peer? && e.optional)
    case UnsatisfiedRange => r.Some? && !sat(e.range, m[r.value].version)
    case InapplicableRequired =>
      r.Some? && sat(e.range, m[r.value].version) && !m[r.value].applicable && !e.optional
    case OptionalMarkedRequired =>
      r.Some? && sat(e.range, m[r.value].version) && m[r.value].applicable && m[r.value].optional && !e.optional
  }

  ghost predicate BrokenAt(m: Lock, sat: Satisfies, p: string, fault: Fault) {
    p in m && Reaches(m, true, p) && exists e :: e in Edges(m[p]) && Breaks(m, sat, p, e, fault)
  }

  /** No installed node breaks the contract in any way. */
  ghost predicate Acceptable(m: Lock, sat: Satisfies) {
    forall p, fault :: !BrokenAt(m, sat, p, fault)
  }

  /** An optional edge of `o.parent` leads to a node that cannot be installed here. */
  predicate Omits(m: Lock, sat: Satisfies, o: Omitted) {
    o.parent in m && exists e :: e in Edges(m[o.parent]) && e.name == o.name && e.range == o.range
                                 && VerdictOf(m, sat, o.parent, e).Omit?
  }

  // ---------------------------------------------------------------- one node

  function OmissionsOf(m: Lock, sat: Satisfies, p: string, edges: seq<Edge>): seq<Omitted> {
    if edges == [] then []
    else
      var e := edges[|edges| - 1];
      OmissionsOf(m, sat, p, edges[..|edges| - 1])
      + if VerdictOf(m, sat, p, e).Omit? then [Omitted(p, e.name, e.range)] else []
  }

  function ReferencesOf(m: Lock, sat: Satisfies, p: string, edges: seq<Edge>): seq<Reference> {
    if edges == [] then []
    else
      var e := edges[|edges| - 1];
      var v := VerdictOf(m, sat, p, e);
      ReferencesOf(m, sat, p, edges[..|edges| - 1])
      + if v.Follow? then [Reference(p, v.target, e.optional)] else []
  }

  lemma {:induction false} OmissionsOfIs(m: Lock, sat: Satisfies, p: string, edges: seq<Edge>, o: Omitted)
    ensures o in OmissionsOf(m, sat, p, edges) <==>
              o.parent == p
              && exists e :: e in edges && e.name == o.name && e.range == o.range && VerdictOf(m, sat, p, e).Omit?
  {
    if edges != [] {
      OmissionsOfIs(m, sat, p, edges[..|edges| - 1], o);
      assert edges == edges[..|edges| - 1] + [edges[|edges| - 1]];
    }
  }

  lemma {:induction false} ReferencesOfIs(m: Lock, sat: Satisfies, p: string, edges: seq<Edge>, r: Reference)
    ensures r in ReferencesOf(m, sat, p, edges) <==>
              r.parent == p
              && exists e :: e in edges && e.optional == r.optional && VerdictOf(m, sat, p, e) == Follow(r.target)
  {
    if edges != [] {
      ReferencesOfIs(m, sat, p, edges[..|edges| - 1], r);
      assert edges == edges[..|edges| - 1] + [edges[|edges| - 1]];
    }
  }

  datatype Books = Books(omitted: seq<Omitted>, refs: seq<Reference>)

  function Entered(m: Lock, sat: Satisfies, books: Books, p: string, edges: seq<Edge>): Books {
    Books(books.omitted + OmissionsOf(m, sat, p, edges), books.refs + ReferencesOf(m, sat, p, edges))
  }

  predicate NoRejection(m: Lock, sat: Satisfies, p: string, edges: seq<Edge>) {
    forall k :: 0 <= k < |edges| ==> !VerdictOf(m, sat, p, edges[k]).Reject?
  }

  function Noted(m: Lock, sat: Satisfies, books: Books, p: string, e: Edge): Books {
    match VerdictOf(m, sat, p, e)
    case Omit => books.(omitted := books.omitted + [Omitted(p, e.name, e.range)])
    case Follow(target) => books.(refs := books.refs + [Reference(p, target, e.optional)])
    case _ => books
  }

  /** One edge of an installed node. */
  method CloseEdge(m: Lock, sat: Satisfies, path: string, e: Edge, visited: set<string>, waiting: seq<string>,
                   books: Books)
      returns (fault: Option<Fault>, queue: seq<string>, after: Books)
    requires path in m && Reaches(m, true, path) && e in Edges(m[path])
    requires Sound(m, true, Elements(waiting))
    ensures fault.None? ==> !VerdictOf(m, sat, path, e).Reject? && after == Noted(m, sat, books, path, e)
    ensures fault.None? ==> waiting <= queue && Sound(m, true, Elements(queue))
    ensures fault.None? ==> LeadsTo(m, true, path, e, visited + Elements(queue))
    ensures fault.Some? ==> Breaks(m, sat, path, e, fault.value)
  {
    fault, queue, after := None, waiting, books;
    var resolved := ResolveEdge(m, path, e.name, e.kind);
    ResolvedInLock(m, path, e.name, e.kind);
    if resolved.None? {
      if !(e.kind.Peer? && e.optional) {
        fault := Some(MissingNode);
      }
    } else if !sat(e.range, m[resolved.value].version) {
      fault := Some(UnsatisfiedRange);
    } else if !m[resolved.value].applicable {
      if e.optional {
        after := after.(omitted := after.omitted + [Omitted(path, e.name, e.range)]);
      } else {
        fault := Some(InapplicableRequired);
      }
    } else {
      after := after.(refs := after.refs + [Reference(path, resolved.value, e.optional)]);
      assert Links(m, path, resolved.value);
      queue := Push(m, true, path, resolved.value, visited, queue);
    }
  }

  /** The state of that loop after `i` edges. */
  ghost predicate Closing(m: Lock, sat: Satisfies, path: string, visited: set<string>, waiting: seq<string>,
                          books: Books, i: nat, queue: seq<string>, after: Books) {
    && path in m && i <= |Edges(m[path])|
    && waiting <= queue && Sound(m, true, Elements(queue))
    && Expanded(m, true, path, i, visited + Elements(queue))
    && NoRejection(m, sat, path, Edges(m[path])[..i])
    && after == Entered(m, sat, books, path, Edges(m[path])[..i])
  }

  lemma ClosingNext(m: Lock, sat: Satisfies, path: string, visited: set<string>, waiting: seq<string>, books: Books,
                    i: nat, queue: seq<string>, after: Books, more: seq<string>, noted: Books)
    requires Closing(m, sat, path, visited, waiting, books, i, queue, after) && i < |Edges(m[path])|
    requires queue <= more && Sound(m, true, Elements(more))
    requires LeadsTo(m, true, path, Edges(m[path])[i], visited + Elements(more))
    requires !VerdictOf(m, sat, path, Edges(m[path])[i]).Reject?
    requires noted == Noted(m, sat, after, path, Edges(m[path])[i])
    ensures Closing(m, sat, path, visited, waiting, books, i + 1, more, noted)
  {
    var edges := Edges(m[path]);
    EnteredNext(m, sat, books, path, edges, i);
    ExpandNext(m, true, path, i, visited + Elements(queue), visited + Elements(more));
    NoRejectionNext(m, sat, path, edges, i);
  }

  lemma NoRejectionNext(m: Lock, sat: Satisfies, p: string, edges: seq<Edge>, i: nat)
    requires i < |edges| && NoRejection(m, sat, p, edges[..i]) && !VerdictOf(m, sat, p, edges[i]).Reject?
    ensures NoRejection(m, sat, p, edges[..i + 1])
  {
    var more := edges[..i + 1];
    forall k | 0 <= k < |more| ensures !VerdictOf(m, sat, p, more[k]).Reject? {
      assert k < i ==> edges[..i][k] == more[k];
    }
  }

  /** The loop over the edges of one installed node. */
  method CloseNode(m: Lock, sat: Satisfies, path: string, visited: set<string>, waiting: seq<string>, books: Books)
      returns (fault: Option<Fault>, queue: seq<string>, after: Books)
    requires path in m && Reaches(m, true, path)
    requires Sound(m, true, Elements(waiting))
    ensures fault.None? ==> Closing(m, sat, path, visited, waiting, books, |Edges(m[path])|, queue, after)
    ensures fault.Some? ==> BrokenAt(m, sat, path, fault.value)
  {
    fault, queue, after := None, waiting, books;
    var edges := Edges(m[path]);
    for i := 0 to |edges|
      invariant fault.None?
      invariant Closing(m, sat, path, visited, waiting, books, i, queue, after)
    {
      ghost var before, known := queue, after;
      fault, queue, after := CloseEdge(m, sat, path, edges[i], visited, queue, after);
      if fault.Some? {
        assert BrokenAt(m, sat, path, fault.value);
        return;
      }
      ClosingNext(m, sat, path, visited, waiting, books, i, before, known, queue, after);
    }
  }

  lemma EnteredNext(m: Lock, sat: Satisfies, books: Books, p: string, edges: seq<Edge>, i: nat)
    requires i < |edges|
    ensures Entered(m, sat, books, p, edges[..i + 1])
         == Noted(m, sat, Entered(m, sat, books, p, edges[..i]), p, edges[i])
  {
    assert edges[..i + 1][..i] == edges[..i];
  }

  // ---------------------------------------------------------------- the whole closure

  /** One installed node's contribution is in the books. */
  predicate NodeRecorded(m: Lock, sat: Satisfies, p: string, books: Books) {
    && p in m && NoRejection(m, sat, p, Edges(m[p]))
    && (forall o :: o in OmissionsOf(m, sat, p, Edges(m[p])) ==> o in books.omitted)
    && (forall r :: r in ReferencesOf(m, sat, p, Edges(m[p])) ==> r in books.refs)
  }

  predicate OmissionFrom(m: Lock, sat: Satisfies, o: Omitted, visited: set<string>) {
    o.parent in visited && o.parent in m && o in OmissionsOf(m, sat, o.parent, Edges(m[o.parent]))
  }

  predicate ReferenceFrom(m: Lock, sat: Satisfies, r: Reference, visited: set<string>) {
    r.parent in visited && r.parent in m && r in ReferencesOf(m, sat, r.parent, Edges(m[r.parent]))
  }

  /** The books hold what the visited nodes contribute and nothing else. */
  predicate Recorded(m: Lock, sat: Satisfies, visited: set<string>, books: Books) {
    && (forall p :: p in visited ==> NodeRecorded(m, sat, p, books))
    && (forall o :: o in books.omitted ==> OmissionFrom(m, sat, o, visited))
    && (forall r :: r in books.refs ==> ReferenceFrom(m, sat, r, visited))
  }

  lemma RecordedNext(m: Lock, sat: Satisfies, visited: set<string>, books: Books, path: string, after: Books)
    requires Recorded(m, sat, visited, books) && path in m && NoRejection(m, sat, path, Edges(m[path]))
    requires after == Entered(m, sat, books, path, Edges(m[path]))
    ensures Recorded(m, sat, visited + {path}, after)
  {
    forall p | p in visited
      ensures NodeRecorded(m, sat, p, after)
    {
      assert NodeRecorded(m, sat, p, books);
    }
    forall o | o in after.omitted
      ensures OmissionFrom(m, sat, o, visited + {path})
    {
      if o in books.omitted {
        assert OmissionFrom(m, sat, o, visited);
      } else {
        OmissionsOfIs(m, sat, path, Edges(m[path]), o);
      }
    }
    forall r | r in after.refs
      ensures ReferenceFrom(m, sat, r, visited + {path})
    {
      if r in books.refs {
        assert ReferenceFrom(m, sat, r, visited);
      } else {
        ReferencesOfIs(m, sat, path, Edges(m[path]), r);
      }
    }
  }

  /** One pop of the worklist. */
  method CloseNext(m: Lock, sat: Satisfies, visited: set<string>, queue: seq<string>, books: Books)
      returns (fault: Option<Fault>, v: set<string>, q: seq<string>, after: Books)
    requires queue != [] && Traversal(m, true, visited, queue) && Recorded(m, sat, visited, books)
    ensures fault.None? ==> Traversal(m, true, v, q) && Recorded(m, sat, v, after) && Progress(m, visited, queue, v, q)
    ensures fault.Some? ==> exists p :: BrokenAt(m, sat, p, fault.value)
  {
    var path := queue[|queue| - 1];
    fault, v, q, after := None, visited, queue[..|queue| - 1], books;
    assert queue == q + [path];
    Popped(m, true, visited, q, path);
    if path in visited {
      Skipped(m, true, visited, q, path);
    } else {
      var rest := q;
      v := visited + {path};
      fault, q, after := CloseNode(m, sat, path, v, rest, books);
      if fault.None? {
        NodeClosed(m, sat, path, visited, rest, books, q, after);
      }
    }
  }

  lemma NodeClosed(m: Lock, sat: Satisfies, path: string, visited: set<string>, waiting: seq<string>, books: Books,
                   queue: seq<string>, after: Books)
    requires path in m && path !in visited
    requires Traversal(m, true, visited, waiting + [path]) && Recorded(m, sat, visited, books)
    requires Closing(m, sat, path, visited + {path}, waiting, books, |Edges(m[path])|, queue, after)
    ensures Traversal(m, true, visited + {path}, queue) && Recorded(m, sat, visited + {path}, after)
    ensures Progress(m, visited, waiting + [path], visited + {path}, queue)
  {
    assert Edges(m[path])[..|Edges(m[path])|] == Edges(m[path]);
    Visited(m, true, visited, waiting, path, queue);
    RecordedNext(m, sat, visited, books, path, after);
  }

  datatype Result = Closure(omitted: seq<Omitted>, visited: set<string>) | Rejected(fault: Fault)

  /** The final check: an optional node must not be required by any installed one. */
  predicate Mismarked(m: Lock, r: Reference) {
    r.target in m && m[r.target].optional && !r.optional
  }

  /** The worklist of `_validate_closure`. */
  method Traverse(m: Lock, sat: Satisfies) returns (fault: Option<Fault>, visited: set<string>, books: Books)
    requires WellKeyed(m)
    ensures fault.None? ==> Traversal(m, true, visited, []) && Recorded(m, sat, visited, books)
    ensures fault.Some? ==> exists p :: BrokenAt(m, sat, p, fault.value)
  {
    fault, visited, books := None, {}, Books([], []);
    var queue := [""];
    Begun(m, true);
    while queue != []
      invariant fault.None?
      invariant Traversal(m, true, visited, queue)
      invariant Recorded(m, sat, visited, books)
      decreases m.Keys - visited, |queue|
    {
      fault, visited, queue, books := CloseNext(m, sat, visited, queue, books);
      if fault.Some? {
        return;
      }
    }
  }

  /** The final check over the recorded references. */
  method FindMismarked(m: Lock, refs: seq<Reference>) returns (found: Option<Reference>)
    ensures found.Some? ==> found.value in refs && Mismarked(m, found.value)
    ensures found.None? ==> forall j :: 0 <= j < |refs| ==> !Mismarked(m, refs[j])
  {
    for k := 0 to |refs|
      invariant forall j :: 0 <= j < k ==> !Mismarked(m, refs[j])
    {
      if Mismarked(m, refs[k]) {
        return Some(refs[k]);
      }
    }
    return None;
  }

  /**
    `_validate_closure` accepts exactly the locks in which no installed node breaks the contract, and
    then returns the installed nodes and exactly the omissions their optional edges call for. A
    rejection names a fault some installed node has.
   */
  method ValidateClosure(m: Lock, sat: Satisfies) returns (result: Result)
    requires WellKeyed(m)
    ensures result.Closure? <==> Acceptable(m, sat)
    ensures result.Closure? ==> Installed(m, result.visited) && OmitsExactly(m, sat, result.visited, result.omitted)
    ensures result.Rejected? ==> exists p :: BrokenAt(m, sat, p, result.fault)
  {
    var fault, visited, books := Traverse(m, sat);
    if fault.Some? {
      return Rejected(fault.value);
    }
    AllFound(m, true, visited);
    var mismarked := FindMismarked(m, books.refs);
    if mismarked.Some? {
      MismarkedBreaks(m, sat, visited, books, mismarked.value);
      return Rejected(OptionalMarkedRequired);
    }
    ClosureIs(m, sat, visited, books);
    return Closure(books.omitted, visited);
  }

  ghost predicate Installed(m: Lock, visited: set<string>) {
    forall p :: p in visited <==> Reaches(m, true, p)
  }

  predicate OmitsExactly(m: Lock, sat: Satisfies, visited: set<string>, omitted: seq<Omitted>) {
    && (forall o :: o in omitted ==> o.parent in visited && Omits(m, sat, o))
    && (forall p, k :: p in visited && p in m && 0 <= k < |Edges(m[p])| ==>
          OmissionListed(m, sat, p, Edges(m[p])[k], omitted))
  }

  predicate OmissionListed(m: Lock, sat: Satisfies, p: string, e: Edge, omitted: seq<Omitted>) {
    VerdictOf(m, sat, p, e).Omit? ==> Omitted(p, e.name, e.range) in omitted
  }

  lemma MismarkedBreaks(m: Lock, sat: Satisfies, visited: set<string>, books: Books, r: Reference)
    requires Recorded(m, sat, visited, books) && r in books.refs && Mismarked(m, r)
    requires Installed(m, visited)
    ensures BrokenAt(m, sat, r.parent, OptionalMarkedRequired)
  {
    assert ReferenceFrom(m, sat, r, visited);
    ReferencesOfIs(m, sat, r.parent, Edges(m[r.parent]), r);
    var e :| e in Edges(m[r.parent]) && e.optional == r.optional && VerdictOf(m, sat, r.parent, e) == Follow(r.target);
    assert Breaks(m, sat, r.parent, e, OptionalMarkedRequired);
  }

  /** With every edge judged and no mark contradicted, nothing is broken and every omission is known. */
  lemma ClosureIs(m: Lock, sat: Satisfies, visited: set<string>, books: Books)
    requires Recorded(m, sat, visited, books) && Installed(m, visited)
    requires forall j :: 0 <= j < |books.refs| ==> !Mismarked(m, books.refs[j])
    ensures Acceptable(m, sat)
    ensures OmitsExactly(m, sat, visited, books.omitted)
  {
    forall p, fault
      ensures !BrokenAt(m, sat, p, fault)
    {
      NotBroken(m, sat, visited, books, p, fault);
    }
    forall o | o in books.omitted
      ensures o.parent in visited && Omits(m, sat, o)
    {
      assert OmissionFrom(m, sat, o, visited);
      OmissionsOfIs(m, sat, o.parent, Edges(m[o.parent]), o);
    }
    forall p, k | p in visited && p in m && 0 <= k < |Edges(m[p])|
      ensures OmissionListed(m, sat, p, Edges(m[p])[k], books.omitted)
    {
      var e := Edges(m[p])[k];
      assert NodeRecorded(m, sat, p, books);
      OmissionsOfIs(m, sat, p, Edges(m[p]), Omitted(p, e.name, e.range));
    }
  }

  /** An edge that was judged breaks the contract only by contradicting an optional mark. */
  lemma JudgedEdge(m: Lock, sat: Satisfies, p: string, e: Edge, fault: Fault)
    requires !VerdictOf(m, sat, p, e).Reject? && Breaks(m, sat, p, e, fault)
    ensures var v := VerdictOf(m, sat, p, e);
            v.Follow? && v.target in m && m[v.target].optional && !e.optional
  {
    ResolvedInLock(m, p, e.name, e.kind);
  }

  lemma NotBroken(m: Lock, sat: Satisfies, visited: set<string>, books: Books, p: string, fault: Fault)
    requires Recorded(m, sat, visited, books) && Installed(m, visited)
    requires forall j :: 0 <= j < |books.refs| ==> !Mismarked(m, books.refs[j])
    ensures !BrokenAt(m, sat, p, fault)
  {
    if BrokenAt(m, sat, p, fault) {
      assert NodeRecorded(m, sat, p, books);
      var e :| e in Edges(m[p]) && Breaks(m, sat, p, e, fault);
      EdgeNotBroken(m, sat, p, e, books, fault);
    }
  }

  lemma EdgeNotBroken(m: Lock, sat: Satisfies, p: string, e: Edge, books: Books, fault: Fault)
    requires NodeRecorded(m, sat, p, books) && e in Edges(m[p])
    requires forall j :: 0 <= j < |books.refs| ==> !Mismarked(m, books.refs[j])
    ensures !Breaks(m, sat, p, e, fault)
  {
    var k :| 0 <= k < |Edges(m[p])| && Edges(m[p])[k] == e;
    assert !VerdictOf(m, sat, p, Edges(m[p])[k]).Reject?;
    if Breaks(m, sat, p, e, fault) {
      JudgedEdge(m, sat, p, e, fault);
      var r := Reference(p, VerdictOf(m, sat, p, e).target, e.optional);
      ReferencesOfIs(m, sat, p, Edges(m[p]), r);
      assert r in books.refs && Mismarked(m, r);
    }
  }
}
