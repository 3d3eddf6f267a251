/**
  What an accepted lock promises for the assembled tree: every node is installed or lies behind a
  recorded omission, and the validator's own dependency loop, with its own resolver, finds each locked
  dependency of each returned package.
 */
module LockInstall {
  import opened Common
  import opened LockPaths
  import opened LockGraph
  import opened LockClosure

  /** `_reject_disconnected_nodes`. */
  method RejectDisconnected(m: Lock) returns (connected: bool)
    requires WellKeyed(m)
    ensures connected <==> forall p :: p in m ==> Reaches(m, false, p)
  {
    var membership := GraphMembershipPaths(m);
    connected := forall p | p in m :: p in membership;
  }

  // ---------------------------------------------------------------- omissions

  /** The step from `p` to `q` is an optional edge whose omission is recorded. */
  predicate CrossesOmission(m: Lock, omitted: seq<Omitted>, p: string, q: string) {
    && p in m && q in m && !m[q].applicable
    && exists e :: e in Edges(m[p]) && Resolve(m.Keys, p, e.name, e.kind) == Some(q)
                   && Omitted(p, e.name, e.range) in omitted
  }

  /** Leaving the installed part of an accepted lock takes a recorded omission. */
  lemma LeavingIsOmission(m: Lock, sat: Satisfies, visited: set<string>, omitted: seq<Omitted>, p: string, q: string)
    requires Acceptable(m, sat) && Installed(m, visited) && OmitsExactly(m, sat, visited, omitted)
    requires p in visited && q !in visited && Links(m, p, q)
    ensures CrossesOmission(m, omitted, p, q)
  {
    var e :| e in Edges(m[p]) && Resolve(m.Keys, p, e.name, e.kind) == Some(q);
    ResolvedInLock(m, p, e.name, e.kind);
    if m[q].applicable {
      ReachesNext(m, true, p, q);
    }
    EdgeJudged(m, sat, p, e);
    var k :| 0 <= k < |Edges(m[p])| && Edges(m[p])[k] == e;
    assert OmissionListed(m, sat, p, Edges(m[p])[k], omitted);
  }

  lemma RejectionBreaks(m: Lock, sat: Satisfies, p: string, e: Edge, fault: Fault)
    ensures VerdictOf(m, sat, p, e) == Reject(fault) ==> Breaks(m, sat, p, e, fault)
  {
    ResolvedInLock(m, p, e.name, e.kind);
  }

  /** In an accepted lock no edge of an installed node is rejected. */
  lemma EdgeJudged(m: Lock, sat: Satisfies, p: string, e: Edge)
    requires Acceptable(m, sat) && p in m && Reaches(m, true, p) && e in Edges(m[p])
    ensures !VerdictOf(m, sat, p, e).Reject?
  {
    var v := VerdictOf(m, sat, p, e);
    var fault := if v.Reject? then v.fault else MissingNode;
    RejectionBreaks(m, sat, p, e, fault);
    assert !BrokenAt(m, sat, p, fault);
  }

  /** The route leaves the installed nodes at its `k`-th step, by a recorded omission. */
  predicate LeavesAt(m: Lock, visited: set<string>, omitted: seq<Omitted>, route: seq<string>, k: nat) {
    k + 1 < |route| && route[k] in visited && CrossesOmission(m, omitted, route[k], route[k + 1])
  }

  /** Every route from the root to a node that is not installed crosses a recorded omission. */
  lemma {:induction false} InstalledOrOmitted(m: Lock, sat: Satisfies, visited: set<string>,
                                              omitted: seq<Omitted>, route: seq<string>)
    requires Acceptable(m, sat) && Installed(m, visited) && OmitsExactly(m, sat, visited, omitted)
    requires Route(m, false, route) && route[|route| - 1] !in visited
    ensures exists k :: LeavesAt(m, visited, omitted, route, k)
    decreases |route|
  {
    var last := |route| - 1;
    NotOnlyRoot(m, visited, route);
    RouteStep(m, route, last - 1);
    if route[last - 1] in visited {
      LeavingIsOmission(m, sat, visited, omitted, route[last - 1], route[last]);
      assert LeavesAt(m, visited, omitted, route, last - 1);
    } else {
      var init := route[..last];
      RoutePrefix(m, route, last);
      InstalledOrOmitted(m, sat, visited, omitted, init);
      var k: nat :| LeavesAt(m, visited, omitted, init, k);
      assert init[k] == route[k] && init[k + 1] == route[k + 1];
      assert LeavesAt(m, visited, omitted, route, k);
    }
  }

  lemma NotOnlyRoot(m: Lock, visited: set<string>, route: seq<string>)
    requires Installed(m, visited) && Route(m, false, route) && route[|route| - 1] !in visited
    ensures |route| > 1
  {
    RootReached(m, true);
  }

  lemma RouteStep(m: Lock, route: seq<string>, k: nat)
    requires Route(m, false, route) && k + 1 < |route|
    ensures Links(m, route[k], route[k + 1])
  {
    assert Follows(m, false, route[k], route[k + 1]);
  }

  lemma RoutePrefix(m: Lock, route: seq<string>, n: nat)
    requires Route(m, false, route) && 0 < n <= |route|
    ensures Route(m, false, route[..n])
  {
  }

  // ---------------------------------------------------------------- the validator's loop

  /** The versions found on disk, by package path. */
  type Tree = map<string, string>

  datatype Found = Resolved(version: string) | MissingDependency | UnsatisfiedDependency

  function Lookup(tree: Tree, sat: Satisfies, path: string, d: Dependency): Found {
    FirstPresentIs(Candidates(path, d.name), tree.Keys);
    match FirstPresent(Candidates(path, d.name), tree.Keys)
    case None => MissingDependency
    case Some(p) => if sat(d.range, tree[p]) then Resolved(tree[p]) else UnsatisfiedDependency
  }

  /** `_resolve_dependency`. */
  method ResolveDependency(tree: Tree, sat: Satisfies, declaring: string, d: Dependency) returns (found: Found)
    ensures found == Lookup(tree, sat, declaring, d)
  {
    var candidates := DependencyCandidatePaths(declaring, d.name);
    for i := 0 to |candidates|
      invariant FirstPresent(candidates, tree.Keys) == FirstPresent(candidates[i..], tree.Keys)
    {
      assert candidates[i..][1..] == candidates[i + 1..];
      if candidates[i] in tree {
        return if sat(d.range, tree[candidates[i]]) then Resolved(tree[candidates[i]]) else UnsatisfiedDependency;
      }
    }
    return MissingDependency;
  }

  function OmittedNames(omitted: seq<Omitted>, parent: string): set<string> {
    set o | o in omitted && o.parent == parent :: o.name
  }

  predicate AllResolved(tree: Tree, sat: Satisfies, path: string, deps: seq<Dependency>, but: set<string>) {
    forall k :: 0 <= k < |deps| ==> deps[k].name in but || Lookup(tree, sat, path, deps[k]).Resolved?
  }

  /** The dependency loop raises nothing for this package. */
  predicate PackageOk(tree: Tree, sat: Satisfies, omitted: seq<Omitted>, package: Package) {
    && AllResolved(tree, sat, package.path, package.dependencies, {})
    && AllResolved(tree, sat, package.path, package.optionalDependencies, OmittedNames(omitted, package.path))
  }

  /** One of the two inner loops over the declarations of a package. */
  method CheckDeclared(tree: Tree, sat: Satisfies, path: string, deps: seq<Dependency>, but: set<string>)
      returns (ok: bool)
    ensures ok <==> AllResolved(tree, sat, path, deps, but)
  {
    for k := 0 to |deps|
      invariant forall j :: 0 <= j < k ==> deps[j].name in but || Lookup(tree, sat, path, deps[j]).Resolved?
    {
      if deps[k].name !in but {
        var found := ResolveDependency(tree, sat, path, deps[k]);
        if !found.Resolved? {
          return false;
        }
      }
    }
    return true;
  }

  /** The closure loop of `validate_assembled_tree`. */
  method CheckDependencies(tree: Tree, sat: Satisfies, packages: seq<Package>, omitted: seq<Omitted>) returns (ok: bool)
    ensures ok <==> forall k :: 0 <= k < |packages| ==> PackageOk(tree, sat, omitted, packages[k])
  {
    for k := 0 to |packages|
      invariant forall j :: 0 <= j < k ==> PackageOk(tree, sat, omitted, packages[j])
    {
      var package := packages[k];
      var required := CheckDeclared(tree, sat, package.path, package.dependencies, {});
      if !required {
        return false;
      }
      var optional := CheckDeclared(tree, sat, package.path, package.optionalDependencies,
                                    OmittedNames(omitted, package.path));
      if !optional {
        return false;
      }
    }
    return true;
  }

  // ---------------------------------------------------------------- from the lock to the tree

  /** The tree holds exactly the returned packages, at their locked versions. */
  predicate Mirrors(m: Lock, visited: set<string>, tree: Tree) {
    && tree.Keys == visited - {""}
    && forall p :: p in tree ==> p in m && tree[p] == m[p].version
  }

  lemma {:induction false} CandidatesNotRoot(directories: seq<string>, name: string)
    ensures "" !in CandidatesIn(directories, name)
  {
    if directories != [] {
      assert |Candidate(directories[0], name)| > 0;
      CandidatesNotRoot(directories[1..], name);
    }
  }

  /** What the lock resolved to an installed node, the tree resolves to the same one. */
  lemma SameResolution(m: Lock, visited: set<string>, tree: Tree, p: string, name: string, q: string)
    requires Mirrors(m, visited, tree) && q in visited
    requires Resolve(m.Keys, p, name, Regular) == Some(q)
    ensures FirstPresent(Candidates(p, name), tree.Keys) == Some(q)
  {
    FirstPresentIs(Candidates(p, name), m.Keys);
    CandidatesNotRoot(Ancestors(p), name);
    assert tree.Keys <= m.Keys;
    FirstPresentSubset(Candidates(p, name), m.Keys, tree.Keys);
  }

  /** An edge of an installed package that is not omitted is found in the tree. */
  lemma EdgeFound(m: Lock, sat: Satisfies, visited: set<string>, tree: Tree, p: string, e: Edge)
    requires Acceptable(m, sat) && Installed(m, visited) && Mirrors(m, visited, tree)
    requires p in visited && p in m && e in Edges(m[p]) && (e.kind.Regular? || e.kind.OptionalDep?)
    requires !VerdictOf(m, sat, p, e).Omit?
    ensures Lookup(tree, sat, p, Dependency(e.name, e.range)).Resolved?
  {
    EdgeJudged(m, sat, p, e);
    ResolvedInLock(m, p, e.name, e.kind);
    var q := VerdictOf(m, sat, p, e).target;
    assert Installs(m, p, q);
    ReachesNext(m, true, p, q);
    SameResolution(m, visited, tree, p, e.name, q);
    CandidatesNotRoot(Ancestors(p), e.name);
    FirstPresentIs(Candidates(p, e.name), tree.Keys);
  }

  /** A regular declaration that no optional one of the same name overrides. */
  predicate Overridden(package: Package, d: Dependency) {
    d.name in NamesOf(package.optionalDependencies)
  }

  lemma RegularFound(m: Lock, sat: Satisfies, visited: set<string>, tree: Tree, p: string, d: Dependency)
    requires Acceptable(m, sat) && Installed(m, visited) && Mirrors(m, visited, tree)
    requires p in visited && p in m && d in m[p].dependencies && !Overridden(m[p], d)
    ensures Lookup(tree, sat, p, d).Resolved?
  {
    var e := Edge(d.name, d.range, false, Regular);
    EdgesIs(m[p], e);
    ResolvedInLock(m, p, e.name, e.kind);
    EdgeJudged(m, sat, p, e);
    EdgeFound(m, sat, visited, tree, p, e);
  }

  lemma OptionalFound(m: Lock, sat: Satisfies, visited: set<string>, omitted: seq<Omitted>, tree: Tree, p: string,
                      d: Dependency)
    requires Acceptable(m, sat) && Installed(m, visited) && Mirrors(m, visited, tree)
    requires OmitsExactly(m, sat, visited, omitted)
    requires p in visited && p in m && d in m[p].optionalDependencies
    ensures d.name in OmittedNames(omitted, p) || Lookup(tree, sat, p, d).Resolved?
  {
    var e := Edge(d.name, d.range, true, OptionalDep);
    EdgesIs(m[p], e);
    if VerdictOf(m, sat, p, e).Omit? {
      var k :| 0 <= k < |Edges(m[p])| && Edges(m[p])[k] == e;
      assert OmissionListed(m, sat, p, Edges(m[p])[k], omitted);
      assert Omitted(p, d.name, d.range) in omitted;
    } else {
      EdgeFound(m, sat, visited, tree, p, e);
    }
  }

  /** The nearest installed candidate in the lock is of a version the declared range admits. */
  predicate MetByLock(m: Lock, sat: Satisfies, visited: set<string>, p: string, d: Dependency) {
    match FirstPresent(Candidates(p, d.name), visited - {""})
    case None => false
    case Some(q) => q in m && sat(d.range, m[q].version)
  }

  lemma MirroredLookup(m: Lock, sat: Satisfies, visited: set<string>, tree: Tree, p: string, d: Dependency)
    requires Mirrors(m, visited, tree)
    ensures Lookup(tree, sat, p, d).Resolved? <==> MetByLock(m, sat, visited, p, d)
  {
    FirstPresentIs(Candidates(p, d.name), tree.Keys);
  }

  /**
    From an accepted lock to the installed tree: on a tree that mirrors the returned packages the
    dependency loop accepts a package exactly when the lock also meets every regular declaration that an
    optional one of the same name overrides; all other declarations are met.
   */
  lemma LockToInstall(m: Lock, sat: Satisfies, visited: set<string>, omitted: seq<Omitted>, tree: Tree, p: string)
    requires WellKeyed(m) && Acceptable(m, sat) && Installed(m, visited)
    requires OmitsExactly(m, sat, visited, omitted) && Mirrors(m, visited, tree)
    requires p in tree
    ensures PackageOk(tree, sat, omitted, m[p]) <==>
            forall d :: d in m[p].dependencies && Overridden(m[p], d) ==> MetByLock(m, sat, visited, p, d)
  {
    var package := m[p];
    forall d | d in package.dependencies
      ensures Lookup(tree, sat, p, d).Resolved? <==> MetByLock(m, sat, visited, p, d)
    {
      MirroredLookup(m, sat, visited, tree, p, d);
    }
    forall k | 0 <= k < |package.optionalDependencies|
      ensures package.optionalDependencies[k].name in OmittedNames(omitted, p)
              || Lookup(tree, sat, p, package.optionalDependencies[k]).Resolved?
    {
      OptionalFound(m, sat, visited, omitted, tree, p, package.optionalDependencies[k]);
    }
    forall d | d in package.dependencies && !Overridden(package, d)
      ensures Lookup(tree, sat, p, d).Resolved?
    {
      RegularFound(m, sat, visited, tree, p, d);
    }
  }

  /** With disjoint names, whatever the lock accepted the tree's dependency loop accepts. */
  lemma DisjointNamesNeverFail(m: Lock, sat: Satisfies, visited: set<string>, omitted: seq<Omitted>, tree: Tree,
                               p: string)
    requires WellKeyed(m) && Acceptable(m, sat) && Installed(m, visited)
    requires OmitsExactly(m, sat, visited, omitted) && Mirrors(m, visited, tree)
    requires p in tree && NamesOf(m[p].dependencies) !! NamesOf(m[p].optionalDependencies)
    ensures PackageOk(tree, sat, omitted, m[p])
  {
    LockToInstall(m, sat, visited, omitted, tree, p);
    forall d | d in m[p].dependencies
      ensures !Overridden(m[p], d)
    {
      assert d.name in NamesOf(m[p].dependencies);
    }
  }

  // ---------------------------------------------------------------- overlapping names can fail

  function Plain(name: string, path: string, deps: seq<Dependency>, optional: seq<Dependency>): Package {
    Package(name, path, "1", deps, [], optional, [], {}, true, false)
  }

  const A := TOP + "a"
  const B := TOP + "b"

  /** `a` declares `b` twice: as a regular dependency nothing satisfies and as an optional one. */
  function Overlapping(): Lock {
    map["" := Plain("", "", [Dependency("a", "any")], []),
        A := Plain("a", A, [Dependency("b", "none")], [Dependency("b", "any")]),
        B := Plain("b", B, [], [])]
  }

  const SAT: Satisfies := (range, version) => range != "none"

  lemma OverlappingCandidates()
    ensures A != "" && B != "" && A != B
    ensures Candidates("", "a") == [A] && Candidates(A, "b") == [A + SEP + "b", B]
    ensures A + SEP + "b" !in {"", A, B}
  {
    assert |A| == 14 && A[13] == 'a' && B[13] == 'b';
    assert A[0] == 'n' && SEP[0] == '/';
    LastSepIs(A);
    assert A[0..14][0] == A[0];
    assert !SepAt(A, 0);
    assert LastSep(A) == -1;
    assert Ancestors("") == [""];
    assert Ancestors(A) == [A] + [""];
    CandidatesInSnoc([A], "", "b");
    CandidatesInSnoc([], A, "b");
    CandidatesInSnoc([], "", "a");
    assert [] + [A] == [A] && [] + [""] == [""];
    assert |A + SEP + "b"| > 14;
  }

  lemma OverlappingEdges()
    ensures var m := Overlapping();
            && Edges(m[""]) == [Edge("a", "any", false, Regular)]
            && Edges(m[A]) == [Edge("b", "any", true, OptionalDep)]
            && Edges(m[B]) == []
  {
    OverlappingCandidates();
    var m := Overlapping();
    assert m[A].optionalDependencies[0].name == "b";
    assert "b" in NamesOf(m[A].optionalDependencies);
    assert EdgesOf(m[A].dependencies, Regular, NamesOf(m[A].optionalDependencies), {}) == [];
    assert NamesOf([]) == {};
  }

  lemma OverlappingResolves()
    ensures var keys := Overlapping().Keys;
            Resolve(keys, "", "a", Regular) == Some(A) && Resolve(keys, A, "b", OptionalDep) == Some(B)
  {
    OverlappingCandidates();
    var keys := Overlapping().Keys;
    assert keys == {"", A, B};
    assert [A + SEP + "b", B][1..] == [B];
    assert FirstPresent([B], keys) == Some(B);
  }

  /** The root needs `a`, which needs `b`; both edges are judged fine. */
  predicate Chain(m: Lock, sat: Satisfies, a: string, b: string, toA: Edge, toB: Edge) {
    && m.Keys == {"", a, b} && a != "" && b != "" && a != b
    && Edges(m[""]) == [toA] && Edges(m[a]) == [toB] && Edges(m[b]) == []
    && Resolve(m.Keys, "", toA.name, toA.kind) == Some(a) && Resolve(m.Keys, a, toB.name, toB.kind) == Some(b)
    && sat(toA.range, m[a].version) && sat(toB.range, m[b].version)
    && m[a].applicable && m[b].applicable && !m[a].optional && !m[b].optional
  }

  ghost predicate AllReached(m: Lock) {
    forall p :: p in m ==> Reaches(m, true, p)
  }

  lemma InstallsNext(m: Lock, p: string, e: Edge, q: string)
    requires p in m && Reaches(m, true, p) && e in Edges(m[p])
    requires Resolve(m.Keys, p, e.name, e.kind) == Some(q) && q in m && m[q].applicable
    ensures Reaches(m, true, q)
  {
    assert Installs(m, p, q);
    ReachesNext(m, true, p, q);
  }

  lemma ChainReaches(m: Lock, sat: Satisfies, a: string, b: string, toA: Edge, toB: Edge)
    requires Chain(m, sat, a, b, toA, toB)
    ensures Reaches(m, true, "") && Reaches(m, true, a) && Reaches(m, true, b)
  {
    RootReached(m, true);
    InstallsNext(m, "", toA, a);
    InstallsNext(m, a, toB, b);
  }

  lemma OnlyEdge(node: Package, e: Edge, only: Edge)
    requires Edges(node) == [only] && e in Edges(node)
    ensures e == only
  {
  }

  lemma ChainEdge(m: Lock, a: string, b: string, toA: Edge, toB: Edge, p: string, e: Edge)
    requires m.Keys == {"", a, b}
    requires Edges(m[""]) == [toA] && Edges(m[a]) == [toB] && Edges(m[b]) == []
    requires p in m && e in Edges(m[p])
    ensures (p == "" && e == toA) || (p == a && e == toB)
  {
    assert p == "" || p == a || p == b;
    if p == "" {
      OnlyEdge(m[p], e, toA);
    } else if p == a {
      OnlyEdge(m[p], e, toB);
    }
  }

  lemma LinksStay(m: Lock, p: string, q: string)
    requires Links(m, p, q)
    ensures q in m
  {
    var e :| e in Edges(m[p]) && Resolve(m.Keys, p, e.name, e.kind) == Some(q);
    ResolvedInLock(m, p, e.name, e.kind);
  }

  /** When every node of a lock is installed, the installed nodes are its keys. */
  lemma AllInstalled(m: Lock)
    requires "" in m && AllReached(m)
    ensures Installed(m, m.Keys)
  {
    forall p, q | p in m.Keys && Follows(m, true, p, q)
      ensures q in m.Keys
    {
      LinksStay(m, p, q);
    }
    forall p
      ensures p in m.Keys <==> Reaches(m, true, p)
    {
      LeastFixedPoint(m, true, m.Keys, p);
    }
  }

  lemma ThreeReached(m: Lock, a: string, b: string)
    requires m.Keys == {"", a, b}
    requires Reaches(m, true, "") && Reaches(m, true, a) && Reaches(m, true, b)
    ensures AllReached(m)
  {
    forall p | p in m
      ensures Reaches(m, true, p)
    {
      assert p == "" || p == a || p == b;
    }
  }

  lemma ChainInstalled(m: Lock, sat: Satisfies, a: string, b: string, toA: Edge, toB: Edge)
    requires Chain(m, sat, a, b, toA, toB)
    ensures Installed(m, m.Keys)
  {
    ChainReaches(m, sat, a, b, toA, toB);
    ThreeReached(m, a, b);
    AllInstalled(m);
  }

  lemma ChainUnbroken(m: Lock, sat: Satisfies, a: string, b: string, toA: Edge, toB: Edge, p: string, fault: Fault)
    requires Chain(m, sat, a, b, toA, toB)
    ensures !BrokenAt(m, sat, p, fault)
  {
    if BrokenAt(m, sat, p, fault) {
      var e :| e in Edges(m[p]) && Breaks(m, sat, p, e, fault);
      ChainEdge(m, a, b, toA, toB, p, e);
    }
  }

  lemma ChainAccepted(m: Lock, sat: Satisfies, a: string, b: string, toA: Edge, toB: Edge)
    requires Chain(m, sat, a, b, toA, toB)
    ensures Acceptable(m, sat) && OmitsExactly(m, sat, m.Keys, [])
  {
    forall p, fault
      ensures !BrokenAt(m, sat, p, fault)
    {
      ChainUnbroken(m, sat, a, b, toA, toB, p, fault);
    }
    forall p, k | p in m && 0 <= k < |Edges(m[p])|
      ensures OmissionListed(m, sat, p, Edges(m[p])[k], [])
    {
      ChainEdge(m, a, b, toA, toB, p, Edges(m[p])[k]);
    }
  }

  lemma OverlappingChain()
    ensures Chain(Overlapping(), SAT, A, B, Edge("a", "any", false, Regular), Edge("b", "any", true, OptionalDep))
  {
    OverlappingCandidates();
    OverlappingEdges();
    OverlappingResolves();
  }

  /** Of the two declarations of `b`, the tree holds a version for the optional one only. */
  lemma OverlappingLookup(tree: Tree)
    requires tree == map[A := "1", B := "1"]
    ensures Lookup(tree, SAT, A, Dependency("b", "none")) == UnsatisfiedDependency
  {
    OverlappingCandidates();
    assert [A + SEP + "b", B][1..] == [B];
    assert tree.Keys == {A, B};
    assert FirstPresent([B], tree.Keys) == Some(B);
  }

  /** The lock is accepted, the tree mirrors it, and the dependency loop still rejects `p`. */
  ghost predicate AcceptedThenRejected(m: Lock, sat: Satisfies, visited: set<string>, tree: Tree, p: string) {
    && WellKeyed(m) && Acceptable(m, sat) && Installed(m, visited) && OmitsExactly(m, sat, visited, [])
    && Mirrors(m, visited, tree) && p in tree && p in m && !PackageOk(tree, sat, [], m[p])
  }

  lemma OverlappingRejected(m: Lock, tree: Tree)
    requires m == Overlapping() && Lookup(tree, SAT, A, Dependency("b", "none")) == UnsatisfiedDependency
    ensures A in m && !PackageOk(tree, SAT, [], m[A])
  {
    OverlappingCandidates();
    assert m[A].dependencies[0] == Dependency("b", "none");
  }

  lemma OverlappingMirrored(m: Lock, tree: Tree)
    requires m == Overlapping() && tree == map[A := "1", B := "1"]
    ensures WellKeyed(m) && Mirrors(m, m.Keys, tree) && A in tree
  {
    OverlappingCandidates();
    assert m.Keys == {"", A, B};
  }

  lemma OverlappingExample() returns (m: Lock, a: string, b: string, toA: Edge, toB: Edge, tree: Tree)
    ensures WellKeyed(m) && Mirrors(m, m.Keys, tree) && a in tree && a in m
    ensures Chain(m, SAT, a, b, toA, toB)
    ensures !PackageOk(tree, SAT, [], m[a])
  {
    m, a, b, tree := Overlapping(), A, B, map[A := "1", B := "1"];
    toA, toB := Edge("a", "any", false, Regular), Edge("b", "any", true, OptionalDep);
    OverlappingMirrored(m, tree);
    OverlappingChain();
    OverlappingLookup(tree);
    OverlappingRejected(m, tree);
  }

  /** Names declared both ways can pass the lock and fail on its faithful installation. */
  lemma OverlappingNamesCanFail()
    ensures exists m, sat, visited, tree, p :: AcceptedThenRejected(m, sat, visited, tree, p)
  {
    var m, a, b, toA, toB, tree := OverlappingExample();
    ChainInstalled(m, SAT, a, b, toA, toB);
    ChainAccepted(m, SAT, a, b, toA, toB);
    assert AcceptedThenRejected(m, SAT, m.Keys, tree, a);
  }
}
