/**
  The lock graph: edges, resolution, root-connected membership and the installed closure. Semantic
  version ranges are a parameter: `sat(range, version)`.
 */
module LockGraph {
  import opened Common
  import opened LockPaths

  /** A declared dependency: its name and range. */
  datatype Dependency = Dependency(name: string, range: string)

  datatype Package = Package(
    name: string,
    path: string,
    version: string,
    dependencies: seq<Dependency>,
    devDependencies: seq<Dependency>,
    optionalDependencies: seq<Dependency>,
    peerDependencies: seq<Dependency>,
    optionalPeers: set<string>,
    applicable: bool,            // installable on the platform
    optional: bool)              // marked optional in the lock

  type Lock = map<string, Package>

  type Satisfies = (string, string) -> bool

  datatype Kind = Regular | Dev | OptionalDep | Peer

  datatype Edge = Edge(name: string, range: string, optional: bool, kind: Kind)

  /** What the parser guarantees of its map: a root, and every node under its own path. */
  predicate WellKeyed(m: Lock) {
    "" in m && forall p :: p in m ==> m[p].path == p
  }

  // ---------------------------------------------------------------- resolution

  /** The first candidate that is present. */
  function FirstPresent(candidates: seq<string>, keys: set<string>): Option<string> {
    if candidates == [] then None
    else if candidates[0] in keys then Some(candidates[0])
    else FirstPresent(candidates[1..], keys)
  }

  lemma {:induction false} FirstPresentIs(candidates: seq<string>, keys: set<string>)
    ensures FirstPresent(candidates, keys).None? <==> forall k :: 0 <= k < |candidates| ==> candidates[k] !in keys
    ensures forall p :: FirstPresent(candidates, keys) == Some(p) ==> p in keys && p in candidates
  {
    if candidates != [] && candidates[0] !in keys {
      FirstPresentIs(candidates[1..], keys);
      assert forall k :: 1 <= k < |candidates| ==> candidates[k] == candidates[1..][k - 1];
    }
  }

  /** Taking nodes away does not change a resolution whose result stays. */
  lemma {:induction false} FirstPresentSubset(candidates: seq<string>, keys: set<string>, fewer: set<string>)
    requires fewer <= keys && FirstPresent(candidates, keys).Some? && FirstPresent(candidates, keys).value in fewer
    ensures FirstPresent(candidates, fewer) == FirstPresent(candidates, keys)
  {
    if candidates[0] !in keys {
      FirstPresentSubset(candidates[1..], keys, fewer);
    }
  }

  /** Where an edge of the node at `path` is looked for; a peer never inside the declaring package. */
  function SearchFrom(path: string, kind: Kind): string {
    if kind.Peer? then Parent(path) else path
  }

  function Resolve(keys: set<string>, path: string, name: string, kind: Kind): Option<string> {
    FirstPresent(Candidates(SearchFrom(path, kind), name), keys)
  }

  /** `_resolve_edge`: the loops of `_resolve` and `_resolve_peer`. */
  method ResolveEdge(m: Lock, path: string, name: string, kind: Kind) returns (r: Option<string>)
    ensures r == Resolve(m.Keys, path, name, kind)
  {
    var directories := AncestorDirs(SearchFrom(path, kind));
    CandidatesInIs(directories, name);
    ghost var all := CandidatesIn(directories, name);
    for i := 0 to |directories|
      invariant FirstPresent(all, m.Keys) == FirstPresent(all[i..], m.Keys)
    {
      var candidate := Candidate(directories[i], name);
      assert all[i..][1..] == all[i + 1..];
      if candidate in m {
        return Some(candidate);
      }
    }
    return None;
  }

  // ---------------------------------------------------------------- edges

  function NamesOf(deps: seq<Dependency>): set<string> {
    set k | 0 <= k < |deps| :: deps[k].name
  }

  /** The declarations of one kind, as edges; `but` are dropped, `optional` marks those named. */
  function EdgesOf(deps: seq<Dependency>, kind: Kind, but: set<string>, optional: set<string>): seq<Edge> {
    if deps == [] then []
    else
      (if deps[0].name in but then []
       else [Edge(deps[0].name, deps[0].range, kind.OptionalDep? || deps[0].name in optional, kind)])
      + EdgesOf(deps[1..], kind, but, optional)
  }

  lemma {:induction false} EdgesOfIs(deps: seq<Dependency>, kind: Kind, but: set<string>, optional: set<string>,
                                     e: Edge)
    ensures e in EdgesOf(deps, kind, but, optional) <==>
              && Dependency(e.name, e.range) in deps && e.name !in but
              && e.kind == kind && e.optional == (kind.OptionalDep? || e.name in optional)
  {
    if deps != [] {
      EdgesOfIs(deps[1..], kind, but, optional, e);
    }
  }

  /** `_edges`: the optional declaration of a name wins over its regular one. */
  function Edges(node: Package): seq<Edge> {
    EdgesOf(node.dependencies, Regular, NamesOf(node.optionalDependencies), {})
    + (if node.path == "" then EdgesOf(node.devDependencies, Dev, {}, {}) else [])
    + EdgesOf(node.optionalDependencies, OptionalDep, {}, {})
    + (if node.path != "" then EdgesOf(node.peerDependencies, Peer, {}, node.optionalPeers) else [])
  }

  /** Which edges a node has, stated outright. */
  lemma EdgesIs(node: Package, e: Edge)
    ensures e in Edges(node) <==>
              var d := Dependency(e.name, e.range);
              match e.kind
              case Regular => d in node.dependencies && e.name !in NamesOf(node.optionalDependencies) && !e.optional
              case Dev => node.path == "" && d in node.devDependencies && !e.optional
              case OptionalDep => d in node.optionalDependencies && e.optional
              case Peer => node.path != "" && d in node.peerDependencies && e.optional == (e.name in node.optionalPeers)
  {
    EdgesOfIs(node.dependencies, Regular, NamesOf(node.optionalDependencies), {}, e);
    EdgesOfIs(node.devDependencies, Dev, {}, {}, e);
    EdgesOfIs(node.optionalDependencies, OptionalDep, {}, {}, e);
    EdgesOfIs(node.peerDependencies, Peer, {}, node.optionalPeers, e);
  }

  // ---------------------------------------------------------------- reachability

  /** The node at `p` has an edge that resolves to `q`. */
  predicate Links(m: Lock, p: string, q: string) {
    p in m && exists e :: e in Edges(m[p]) && Resolve(m.Keys, p, e.name, e.kind) == Some(q)
  }

  /** The same, through a node that is installed on the platform. */
  predicate Installs(m: Lock, p: string, q: string) {
    Links(m, p, q) && q in m && m[q].applicable
  }

  predicate Follows(m: Lock, installed: bool, p: string, q: string) {
    if installed then Installs(m, p, q) else Links(m, p, q)
  }

  predicate Route(m: Lock, installed: bool, route: seq<string>) {
    && route != [] && route[0] == ""
    && forall k :: 0 <= k < |route| - 1 ==> Follows(m, installed, route[k], route[k + 1])
  }

  /** Some route from the root ends at `p`. */
  ghost predicate Reaches(m: Lock, installed: bool, p: string) {
    exists route :: Route(m, installed, route) && route[|route| - 1] == p
  }

  lemma RootReached(m: Lock, installed: bool)
    ensures Reaches(m, installed, "")
  {
    assert Route(m, installed, [""]);
  }

  lemma RouteNext(m: Lock, installed: bool, route: seq<string>, q: string)
    requires Route(m, installed, route) && Follows(m, installed, route[|route| - 1], q)
    ensures Route(m, installed, route + [q])
  {
    var longer := route + [q];
    forall k | 0 <= k < |longer| - 1
      ensures Follows(m, installed, longer[k], longer[k + 1])
    {
      if k < |route| - 1 {
        assert Follows(m, installed, route[k], route[k + 1]);
      }
    }
  }

  lemma ReachesNext(m: Lock, installed: bool, p: string, q: string)
    requires Reaches(m, installed, p) && Follows(m, installed, p, q)
    ensures Reaches(m, installed, q)
  {
    var route :| Route(m, installed, route) && route[|route| - 1] == p;
    RouteNext(m, installed, route, q);
    assert (route + [q])[|route|] == q;
  }

  /** A set that holds the root and is closed under the links holds every reachable node. */
  lemma {:induction false} ClosedHoldsRoute(m: Lock, installed: bool, route: seq<string>, closed: set<string>)
    requires Route(m, installed, route) && "" in closed
    requires forall p, q :: p in closed && Follows(m, installed, p, q) ==> q in closed
    ensures route[|route| - 1] in closed
    decreases |route|
  {
    if |route| > 1 {
      var init := route[..|route| - 1];
      assert Route(m, installed, init);
      ClosedHoldsRoute(m, installed, init, closed);
      assert Follows(m, installed, route[|route| - 2], route[|route| - 1]);
    }
  }

  /** What a finished traversal is: everything reachable and nothing else. */
  lemma LeastFixedPoint(m: Lock, installed: bool, reached: set<string>, p: string)
    requires "" in reached
    requires forall a, b :: a in reached && Follows(m, installed, a, b) ==> b in reached
    requires forall a :: a in reached ==> Reaches(m, installed, a)
    ensures p in reached <==> Reaches(m, installed, p)
  {
    if Reaches(m, installed, p) {
      var route :| Route(m, installed, route) && route[|route| - 1] == p;
      ClosedHoldsRoute(m, installed, route, reached);
    }
  }

  // ---------------------------------------------------------------- worklists

  /** The edge's target, where the traversal follows it. */
  predicate LeadsTo(m: Lock, installed: bool, p: string, e: Edge, known: set<string>) {
    var r := Resolve(m.Keys, p, e.name, e.kind);
    r.Some? && (!installed || (r.value in m && m[r.value].applicable)) ==> r.value in known
  }

  /** The first `n` edges of a node lead to known nodes. */
  predicate Expanded(m: Lock, installed: bool, p: string, n: nat, known: set<string>)
    requires p in m
  {
    forall k :: 0 <= k < n && k < |Edges(m[p])| ==> LeadsTo(m, installed, p, Edges(m[p])[k], known)
  }

  function Elements(queue: seq<string>): set<string> {
    set p | p in queue
  }

  lemma ElementsSnoc(queue: seq<string>, p: string)
    ensures Elements(queue + [p]) == Elements(queue) + {p}
  {
  }

  lemma ResolvedInLock(m: Lock, p: string, name: string, kind: Kind)
    ensures var r := Resolve(m.Keys, p, name, kind); r.Some? ==> r.value in m
  {
    FirstPresentIs(Candidates(SearchFrom(p, kind), name), m.Keys);
  }

  /** Everything known is a reachable node of the lock. */
  ghost predicate Sound(m: Lock, installed: bool, known: set<string>) {
    forall p :: p in known ==> p in m && Reaches(m, installed, p)
  }

  ghost predicate Traversal(m: Lock, installed: bool, reached: set<string>, queue: seq<string>) {
    && "" in reached + Elements(queue)
    && Sound(m, installed, reached + Elements(queue))
    && forall p :: p in reached ==> Whole(m, installed, p, reached + Elements(queue))
  }

  /** All of a node's edges lead to known nodes. */
  predicate Whole(m: Lock, installed: bool, p: string, known: set<string>) {
    p in m && Expanded(m, installed, p, |Edges(m[p])|, known)
  }

  lemma WholeGrows(m: Lock, installed: bool, p: string, known: set<string>, more: set<string>)
    requires Whole(m, installed, p, known) && known <= more
    ensures Whole(m, installed, p, more)
  {
  }

  /** Visiting the popped node: it becomes reached, and its expansion joins the queue. */
  lemma Visited(m: Lock, installed: bool, reached: set<string>, queue: seq<string>, path: string, more: seq<string>)
    requires Traversal(m, installed, reached, queue + [path])
    requires queue <= more && Sound(m, installed, Elements(more))
    requires Whole(m, installed, path, reached + {path} + Elements(more))
    ensures Traversal(m, installed, reached + {path}, more)
  {
    ElementsSnoc(queue, path);
    var known := reached + {path} + Elements(more);
    assert Elements(queue) <= Elements(more);
    forall p | p in reached + {path}
      ensures Whole(m, installed, p, known)
    {
      if p in reached {
        WholeGrows(m, installed, p, reached + Elements(queue + [path]), known);
      }
    }
  }

  lemma Skipped(m: Lock, installed: bool, reached: set<string>, queue: seq<string>, path: string)
    requires Traversal(m, installed, reached, queue + [path]) && path in reached
    ensures Traversal(m, installed, reached, queue)
  {
    ElementsSnoc(queue, path);
    assert reached + Elements(queue + [path]) == reached + Elements(queue);
  }

  /** What a popped node and the rest of the queue are known to be. */
  lemma Popped(m: Lock, installed: bool, reached: set<string>, queue: seq<string>, path: string)
    requires Traversal(m, installed, reached, queue + [path])
    ensures path in m && Reaches(m, installed, path) && Sound(m, installed, Elements(queue))
  {
    ElementsSnoc(queue, path);
  }

  /** A traversal whose queue is empty has found exactly the reachable nodes. */
  lemma TraversalDone(m: Lock, installed: bool, reached: set<string>, p: string)
    requires Traversal(m, installed, reached, [])
    ensures p in reached <==> Reaches(m, installed, p)
  {
    assert reached + Elements([]) == reached;
    forall a, b | a in reached && Follows(m, installed, a, b)
      ensures b in reached
    {
      var e :| e in Edges(m[a]) && Resolve(m.Keys, a, e.name, e.kind) == Some(b);
      assert Whole(m, installed, a, reached);
      var k :| 0 <= k < |Edges(m[a])| && Edges(m[a])[k] == e;
      assert LeadsTo(m, installed, a, Edges(m[a])[k], reached);
    }
    LeastFixedPoint(m, installed, reached, p);
  }

  // ---------------------------------------------------------------- membership

  lemma ExpandNext(m: Lock, installed: bool, path: string, i: nat, known: set<string>, more: set<string>)
    requires path in m && i < |Edges(m[path])| && Expanded(m, installed, path, i, known) && known <= more
    requires LeadsTo(m, installed, path, Edges(m[path])[i], more)
    ensures Expanded(m, installed, path, i + 1, more)
  {
  }

  /** The queue with a reachable target added, unless it was reached before. */
  method Push(m: Lock, ghost installed: bool, ghost from: string, target: string, reached: set<string>,
              waiting: seq<string>)
      returns (queue: seq<string>)
    requires Reaches(m, installed, from) && Follows(m, installed, from, target) && target in m
    requires Sound(m, installed, Elements(waiting))
    ensures waiting <= queue && Sound(m, installed, Elements(queue)) && target in reached + Elements(queue)
  {
    queue := waiting;
    if target !in reached {
      ReachesNext(m, installed, from, target);
      ElementsSnoc(queue, target);
      queue := queue + [target];
    }
  }

  /** The edges of one popped node: their targets join the queue. */
  method Expand(m: Lock, path: string, reached: set<string>, waiting: seq<string>) returns (queue: seq<string>)
    requires path in m && Reaches(m, false, path)
    requires Sound(m, false, Elements(waiting))
    ensures waiting <= queue && Sound(m, false, Elements(queue))
    ensures Whole(m, false, path, reached + Elements(queue))
  {
    queue := waiting;
    var edges := Edges(m[path]);
    for i := 0 to |edges|
      invariant waiting <= queue && Sound(m, false, Elements(queue))
      invariant Expanded(m, false, path, i, reached + Elements(queue))
    {
      ghost var known := reached + Elements(queue);
      var resolved := ResolveEdge(m, path, edges[i].name, edges[i].kind);
      ResolvedInLock(m, path, edges[i].name, edges[i].kind);
      if resolved.Some? {
        assert Links(m, path, resolved.value);
        queue := Push(m, false, path, resolved.value, reached, queue);
      }
      ExpandNext(m, false, path, i, known, reached + Elements(queue));
    }
  }

  lemma Begun(m: Lock, installed: bool)
    requires "" in m
    ensures Traversal(m, installed, {}, [""])
  {
    RootReached(m, installed);
  }

  lemma AllFound(m: Lock, installed: bool, reached: set<string>)
    requires Traversal(m, installed, reached, [])
    ensures forall p :: p in reached <==> Reaches(m, installed, p)
  {
    forall p
      ensures p in reached <==> Reaches(m, installed, p)
    {
      TraversalDone(m, installed, reached, p);
    }
  }

  /** One pop of the worklist makes progress: a new node is reached, or the queue shrinks. */
  predicate Progress(m: Lock, reached: set<string>, queue: seq<string>, r: set<string>, q: seq<string>) {
    || (r == reached && |q| < |queue|)
    || exists p :: p in m && p !in reached && r == reached + {p}
  }

  method Visit(m: Lock, reached: set<string>, queue: seq<string>) returns (r: set<string>, q: seq<string>)
    requires queue != [] && Traversal(m, false, reached, queue)
    ensures Traversal(m, false, r, q) && Progress(m, reached, queue, r, q)
  {
    var path := queue[|queue| - 1];
    r, q := reached, queue[..|queue| - 1];
    assert queue == q + [path];
    Popped(m, false, reached, q, path);
    if path in reached {
      Skipped(m, false, reached, q, path);
    } else {
      var rest := q;
      r := reached + {path};
      q := Expand(m, path, r, rest);
      Visited(m, false, reached, rest, path, q);
      assert Progress(m, reached, queue, r, q);
    }
  }

  /** `_graph_membership_paths`: a depth-first worklist finds exactly the root-connected nodes. */
  method GraphMembershipPaths(m: Lock) returns (reached: set<string>)
    requires WellKeyed(m)
    ensures forall p :: p in reached <==> Reaches(m, false, p)
  {
    reached := {};
    var queue := [""];
    Begun(m, false);
    while queue != []
      invariant Traversal(m, false, reached, queue)
      decreases m.Keys - reached, |queue|
    {
      reached, queue := Visit(m, reached, queue);
    }
    AllFound(m, false, reached);
  }
}
