/**
  npm's `node_modules` lookup, as the lockfile parser and the assembled-tree validator each compute
  it: which directories a dependency of the package at a path is searched in, nearest first.
 */
module LockPaths {

  const SEP := "/node_modules/"
  const TOP := "node_modules/"

  predicate SepAt(s: string, k: int) {
    0 <= k <= |s| - |SEP| && s[k..k + |SEP|] == SEP
  }

  /** The last occurrence at or before `k`, or -1. */
  function FindBack(s: string, k: int): (r: int)
    decreases k
  {
    if k < 0 then -1 else if SepAt(s, k) then k else FindBack(s, k - 1)
  }

  /** `s.rfind("/node_modules/")`. */
  function LastSep(s: string): int {
    FindBack(s, |s| - |SEP|)
  }

  lemma {:induction false} FindBackIs(s: string, k: int)
    ensures -1 <= FindBack(s, k) && (FindBack(s, k) >= 0 ==> FindBack(s, k) <= k && SepAt(s, FindBack(s, k)))
    ensures forall j :: FindBack(s, k) < j <= k ==> !SepAt(s, j)
    decreases k
  {
    if k >= 0 && !SepAt(s, k) {
      FindBackIs(s, k - 1);
    }
  }

  lemma LastSepIs(s: string)
    ensures -1 <= LastSep(s) && (LastSep(s) >= 0 ==> SepAt(s, LastSep(s)))
    ensures forall j :: LastSep(s) < j ==> !SepAt(s, j)
  {
    FindBackIs(s, |s| - |SEP|);
  }

  /** The directory one `node_modules` level up; the project root is the empty path. */
  function Parent(path: string): (p: string)
    ensures path != "" ==> |p| < |path|
  {
    LastSepIs(path);
    if LastSep(path) < 0 then "" else path[..LastSep(path)]
  }

  /** `_ancestor_dirs`, as a recursion. */
  function Ancestors(path: string): seq<string>
    decreases |path|
  {
    [path] + if path == "" then [] else Ancestors(Parent(path))
  }

  function Candidate(directory: string, name: string): string {
    if directory == "" then TOP + name else directory + SEP + name
  }

  function CandidatesIn(directories: seq<string>, name: string): seq<string> {
    if directories == [] then []
    else [Candidate(directories[0], name)] + CandidatesIn(directories[1..], name)
  }

  /** Where a dependency `name` of the package at `path` is looked for, in order. */
  function Candidates(path: string, name: string): seq<string> {
    CandidatesIn(Ancestors(path), name)
  }

  lemma {:induction false} CandidatesInAppend(a: seq<string>, b: seq<string>, name: string)
    ensures CandidatesIn(a + b, name) == CandidatesIn(a, name) + CandidatesIn(b, name)
  {
    if a == [] {
      assert a + b == b;
    } else {
      assert (a + b)[1..] == a[1..] + b;
      CandidatesInAppend(a[1..], b, name);
    }
  }

  lemma {:induction false} CandidatesInIs(directories: seq<string>, name: string)
    ensures |CandidatesIn(directories, name)| == |directories|
    ensures forall k :: 0 <= k < |directories| ==> CandidatesIn(directories, name)[k] == Candidate(directories[k], name)
  {
    if directories != [] {
      var rest := directories[1..];
      CandidatesInIs(rest, name);
      forall k | 0 <= k < |directories|
        ensures CandidatesIn(directories, name)[k] == Candidate(directories[k], name)
      {
        assert k > 0 ==> CandidatesIn(directories, name)[k] == CandidatesIn(rest, name)[k - 1]
                         && directories[k] == rest[k - 1];
      }
    }
  }

  /** One turn of either search loop: the directory just tried joins those before it. */
  lemma Climb(before: seq<string>, current: string, path: string)
    requires current != "" && before + Ancestors(current) == Ancestors(path)
    ensures before + [current] + Ancestors(Parent(current)) == Ancestors(path)
  {
    assert before + ([current] + Ancestors(Parent(current))) == before + [current] + Ancestors(Parent(current));
  }

  lemma CandidatesInSnoc(before: seq<string>, directory: string, name: string)
    ensures CandidatesIn(before + [directory], name) == CandidatesIn(before, name) + [Candidate(directory, name)]
  {
    CandidatesInAppend(before, [directory], name);
    assert [directory][1..] == [];
  }

  /** `_ancestor_dirs`. */
  method AncestorDirs(path: string) returns (dirs: seq<string>)
    ensures dirs == Ancestors(path)
  {
    dirs := [path];
    var current := path;
    ghost var before := [];
    while current != ""
      invariant dirs == before + [current]
      invariant before + Ancestors(current) == Ancestors(path)
      decreases |current|
    {
      Climb(before, current, path);
      before := dirs;
      current := Up(current);
      dirs := dirs + [current];
    }
  }

  /** The cut of `_ancestor_dirs`: `rfind` and, when it finds nothing, the root. */
  method Up(current: string) returns (up: string)
    requires current != ""
    ensures up == Parent(current)
  {
    var index := LastSep(current);
    LastSepIs(current);
    if index == -1 {
      up := "";
    } else {
      up := current[..index];
    }
  }

  /** `"/node_modules/" in path`. */
  predicate ContainsSep(path: string) {
    exists k :: 0 <= k < |path| && SepAt(path, k)
  }

  lemma ContainsSepIs(path: string)
    ensures ContainsSep(path) <==> LastSep(path) >= 0
  {
    LastSepIs(path);
    if LastSep(path) >= 0 {
      assert SepAt(path, LastSep(path));
    }
  }

  lemma CandidateIsTop(directory: string, name: string)
    ensures Candidate(directory, name) == TOP + name <==> directory == ""
  {
    if directory != "" {
      assert |directory + SEP + name| > |TOP + name|;
    }
  }

  /**
    `_dependency_candidate_paths`, the validator's own search: it cuts with `rsplit`, stops when no
    separator is left, and then makes sure that the top level is tried last. The two resolvers search
    the same paths in the same order, for every path and name.
   */
  method DependencyCandidatePaths(declaring: string, name: string) returns (candidates: seq<string>)
    ensures candidates == Candidates(declaring, name)
  {
    candidates := [];
    var current := declaring;
    ghost var before := [];
    assert Ancestors("") == [""];
    while true
      invariant candidates == CandidatesIn(before, name)
      invariant before + Ancestors(current) == Ancestors(declaring)
      decreases |current|
    {
      CandidatesInSnoc(before, current, name);
      candidates := candidates + [Candidate(current, name)];
      if current == "" {
        break;
      }
      Climb(before, current, declaring);
      before := before + [current];
      ContainsSepIs(current);
      if !ContainsSep(current) {
        break;
      }
      LastSepIs(current);
      current := current[..LastSep(current)];
    }
    candidates := WithTop(candidates, before, current, name);
  }

  /** The top level is tried last: it is there already exactly when the search reached the root. */
  method WithTop(tried: seq<string>, ghost before: seq<string>, ghost current: string, name: string)
      returns (candidates: seq<string>)
    requires current == "" ==> tried == CandidatesIn(before + [""], name)
    requires current != "" ==> before != [] && before[|before| - 1] == current && tried == CandidatesIn(before, name)
    ensures candidates == CandidatesIn(before + [""], name)
  {
    candidates := tried;
    CandidatesInSnoc(before, "", name);
    CandidateIsTop(current, name);
    if current != "" {
      CandidatesInIs(before, name);
    }
    if candidates[|candidates| - 1] != TOP + name {
      candidates := candidates + [TOP + name];
    }
  }
}
