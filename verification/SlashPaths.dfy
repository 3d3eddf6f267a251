/** Paths as names between slashes: splitting, joining, and where a relative target leads. */
module SlashPaths {
  import opened Common

  function FirstSlash(s: string): (k: nat)
    ensures k <= |s| && (k < |s| ==> s[k] == '/') && forall j :: 0 <= j < k ==> s[j] != '/'
  {
    if s == "" then 0 else if s[0] == '/' then 0 else 1 + FirstSlash(s[1..])
  }

  lemma Splice(n: string, k: nat)
    requires k < |n|
    ensures n == n[..k] + [n[k]] + n[k + 1..]
  {
  }

  /** `"/".join(segs)`. */
  function JoinSlash(segs: seq<string>): string {
    if segs == [] then ""
    else if |segs| == 1 then segs[0]
    else segs[0] + ['/'] + JoinSlash(segs[1..])
  }

  /** `path.split("/")`. */
  function Split(path: string): (segs: seq<string>)
    ensures segs != []
    decreases |path|
  {
    var k := FirstSlash(path);
    if k == |path| then [path] else [path[..k]] + Split(path[k + 1..])
  }

  lemma {:induction false} JoinSplit(path: string)
    ensures JoinSlash(Split(path)) == path
    decreases |path|
  {
    var k := FirstSlash(path);
    if k < |path| {
      JoinSplit(path[k + 1..]);
      Splice(path, k);
      assert ([path[..k]] + Split(path[k + 1..]))[1..] == Split(path[k + 1..]);
    }
  }

  lemma {:induction false} FirstSlashOf(a: string, b: string)
    requires forall k :: 0 <= k < |a| ==> a[k] != '/'
    ensures FirstSlash(a + ['/'] + b) == |a|
  {
    var s := a + ['/'] + b;
    if a != "" {
      FirstSlashOf(a[1..], b);
      assert s[1..] == a[1..] + ['/'] + b;
    }
  }

  // ---------------------------------------------------------------- relative targets

  const UP := ".."

  /** `posixpath.normpath` of a relative path, component by component. */
  function Normal(parts: seq<string>): seq<string> {
    if parts == [] then []
    else
      var before := Normal(parts[..|parts| - 1]);
      var last := parts[|parts| - 1];
      if last == "" || last == "." then before
      else if last != UP || before == [] || before[|before| - 1] == UP then before + [last]
      else before[..|before| - 1]
  }

  /** How deep one stands after walking the components one by one; None once the walk has left its root. */
  function Depth(parts: seq<string>): Option<nat> {
    if parts == [] then Some(0)
    else
      match Depth(parts[..|parts| - 1])
      case None => None
      case Some(d) =>
        var last := parts[|parts| - 1];
        if last == "" || last == "." then Some(d)
        else if last != UP then Some(d + 1)
        else if d == 0 then None
        else Some(d - 1)
  }

  /** The normal form begins with `..` exactly when the walk leaves its root on the way. */
  lemma {:induction false} NormalIs(parts: seq<string>)
    ensures Depth(parts).Some? ==> |Normal(parts)| == Depth(parts).value && UP !in Normal(parts)
    ensures Depth(parts).None? ==> Normal(parts) != [] && Normal(parts)[0] == UP
  {
    if parts != [] {
      NormalIs(parts[..|parts| - 1]);
    }
  }

  /** `_contained_target`: a relative link target whose normal form does not begin with `..`. */
  predicate Contained(path: string, target: string) {
    && target != "" && target[0] != '/' && '\\' !in target
    && var normal := Normal(TargetParts(path, target));
       normal == [] || normal[0] != UP
  }

  /** The components of the directory of `path`, and then those of the target. */
  function TargetParts(path: string, target: string): seq<string> {
    Split(path)[..|Split(path)| - 1] + Split(target)
  }

  /** A contained target never leaves the tree on its way, component by component. */
  lemma ContainedIs(path: string, target: string)
    ensures Contained(path, target) <==>
              target != "" && target[0] != '/' && '\\' !in target && Depth(TargetParts(path, target)).Some?
  {
    NormalIs(TargetParts(path, target));
  }
}
