/** What the digests identify, for a collision-free hash. */
module Identities {
  import opened Common
  import opened Text
  import opened Sorting
  import opened Evidence
  import opened ContentAddress

  lemma {:induction false} EachIs<T>(items: seq<T>, encode: T -> Json)
    ensures |Each(items, encode)| == |items|
    ensures forall k :: 0 <= k < |items| ==> Each(items, encode)[k] == encode(items[k])
  {
    if items != [] {
      var rest := items[1..];
      EachIs(rest, encode);
      forall k | 0 <= k < |items|
        ensures Each(items, encode)[k] == encode(items[k])
      {
        assert k > 0 ==> Each(items, encode)[k] == Each(rest, encode)[k - 1] && items[k] == rest[k - 1];
      }
    }
  }

  /** Equal assembler digests mean equal images, versions, scripts, policies and platforms. */
  lemma AssemblerDigestFixes(hash: Hash, a: Assembler, b: Assembler)
    requires CollisionFree(hash)
    ensures AssemblerDigest(hash, a) == AssemblerDigest(hash, b) <==>
              && a.imageDigest == b.imageDigest && a.nodeVersion == b.nodeVersion && a.npmVersion == b.npmVersion
              && a.scriptDigest == b.scriptDigest && a.policyDigest == b.policyDigest && a.platform == b.platform
  {
    var x, y := AssemblerFields(a), AssemblerFields(b);
    assert AssemblerDigest(hash, a) == hash(Obj(x)) && AssemblerDigest(hash, b) == hash(Obj(y));
    if AssemblerDigest(hash, a) == AssemblerDigest(hash, b) {
      assert Obj(x) == Obj(y);
      assert x[ImageDigest] == y[ImageDigest] && x[NodeVersion] == y[NodeVersion] && x[NpmVersion] == y[NpmVersion];
      assert x[ScriptDigest] == y[ScriptDigest] && x[PolicyDigest] == y[PolicyDigest] && x[Platform] == y[Platform];
    }
  }

  function AssemblerFields(a: Assembler): map<Field, Json> {
    map[ImageDigest := Str(a.imageDigest), NodeVersion := Str(a.nodeVersion), NpmVersion := Str(a.npmVersion),
        ScriptDigest := Str(a.scriptDigest), PolicyDigest := Str(a.policyDigest), Platform := Str(a.platform)]
  }

  lemma MaybeStrIs(m: Option<string>, n: Option<string>)
    ensures MaybeStr(m) == MaybeStr(n) <==> m == n
  {
  }

  lemma RootsFixed(a: seq<RootSpec>, b: seq<RootSpec>)
    requires Each(a, RootJson) == Each(b, RootJson)
    ensures a == b
  {
    EachIs(a, RootJson);
    EachIs(b, RootJson);
    forall k | 0 <= k < |a|
      ensures a[k] == b[k]
    {
      RootTrip(a[k]);
      RootTrip(b[k]);
      assert Each(a, RootJson)[k] == Each(b, RootJson)[k];
    }
  }

  function InputFields(i: InputIdentity): map<Field, Json> {
    map[Roots := Arr(Each(Sort(i.roots, ROOTS), RootJson)), LockfileDigest := Str(i.lockfileDigest),
        AssemblerField := Str(i.assembler.digest), PackageDigest := MaybeStr(i.packageDigest)]
  }

  /**
    Equal input identities mean the same roots, whatever their order, the same lockfile and install
    package, and the same assembler.
   */
  lemma InputDigestFixes(hash: Hash, i: InputIdentity, j: InputIdentity)
    requires CollisionFree(hash)
    ensures InputDigest(hash, i) == InputDigest(hash, j) <==>
              && Sort(i.roots, ROOTS) == Sort(j.roots, ROOTS) && i.lockfileDigest == j.lockfileDigest
              && i.assembler.digest == j.assembler.digest && i.packageDigest == j.packageDigest
    ensures InputDigest(hash, i) == InputDigest(hash, j) ==> multiset(i.roots) == multiset(j.roots)
  {
    var x, y := InputFields(i), InputFields(j);
    assert InputDigest(hash, i) == hash(Obj(x)) && InputDigest(hash, j) == hash(Obj(y));
    MaybeStrIs(i.packageDigest, j.packageDigest);
    if InputDigest(hash, i) == InputDigest(hash, j) {
      assert Obj(x) == Obj(y);
      assert x[Roots] == y[Roots] && x[LockfileDigest] == y[LockfileDigest];
      assert x[AssemblerField] == y[AssemblerField] && x[PackageDigest] == y[PackageDigest];
      RootsFixed(Sort(i.roots, ROOTS), Sort(j.roots, ROOTS));
      SortPermutes(i.roots, ROOTS);
      SortPermutes(j.roots, ROOTS);
    }
  }

  /** Verified input identities with equal digests agree in everything but the order of their roots. */
  lemma InputIdentityFixes(hash: Hash, i: InputIdentity, j: InputIdentity)
    requires CollisionFree(hash) && InputVerified(hash, i) && InputVerified(hash, j) && i.digest == j.digest
    ensures i.assembler == j.assembler && i.lockfileDigest == j.lockfileDigest
    ensures i.packageDigest == j.packageDigest && multiset(i.roots) == multiset(j.roots)
  {
    InputDigestFixes(hash, i, j);
    AssemblerDigestFixes(hash, i.assembler, j.assembler);
  }

  predicate SameContent(d: TreeEntry, e: TreeEntry) {
    d.path == e.path && d.kind == e.kind && d.digest == e.digest && d.target == e.target
  }

  lemma ContentIs(d: TreeEntry, e: TreeEntry)
    ensures ContentJson(d) == ContentJson(e) <==> SameContent(d, e)
  {
    var x := map[Path := Str(d.path), Kind := Str(d.kind), Digest := Str(d.digest), Target := Str(d.target)];
    var y := map[Path := Str(e.path), Kind := Str(e.kind), Digest := Str(e.digest), Target := Str(e.target)];
    if ContentJson(d) == ContentJson(e) {
      assert Obj(x) == Obj(y);
      assert x[Path] == y[Path] && x[Kind] == y[Kind] && x[Digest] == y[Digest] && x[Target] == y[Target];
    }
  }

  /** Equal tree digests mean the same path, kind, file digest and link target, entry by entry. */
  lemma TreeDigestFixes(hash: Hash, a: seq<TreeEntry>, b: seq<TreeEntry>)
    requires CollisionFree(hash)
    ensures TreeDigestOf(hash, a) == TreeDigestOf(hash, b) <==>
              |a| == |b| && forall k :: 0 <= k < |a| ==> SameContent(a[k], b[k])
  {
    EachIs(a, ContentJson);
    EachIs(b, ContentJson);
    var x, y := Each(a, ContentJson), Each(b, ContentJson);
    forall k | 0 <= k < |a| && k < |b|
      ensures x[k] == y[k] <==> SameContent(a[k], b[k])
    {
      ContentIs(a[k], b[k]);
    }
    if |a| == |b| && forall k :: 0 <= k < |a| ==> SameContent(a[k], b[k]) {
      assert x == y;
    }
    if TreeDigestOf(hash, a) == TreeDigestOf(hash, b) {
      assert Arr(x) == Arr(y);
    }
  }
}
