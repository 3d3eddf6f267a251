/**
  Digests over evidence, the verifying parser, and content addressing. SHA-256 over canonical JSON text
  is a parameter `hash` on JSON values, assumed collision-free where a lemma says so.
 */
module ContentAddress {
  import opened Common
  import opened Text
  import opened Sorting
  import opened Evidence

  type Hash = Json -> string

  ghost predicate CollisionFree(hash: Hash) {
    forall a, b :: hash(a) == hash(b) ==> a == b
  }

  // ---------------------------------------------------------------- orders

  predicate PairLess(a: Pair, b: Pair) {
    TextLess(a.0, b.0) || (a.0 == b.0 && TextLess(a.1, b.1))
  }

  predicate RootLess(a: RootSpec, b: RootSpec) {
    PairLess((a.name, a.version), (b.name, b.version))
  }

  const PAIRS: (Pair, Pair) -> bool := (a, b) => PairLess(a, b)
  const TEXTS: (string, string) -> bool := (a, b) => TextLess(a, b)
  const ROOTS: (RootSpec, RootSpec) -> bool := (a, b) => RootLess(a, b)

  // ---------------------------------------------------------------- digests

  /** `_assembler_digest`: the six components, not the claimed digest. */
  function AssemblerDigest(hash: Hash, a: Assembler): string {
    hash(Obj(map[
               ImageDigest := Str(a.imageDigest), NodeVersion := Str(a.nodeVersion), NpmVersion := Str(a.npmVersion),
               ScriptDigest := Str(a.scriptDigest), PolicyDigest := Str(a.policyDigest), Platform := Str(a.platform)]))
  }

  /** `input_identity_digest`, over the roots in canonical order. */
  function InputDigest(hash: Hash, i: InputIdentity): string {
    hash(Obj(map[
               Roots := Arr(Each(Sort(i.roots, ROOTS), RootJson)), LockfileDigest := Str(i.lockfileDigest),
               AssemblerField := Str(i.assembler.digest), PackageDigest := MaybeStr(i.packageDigest)]))
  }

  function ContentJson(e: TreeEntry): Json {
    Obj(map[Path := Str(e.path), Kind := Str(e.kind), Digest := Str(e.digest), Target := Str(e.target)])
  }

  /** `canonical_tree_digest` of entries in canonical order: content only, no mode or ownership. */
  function TreeDigestOf(hash: Hash, entries: seq<TreeEntry>): string {
    hash(Arr(Each(entries, ContentJson)))
  }

  function BodyDigest(hash: Hash, b: Body): string {
    hash(BodyJson(b))
  }

  /** `compute_assembled_output_identity`. */
  function OutputIdentityOf(hash: Hash, inputDigest: string, treeDigest: string, evidenceDigest: string): string {
    hash(Obj(map[InputIdentityField := Str(inputDigest), TreeDigest := Str(treeDigest),
                 EvidenceDigest := Str(evidenceDigest)]))
  }

  // ---------------------------------------------------------------- the verifying parser

  /** Sorted by path without repetition: `entries == sorted(entries)` and no duplicate path. */
  predicate CanonicalEntries(entries: seq<TreeEntry>) {
    forall i, j :: 0 <= i < j < |entries| ==> TextLess(entries[i].path, entries[j].path)
  }

  predicate InputVerified(hash: Hash, i: InputIdentity) {
    i.assembler.digest == AssemblerDigest(hash, i.assembler) && i.digest == InputDigest(hash, i)
  }

  function NormalPackage(p: LockPackage): LockPackage {
    p.(dependencies := Sort(p.dependencies, PAIRS), optionalDependencies := Sort(p.optionalDependencies, PAIRS),
       devDependencies := Sort(p.devDependencies, PAIRS), peerDependencies := Sort(p.peerDependencies, PAIRS),
       optionalPeers := Sort(p.optionalPeers, TEXTS))
  }

  function NormalMetadata(r: RootMetadata): RootMetadata {
    r.(bin := Sort(r.bin, PAIRS))
  }

  function Map<T, U>(items: seq<T>, f: T -> U): seq<U> {
    if items == [] then [] else [f(items[0])] + Map(items[1..], f)
  }

  /** The parser re-sorts dependency maps, optional peers and bins. */
  function Normal(b: Body): Body {
    b.(packages := Map(b.packages, NormalPackage), rootMetadata := Map(b.rootMetadata, NormalMetadata))
  }

  predicate BodyVerified(hash: Hash, flags: seq<string>, b: Body) {
    && CanonicalEntries(b.treeEntries)
    && TreeDigestOf(hash, b.treeEntries) == b.treeDigest
    && b.npmPolicyFlags == flags
    && InputVerified(hash, b.inputIdentity)
  }

  predicate EnvelopeVerified(hash: Hash, flags: seq<string>, e: Envelope) {
    && InputVerified(hash, e.inputIdentity)
    && BodyVerified(hash, flags, e.body)
    && e.body.inputIdentity == e.inputIdentity
    && e.body.treeDigest == e.treeDigest
    && BodyDigest(hash, e.body) == e.evidenceDigest
    && OutputIdentityOf(hash, e.inputIdentity.digest, e.treeDigest, e.evidenceDigest) == e.outputIdentity
  }

  /** `parse_evidence`, from the JSON value on. */
  function ParseEvidence(hash: Hash, flags: seq<string>, j: Json): Parsed<Envelope> {
    var raw :- DecodeEnvelope(j);
    var e := raw.(body := Normal(raw.body));
    if EnvelopeVerified(hash, flags, e) then Ok(e) else Malformed
  }

  // ---------------------------------------------------------------- what publication builds

  predicate NormalBody(b: Body) {
    Normal(b) == b
  }

  /** An envelope publication could have written: normalized, and with every digest in place. */
  predicate Built(hash: Hash, flags: seq<string>, e: Envelope) {
    NormalBody(e.body) && EnvelopeVerified(hash, flags, e)
  }

  /** `publish_environment`: the envelope over one validated tree. */
  function Build(hash: Hash, input: InputIdentity, entries: seq<TreeEntry>, packages: seq<LockPackage>,
                 omitted: seq<Omitted>, integrityLess: seq<IntegrityLess>, metadata: seq<RootMetadata>,
                 flags: seq<string>): Envelope {
    var treeDigest := TreeDigestOf(hash, entries);
    var body := Body(input, treeDigest, entries, packages, omitted, integrityLess, metadata, flags);
    var evidenceDigest := BodyDigest(hash, body);
    Envelope(OutputIdentityOf(hash, input.digest, treeDigest, evidenceDigest), input, treeDigest, evidenceDigest, body)
  }

  predicate SortedPackage(p: LockPackage) {
    && Sorted(p.dependencies, PAIRS) && Sorted(p.optionalDependencies, PAIRS) && Sorted(p.devDependencies, PAIRS)
    && Sorted(p.peerDependencies, PAIRS) && Sorted(p.optionalPeers, TEXTS)
  }

  lemma {:induction false} MapIdentity<T>(items: seq<T>, f: T -> T)
    requires forall k :: 0 <= k < |items| ==> f(items[k]) == items[k]
    ensures Map(items, f) == items
  {
    if items != [] {
      var rest := items[1..];
      assert forall k :: 0 <= k < |rest| ==> rest[k] == items[k + 1];
      MapIdentity(rest, f);
      assert items == [items[0]] + rest;
    }
  }

  /** Sorted maps, a verified input and canonical entries make a built envelope. */
  lemma BuildIsBuilt(hash: Hash, input: InputIdentity, entries: seq<TreeEntry>, packages: seq<LockPackage>,
                     omitted: seq<Omitted>, integrityLess: seq<IntegrityLess>, metadata: seq<RootMetadata>,
                     flags: seq<string>)
    requires InputVerified(hash, input) && CanonicalEntries(entries)
    requires forall k :: 0 <= k < |packages| ==> SortedPackage(packages[k])
    requires forall k :: 0 <= k < |metadata| ==> Sorted(metadata[k].bin, PAIRS)
    ensures Built(hash, flags, Build(hash, input, entries, packages, omitted, integrityLess, metadata, flags))
  {
    forall k | 0 <= k < |packages|
      ensures NormalPackage(packages[k]) == packages[k]
    {
      NormalOfSorted(packages[k]);
    }
    MapIdentity(packages, NormalPackage);
    forall k | 0 <= k < |metadata|
      ensures NormalMetadata(metadata[k]) == metadata[k]
    {
      SortOfSorted(metadata[k].bin, PAIRS);
    }
    MapIdentity(metadata, NormalMetadata);
  }

  lemma NormalOfSorted(p: LockPackage)
    requires SortedPackage(p)
    ensures NormalPackage(p) == p
  {
    SortOfSorted(p.dependencies, PAIRS);
    SortOfSorted(p.optionalDependencies, PAIRS);
    SortOfSorted(p.devDependencies, PAIRS);
    SortOfSorted(p.peerDependencies, PAIRS);
    SortOfSorted(p.optionalPeers, TEXTS);
  }

  // ---------------------------------------------------------------- round trip and content addressing

  /** Parsing undoes serialization on every envelope publication builds. */
  lemma ParseSerialized(hash: Hash, flags: seq<string>, e: Envelope)
    requires Built(hash, flags, e)
    ensures ParseEvidence(hash, flags, EnvelopeJson(e)) == Ok(e)
  {
    EnvelopeTrip(e);
  }

  /** The output identity fixes the whole accepted envelope, root order, modes and ownership included. */
  lemma IdentityFixesEnvelope(hash: Hash, flags: seq<string>, a: Envelope, b: Envelope)
    requires CollisionFree(hash) && EnvelopeVerified(hash, flags, a) && EnvelopeVerified(hash, flags, b)
    requires a.outputIdentity == b.outputIdentity
    ensures a == b
  {
    OutputIdentityInjective(hash, a.inputIdentity.digest, a.treeDigest, a.evidenceDigest,
                            b.inputIdentity.digest, b.treeDigest, b.evidenceDigest);
    assert hash(BodyJson(a.body)) == hash(BodyJson(b.body));
    BodyTrip(a.body);
    BodyTrip(b.body);
  }

  lemma OutputIdentityInjective(hash: Hash, i: string, t: string, e: string, j: string, u: string, f: string)
    requires CollisionFree(hash) && OutputIdentityOf(hash, i, t, e) == OutputIdentityOf(hash, j, u, f)
    ensures i == j && t == u && e == f
  {
    var a := map[InputIdentityField := Str(i), TreeDigest := Str(t), EvidenceDigest := Str(e)];
    var b := map[InputIdentityField := Str(j), TreeDigest := Str(u), EvidenceDigest := Str(f)];
    assert Obj(a) == Obj(b);
    assert a[InputIdentityField] == b[InputIdentityField] && a[TreeDigest] == b[TreeDigest]
           && a[EvidenceDigest] == b[EvidenceDigest];
  }

  // ---------------------------------------------------------------- accepted envelopes are built

  lemma TextOrders()
    ensures Orders(TEXTS)
  {
    forall a, b
      ensures TEXTS(a, b) ==> !TEXTS(b, a)
    {
      TextTotal(a, b);
    }
    forall a, b, c | !TEXTS(b, a) && !TEXTS(c, b)
      ensures !TEXTS(c, a)
    {
      TextOrdered(a, b, c);
    }
  }

  lemma TextOrdered(a: string, b: string, c: string)
    requires !TextLess(b, a) && !TextLess(c, b)
    ensures !TextLess(c, a)
  {
    TextTotal(a, b);
    TextTotal(b, c);
    TextTotal(a, c);
    if a != b && b != c {
      TextTransitive(a, b, c);
    }
  }

  lemma PairOrders()
    ensures Orders(PAIRS)
  {
    forall a, b
      ensures PAIRS(a, b) ==> !PAIRS(b, a)
    {
      TextTotal(a.0, b.0);
      TextTotal(a.1, b.1);
    }
    forall a, b, c | !PAIRS(b, a) && !PAIRS(c, b)
      ensures !PAIRS(c, a)
    {
      PairOrdered(a, b, c);
    }
  }

  lemma PairOrdered(a: Pair, b: Pair, c: Pair)
    requires !PairLess(b, a) && !PairLess(c, b)
    ensures !PairLess(c, a)
  {
    TextTotal(a.0, b.0);
    TextTotal(b.0, c.0);
    TextTotal(a.0, c.0);
    TextOrdered(a.0, b.0, c.0);
    if a.0 == b.0 == c.0 {
      TextOrdered(a.1, b.1, c.1);
    }
  }

  lemma {:induction false} MapTwice<T>(items: seq<T>, f: T -> T)
    requires forall x :: f(f(x)) == f(x)
    ensures Map(Map(items, f), f) == Map(items, f)
  {
    if items != [] {
      MapTwice(items[1..], f);
      assert Map(items, f)[1..] == Map(items[1..], f);
    }
  }

  lemma NormalTwice(b: Body)
    ensures Normal(Normal(b)) == Normal(b)
  {
    PairOrders();
    TextOrders();
    forall p
      ensures NormalPackage(NormalPackage(p)) == NormalPackage(p)
    {
      SortSorts(p.dependencies, PAIRS);
      SortSorts(p.optionalDependencies, PAIRS);
      SortSorts(p.devDependencies, PAIRS);
      SortSorts(p.peerDependencies, PAIRS);
      SortSorts(p.optionalPeers, TEXTS);
      NormalOfSorted(NormalPackage(p));
    }
    forall r
      ensures NormalMetadata(NormalMetadata(r)) == NormalMetadata(r)
    {
      SortSorts(r.bin, PAIRS);
      SortOfSorted(Sort(r.bin, PAIRS), PAIRS);
    }
    MapTwice(b.packages, NormalPackage);
    MapTwice(b.rootMetadata, NormalMetadata);
  }

  /** Whatever JSON is accepted yields a built envelope, so serializing it again parses to the same. */
  lemma AcceptedIsBuilt(hash: Hash, flags: seq<string>, j: Json)
    requires ParseEvidence(hash, flags, j).Ok?
    ensures var e := ParseEvidence(hash, flags, j).value;
            Built(hash, flags, e) && ParseEvidence(hash, flags, EnvelopeJson(e)) == Ok(e)
  {
    var raw := DecodeEnvelope(j).value;
    NormalTwice(raw.body);
    ParseSerialized(hash, flags, ParseEvidence(hash, flags, j).value);
  }

  /**
    What acceptance vouches for: every digest is the hash of what it stands for, the entries are sorted and
    without repetition, body and envelope name one input, and the policy flags are the current ones.
   */
  lemma AcceptanceMeans(hash: Hash, flags: seq<string>, j: Json)
    requires ParseEvidence(hash, flags, j).Ok?
    ensures var e := ParseEvidence(hash, flags, j).value;
            && e.body.npmPolicyFlags == flags
            && e.body.inputIdentity == e.inputIdentity
            && e.inputIdentity.digest == InputDigest(hash, e.inputIdentity)
            && e.inputIdentity.assembler.digest == AssemblerDigest(hash, e.inputIdentity.assembler)
            && e.body.treeDigest == e.treeDigest == TreeDigestOf(hash, e.body.treeEntries)
            && e.evidenceDigest == hash(BodyJson(e.body))
            && e.outputIdentity == OutputIdentityOf(hash, e.inputIdentity.digest, e.treeDigest, e.evidenceDigest)
            && forall i, k :: 0 <= i < k < |e.body.treeEntries| ==>
                 TextLess(e.body.treeEntries[i].path, e.body.treeEntries[k].path)
  {
    var raw := DecodeEnvelope(j).value;
    assert EnvelopeVerified(hash, flags, raw.(body := Normal(raw.body)));
  }
}
