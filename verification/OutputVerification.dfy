/**
  Verification of a stored output and cache-hit selection: an output is reused only when manifest,
  evidence and the live tree all agree and every digest recomputes.
 */
module OutputVerification {
  import opened Common
  import opened Text
  import opened SlashPaths
  import opened Evidence
  import opened ContentAddress

  datatype Manifest = Manifest(entries: seq<TreeEntry>, digest: string)

  function ManifestJson(m: Manifest): Json {
    Obj(map[Digest := Str(m.digest), Entries := Arr(Each(m.entries, EntryJson))])
  }

  /** `parse_manifest`, from the JSON value on. */
  function ParseManifest(hash: Hash, j: Json): Parsed<Manifest> {
    var d :- Fields(j, {Digest, Entries});
    var digest :- GetStr(d, Digest);
    var items :- GetList(d, Entries);
    var entries :- All(items, DecodeEntry);
    if CanonicalEntries(entries) && TreeDigestOf(hash, entries) == digest then Ok(Manifest(entries, digest))
    else Malformed
  }

  lemma ManifestTrip(hash: Hash, m: Manifest)
    requires CanonicalEntries(m.entries) && TreeDigestOf(hash, m.entries) == m.digest
    ensures ParseManifest(hash, ManifestJson(m)) == Ok(m)
  {
    EntriesTrip(m.entries);
  }

  // ---------------------------------------------------------------- the live tree

  const FILE := "file"
  const SYMLINK := "symlink"

  /** What the walk reports: a digest only for files, a target only for links. */
  predicate Plain(e: TreeEntry) {
    (e.kind != FILE ==> e.digest == "") && (e.kind != SYMLINK ==> e.target == "")
  }

  predicate UniquePaths(entries: seq<TreeEntry>) {
    forall i, j :: 0 <= i < j < |entries| ==> entries[i].path != entries[j].path
  }

  /** A walk of a directory tree: plain entries, each path once. */
  predicate Walked(live: seq<TreeEntry>) {
    UniquePaths(live) && forall k :: 0 <= k < |live| ==> Plain(live[k])
  }

  /** `_compare` raises nothing. */
  predicate Agrees(found: TreeEntry, expected: TreeEntry) {
    && (found.kind == SYMLINK ==> Contained(found.path, found.target))
    && found.kind == expected.kind
    && (found.kind == FILE ==> found.digest == expected.digest)
    && (found.kind == SYMLINK ==> found.target == expected.target)
    && found.mode == expected.mode && found.uid == expected.uid && found.gid == expected.gid
  }

  predicate Expected(f: TreeEntry, entries: seq<TreeEntry>) {
    exists k :: 0 <= k < |entries| && entries[k].path == f.path && Agrees(f, entries[k])
  }

  predicate Present(path: string, live: seq<TreeEntry>) {
    exists k :: 0 <= k < |live| && live[k].path == path
  }

  /** Nothing extra, nothing missing, nothing different. */
  predicate Matches(live: seq<TreeEntry>, entries: seq<TreeEntry>) {
    && (forall k :: 0 <= k < |live| ==> Expected(live[k], entries))
    && (forall k :: 0 <= k < |entries| ==> Present(entries[k].path, live))
  }

  lemma CanonicalUnique(entries: seq<TreeEntry>)
    requires CanonicalEntries(entries)
    ensures UniquePaths(entries)
  {
    forall i, j | 0 <= i < j < |entries|
      ensures entries[i].path != entries[j].path
    {
      TextTotal(entries[i].path, entries[j].path);
    }
  }

  /** `by_path.get(path)`. */
  method Lookup(entries: seq<TreeEntry>, path: string) returns (found: Option<TreeEntry>)
    requires UniquePaths(entries)
    ensures found.Some? ==> found.value in entries && found.value.path == path
    ensures found.None? ==> !Present(path, entries)
  {
    for k := 0 to |entries|
      invariant forall j :: 0 <= j < k ==> entries[j].path != path
    {
      if entries[k].path == path {
        return Some(entries[k]);
      }
    }
    return None;
  }

  /** The visits and the final check of `verify_tree`. */
  method VerifyTree(live: seq<TreeEntry>, entries: seq<TreeEntry>) returns (ok: bool)
    requires UniquePaths(entries)
    ensures ok <==> Matches(live, entries)
  {
    for i := 0 to |live|
      invariant forall k :: 0 <= k < i ==> Expected(live[k], entries)
    {
      var expected := Lookup(entries, live[i].path);
      if expected.None? {
        assert !Expected(live[i], entries);
        return false;
      }
      var j :| 0 <= j < |entries| && entries[j] == expected.value;
      if !Agrees(live[i], expected.value) {
        OneOfPath(entries, live[i], j);
        return false;
      }
    }
    var seen := set k | 0 <= k < |live| :: live[k].path;
    for k := 0 to |entries|
      invariant forall j :: 0 <= j < k ==> Present(entries[j].path, live)
    {
      if entries[k].path !in seen {
        return false;
      }
    }
    return true;
  }

  lemma OneOfPath(entries: seq<TreeEntry>, f: TreeEntry, j: nat)
    requires UniquePaths(entries) && j < |entries| && entries[j].path == f.path && !Agrees(f, entries[j])
    ensures !Expected(f, entries)
  {
    forall k | 0 <= k < |entries| && entries[k].path == f.path
      ensures k == j
    {
    }
  }

  predicate LinksContained(entries: seq<TreeEntry>) {
    forall e :: e in entries && e.kind == SYMLINK ==> Contained(e.path, e.target)
  }

  /**
    A walked tree matches a manifest of plain entries exactly when it consists of the same entries, in any
    order, and no link leads out of it.
   */
  lemma MatchesIsEquality(live: seq<TreeEntry>, entries: seq<TreeEntry>)
    requires Walked(live) && Walked(entries)
    ensures Matches(live, entries) <==> LinksContained(live) && forall e :: e in live <==> e in entries
  {
    if Matches(live, entries) {
      MatchingAreEqual(live, entries);
    }
    if LinksContained(live) && forall e :: e in live <==> e in entries {
      EqualMatch(live, entries);
    }
  }

  lemma EqualMatch(live: seq<TreeEntry>, entries: seq<TreeEntry>)
    requires LinksContained(live) && forall e :: e in live <==> e in entries
    ensures Matches(live, entries)
  {
    forall k | 0 <= k < |live|
      ensures Expected(live[k], entries)
    {
      assert live[k] in entries;
      var j :| 0 <= j < |entries| && entries[j] == live[k];
    }
    forall k | 0 <= k < |entries|
      ensures Present(entries[k].path, live)
    {
      assert entries[k] in live;
      var j :| 0 <= j < |live| && live[j] == entries[k];
    }
  }

  /** Plain entries that agree are the same. */
  lemma PlainAgree(found: TreeEntry, expected: TreeEntry)
    requires Plain(found) && Plain(expected) && found.path == expected.path && Agrees(found, expected)
    ensures found == expected
  {
  }

  lemma MatchingAreEqual(live: seq<TreeEntry>, entries: seq<TreeEntry>)
    requires Walked(live) && Walked(entries) && Matches(live, entries)
    ensures LinksContained(live) && forall e :: e in live <==> e in entries
  {
    forall e | e in live
      ensures e in entries && (e.kind == SYMLINK ==> Contained(e.path, e.target))
    {
      var k :| 0 <= k < |live| && live[k] == e;
      var j :| 0 <= j < |entries| && entries[j].path == e.path && Agrees(e, entries[j]);
      PlainAgree(e, entries[j]);
    }
    forall e | e in entries
      ensures e in live
    {
      var k :| 0 <= k < |entries| && entries[k] == e;
      var j :| 0 <= j < |live| && live[j].path == e.path;
      var i :| 0 <= i < |entries| && entries[i].path == live[j].path && Agrees(live[j], entries[i]);
      assert i == k;
      PlainAgree(live[j], e);
    }
  }

  // ---------------------------------------------------------------- one output

  /** One file as the validated read finds it: JSON, or anything it refuses. */
  datatype Content = Unreadable | Readable(json: Json)

  datatype Output = Output(evidence: Content, manifest: Content, tree: seq<TreeEntry>)

  function Read<T>(c: Content, parse: Json -> Parsed<T>): Parsed<T> {
    if c.Readable? then parse(c.json) else Malformed
  }

  /** Whether `verify_output` returns the envelope, once evidence and manifest have parsed. */
  predicate Accepts(hash: Hash, id: string, input: InputIdentity, e: Envelope, m: Manifest, tree: seq<TreeEntry>) {
    && e.outputIdentity == id
    && e.inputIdentity == input
    && e.treeDigest == m.digest
    && e.body.treeEntries == m.entries
    && Matches(tree, m.entries)
    && OutputIdentityOf(hash, input.digest, e.treeDigest, e.evidenceDigest) == id
  }

  function Verified(hash: Hash, flags: seq<string>, id: string, input: InputIdentity, out: Output): Option<Envelope> {
    var e := Read(out.evidence, j => ParseEvidence(hash, flags, j));
    var m := Read(out.manifest, j => ParseManifest(hash, j));
    if e.Ok? && m.Ok? && Accepts(hash, id, input, e.value, m.value, out.tree) then Some(e.value) else None
  }

  /** `verify_output`: its checks one after the other. */
  method VerifyOutput(hash: Hash, flags: seq<string>, id: string, input: InputIdentity, out: Output)
      returns (result: Option<Envelope>)
    ensures result == Verified(hash, flags, id, input, out)
  {
    if out.evidence.Unreadable? || out.manifest.Unreadable? {
      return None;
    }
    var evidence := ParseEvidence(hash, flags, out.evidence.json);
    var manifest := ParseManifest(hash, out.manifest.json);
    if evidence.Malformed? || manifest.Malformed? {
      return None;
    }
    var e, m := evidence.value, manifest.value;
    if e.outputIdentity != id || e.inputIdentity.digest != input.digest || e.inputIdentity != input {
      return None;
    }
    if e.treeDigest != m.digest || e.body.treeEntries != m.entries {
      return None;
    }
    CanonicalUnique(m.entries);
    var same := VerifyTree(out.tree, m.entries);
    if !same {
      return None;
    }
    if OutputIdentityOf(hash, input.digest, e.treeDigest, e.evidenceDigest) != id {
      return None;
    }
    return Some(e);
  }

  /** A reused output is what its evidence says, down to the live tree, and belongs to this input. */
  lemma VerifiedIs(hash: Hash, flags: seq<string>, id: string, input: InputIdentity, out: Output)
    requires Verified(hash, flags, id, input, out).Some?
    ensures var e := Verified(hash, flags, id, input, out).value;
            && Built(hash, flags, e) && e.outputIdentity == id && e.inputIdentity == input
            && Matches(out.tree, e.body.treeEntries)
    ensures forall f :: f in out.tree && f.kind == SYMLINK ==> Contained(f.path, f.target)
  {
    AcceptedIsBuilt(hash, flags, out.evidence.json);
  }

  /** What publication writes for a built envelope, and the tree it describes, verifies. */
  lemma PublishedVerifies(hash: Hash, flags: seq<string>, e: Envelope, tree: seq<TreeEntry>)
    requires Built(hash, flags, e) && Matches(tree, e.body.treeEntries)
    ensures var m := Manifest(e.body.treeEntries, e.treeDigest);
            Verified(hash, flags, e.outputIdentity, e.inputIdentity,
                     Output(Readable(EnvelopeJson(e)), Readable(ManifestJson(m)), tree)) == Some(e)
  {
    ParseSerialized(hash, flags, e);
    ManifestTrip(hash, Manifest(e.body.treeEntries, e.treeDigest));
  }

  lemma WalkedAgree(a: seq<TreeEntry>, b: seq<TreeEntry>, entries: seq<TreeEntry>, f: TreeEntry)
    requires Walked(a) && Walked(b) && UniquePaths(entries) && Matches(a, entries) && Matches(b, entries) && f in a
    ensures f in b
  {
    var i :| 0 <= i < |a| && a[i] == f;
    assert Expected(a[i], entries);
    var k :| 0 <= k < |entries| && entries[k].path == f.path && Agrees(f, entries[k]);
    assert Present(entries[k].path, b);
    var j :| 0 <= j < |b| && b[j].path == f.path;
    assert Expected(b[j], entries);
    var l :| 0 <= l < |entries| && entries[l].path == b[j].path && Agrees(b[j], entries[l]);
    assert l == k;
    assert Plain(a[i]) && Plain(b[j]);
  }

  /** Under a collision-free hash one output identity names one envelope and one tree. */
  lemma IdentityFixesOutput(hash: Hash, flags: seq<string>, id: string, i: InputIdentity, j: InputIdentity, a: Output,
                            b: Output)
    requires CollisionFree(hash) && Walked(a.tree) && Walked(b.tree)
    requires Verified(hash, flags, id, i, a).Some? && Verified(hash, flags, id, j, b).Some?
    ensures Verified(hash, flags, id, i, a) == Verified(hash, flags, id, j, b) && i == j
    ensures forall e :: e in a.tree <==> e in b.tree
  {
    VerifiedIs(hash, flags, id, i, a);
    VerifiedIs(hash, flags, id, j, b);
    var x, y := Verified(hash, flags, id, i, a).value, Verified(hash, flags, id, j, b).value;
    IdentityFixesEnvelope(hash, flags, x, y);
    CanonicalUnique(x.body.treeEntries);
    forall e
      ensures e in a.tree <==> e in b.tree
    {
      if e in a.tree {
        WalkedAgree(a.tree, b.tree, x.body.treeEntries, e);
      }
      if e in b.tree {
        WalkedAgree(b.tree, a.tree, x.body.treeEntries, e);
      }
    }
  }

  // ---------------------------------------------------------------- cache hits

  /** One indexed identity: its output, if there is one and it verifies. */
  function IndexHit(hash: Hash, flags: seq<string>, id: string, outputs: map<string, Output>,
                    input: InputIdentity): Option<Envelope> {
    if id in outputs then Verified(hash, flags, id, input, outputs[id]) else None
  }

  method TryCandidate(hash: Hash, flags: seq<string>, id: string, outputs: map<string, Output>, input: InputIdentity)
      returns (hit: Option<Envelope>)
    ensures hit == IndexHit(hash, flags, id, outputs, input)
  {
    hit := None;
    if id in outputs {
      hit := VerifyOutput(hash, flags, id, input, outputs[id]);
    }
  }

  predicate AllMiss(ids: seq<string>, hits: string -> Option<Envelope>) {
    forall k :: 0 <= k < |ids| ==> hits(ids[k]).None?
  }

  lemma MissNext(ids: seq<string>, at: nat, hits: string -> Option<Envelope>)
    requires at < |ids| && AllMiss(ids[..at], hits) && hits(ids[at]).None?
    ensures AllMiss(ids[..at + 1], hits)
  {
    assert forall k :: 0 <= k < at ==> ids[..at + 1][k] == ids[..at][k];
  }

  /**
    `find_cached_result`: whatever the index lists, a hit is a fully verified output, the first listed
    that verifies; a miss means that none does.
   */
  method FindCached(hash: Hash, flags: seq<string>, index: seq<string>, outputs: map<string, Output>,
                    input: InputIdentity)
      returns (hit: Option<Envelope>, at: nat)
    ensures at <= |index| && AllMiss(index[..at], id => IndexHit(hash, flags, id, outputs, input))
    ensures hit.Some? ==> at < |index| && hit == IndexHit(hash, flags, index[at], outputs, input)
    ensures hit.None? ==> at == |index|
  {
    ghost var hits := id => IndexHit(hash, flags, id, outputs, input);
    at := 0;
    while at < |index|
      invariant at <= |index| && AllMiss(index[..at], hits)
    {
      hit := TryCandidate(hash, flags, index[at], outputs, input);
      assert hits(index[at]) == hit;
      if hit.Some? {
        return;
      }
      MissNext(index, at, hits);
      at := at + 1;
    }
    hit := None;
  }
}
