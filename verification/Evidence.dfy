/**
  Assembler evidence as JSON values: the records, their encoding, and a decoder that undoes it. JSON
  text is not modelled; object keys are the field names.
 */
module Evidence {
  import opened Common

  datatype Field =
    | Name | Version | ImageDigest | NodeVersion | NpmVersion | ScriptDigest | PolicyDigest | Platform | Digest
    | Roots | LockfileDigest | AssemblerField | PackageDigest
    | Path | Kind | Target | Mode | Uid | Gid
    | Resolved | Integrity | Dependencies | OptionalDependencies | DevDependencies | PeerDependencies | OptionalPeers
    | Dev | Optional | Peer | HasInstallScript | Os | Cpu | Applicable
    | ParentPath | Range | Reason | PackageName | LockPath | Bin | EnginesNode
    | InputIdentityField | TreeDigest | TreeEntries | Packages | OmittedOptionals
    | IntegrityLessField | RootMetadataField
    | NpmPolicyFlags | OutputIdentity | EvidenceDigest | BodyField | Entries
    | OtherField(text: string)

  datatype Json =
    | Null
    | Bool(b: bool)
    | Int(n: int)
    | Str(s: string)
    | Arr(items: seq<Json>)
    | Obj(fields: map<Field, Json>)

  /** A decoded value, or the one malformed-evidence error. */
  datatype Parsed<T> = Ok(value: T) | Malformed {
    predicate IsFailure() {
      Malformed?
    }

    function PropagateFailure<U>(): Parsed<U>
      requires Malformed?
    {
      Malformed
    }

    function Extract(): T
      requires Ok?
    {
      value
    }
  }

  // ---------------------------------------------------------------- records

  type Pair = (string, string)

  datatype RootSpec = RootSpec(name: string, version: string)

  datatype Assembler = Assembler(
    imageDigest: string, nodeVersion: string, npmVersion: string, scriptDigest: string, policyDigest: string,
    platform: string, digest: string)

  datatype InputIdentity = InputIdentity(
    roots: seq<RootSpec>, lockfileDigest: string, assembler: Assembler, digest: string, packageDigest: Option<string>)

  datatype TreeEntry = TreeEntry(
    path: string, kind: string, digest: string, target: string, mode: int, uid: int, gid: int)

  datatype LockPackage = LockPackage(
    path: string, name: string, version: string, resolved: string, integrity: string,
    dependencies: seq<Pair>, optionalDependencies: seq<Pair>, devDependencies: seq<Pair>, peerDependencies: seq<Pair>,
    optionalPeers: seq<string>, dev: bool, optional: bool, peer: bool, hasInstallScript: bool,
    os: Option<seq<string>>, cpu: Option<seq<string>>, applicable: bool)

  datatype Omitted = Omitted(parentPath: string, name: string, range: string, reason: string, platform: string)

  datatype IntegrityLess = IntegrityLess(name: string, path: string, version: string, resolved: string)

  datatype RootMetadata = RootMetadata(packageName: string, lockPath: string, bin: seq<Pair>,
                                       enginesNode: Option<string>)

  datatype Body = Body(
    inputIdentity: InputIdentity, treeDigest: string, treeEntries: seq<TreeEntry>, packages: seq<LockPackage>,
    omittedOptionals: seq<Omitted>, integrityLess: seq<IntegrityLess>, rootMetadata: seq<RootMetadata>,
    npmPolicyFlags: seq<string>)

  datatype Envelope = Envelope(
    outputIdentity: string, inputIdentity: InputIdentity, treeDigest: string, evidenceDigest: string, body: Body)

  // ---------------------------------------------------------------- to JSON (`_to_jsonable`)

  function Each<T>(items: seq<T>, encode: T -> Json): seq<Json> {
    if items == [] then [] else [encode(items[0])] + Each(items[1..], encode)
  }

  function PairJson(p: Pair): Json {
    Arr([Str(p.0), Str(p.1)])
  }

  function Pairs(items: seq<Pair>): Json {
    Arr(Each(items, PairJson))
  }

  function Strings(items: seq<string>): Json {
    Arr(Each(items, s => Str(s)))
  }

  function MaybeStr(m: Option<string>): Json {
    match m
    case None => Null
    case Some(s) => Str(s)
  }

  function MaybeStrings(m: Option<seq<string>>): Json {
    match m
    case None => Null
    case Some(items) => Strings(items)
  }

  function RootJson(r: RootSpec): Json {
    Obj(map[Name := Str(r.name), Version := Str(r.version)])
  }

  function AssemblerJson(a: Assembler): Json {
    Obj(map[
          ImageDigest := Str(a.imageDigest), NodeVersion := Str(a.nodeVersion), NpmVersion := Str(a.npmVersion),
          ScriptDigest := Str(a.scriptDigest), PolicyDigest := Str(a.policyDigest), Platform := Str(a.platform),
          Digest := Str(a.digest)])
  }

  function InputJson(i: InputIdentity): Json {
    Obj(map[
          Roots := Arr(Each(i.roots, RootJson)), LockfileDigest := Str(i.lockfileDigest),
          AssemblerField := AssemblerJson(i.assembler), Digest := Str(i.digest),
          PackageDigest := MaybeStr(i.packageDigest)])
  }

  function EntryJson(e: TreeEntry): Json {
    Obj(map[
          Path := Str(e.path), Kind := Str(e.kind), Digest := Str(e.digest), Target := Str(e.target),
          Mode := Int(e.mode), Uid := Int(e.uid), Gid := Int(e.gid)])
  }

  function PackageJson(p: LockPackage): Json {
    Obj(map[
          Path := Str(p.path), Name := Str(p.name), Version := Str(p.version), Resolved := Str(p.resolved),
          Integrity := Str(p.integrity), Dependencies := Pairs(p.dependencies),
          OptionalDependencies := Pairs(p.optionalDependencies), DevDependencies := Pairs(p.devDependencies),
          PeerDependencies := Pairs(p.peerDependencies), OptionalPeers := Strings(p.optionalPeers),
          Dev := Bool(p.dev), Optional := Bool(p.optional), Peer := Bool(p.peer),
          HasInstallScript := Bool(p.hasInstallScript), Os := MaybeStrings(p.os), Cpu := MaybeStrings(p.cpu),
          Applicable := Bool(p.applicable)])
  }

  function OmittedJson(o: Omitted): Json {
    Obj(map[
          ParentPath := Str(o.parentPath), Name := Str(o.name), Range := Str(o.range), Reason := Str(o.reason),
          Platform := Str(o.platform)])
  }

  function IntegrityLessJson(n: IntegrityLess): Json {
    Obj(map[Name := Str(n.name), Path := Str(n.path), Version := Str(n.version), Resolved := Str(n.resolved)])
  }

  function RootMetadataJson(r: RootMetadata): Json {
    Obj(map[
          PackageName := Str(r.packageName), LockPath := Str(r.lockPath), Bin := Pairs(r.bin),
          EnginesNode := MaybeStr(r.enginesNode)])
  }

  function BodyJson(b: Body): Json {
    Obj(map[
          InputIdentityField := InputJson(b.inputIdentity), TreeDigest := Str(b.treeDigest),
          TreeEntries := Arr(Each(b.treeEntries, EntryJson)), Packages := Arr(Each(b.packages, PackageJson)),
          OmittedOptionals := Arr(Each(b.omittedOptionals, OmittedJson)),
          IntegrityLessField := Arr(Each(b.integrityLess, IntegrityLessJson)),
          RootMetadataField := Arr(Each(b.rootMetadata, RootMetadataJson)),
          NpmPolicyFlags := Strings(b.npmPolicyFlags)])
  }

  function EnvelopeJson(e: Envelope): Json {
    Obj(map[
          OutputIdentity := Str(e.outputIdentity), InputIdentityField := InputJson(e.inputIdentity),
          TreeDigest := Str(e.treeDigest), EvidenceDigest := Str(e.evidenceDigest), BodyField := BodyJson(e.body)])
  }

  // ---------------------------------------------------------------- from JSON

  /** `_require_dict` and `_check_keys`: an object without unexpected keys. */
  function Fields(j: Json, expected: set<Field>): Parsed<map<Field, Json>> {
    if j.Obj? && j.fields.Keys <= expected then Ok(j.fields) else Malformed
  }

  /** `d.get(key)`. */
  function Get(d: map<Field, Json>, key: Field): Json {
    if key in d then d[key] else Null
  }

  function GetStr(d: map<Field, Json>, key: Field): Parsed<string> {
    var j := Get(d, key);
    if j.Str? then Ok(j.s) else Malformed
  }

  function GetInt(d: map<Field, Json>, key: Field): Parsed<int> {
    var j := Get(d, key);
    if j.Int? then Ok(j.n) else Malformed
  }

  function GetBool(d: map<Field, Json>, key: Field): Parsed<bool> {
    var j := Get(d, key);
    if j.Bool? then Ok(j.b) else Malformed
  }

  function GetList(d: map<Field, Json>, key: Field): Parsed<seq<Json>> {
    var j := Get(d, key);
    if j.Arr? then Ok(j.items) else Malformed
  }

  function GetMaybeStr(d: map<Field, Json>, key: Field): Parsed<Option<string>> {
    match Get(d, key)
    case Null => Ok(None)
    case Str(s) => Ok(Some(s))
    case _ => Malformed
  }

  function All<T>(items: seq<Json>, decode: Json -> Parsed<T>): Parsed<seq<T>> {
    if items == [] then Ok([])
    else
      var first :- decode(items[0]);
      var rest :- All(items[1..], decode);
      Ok([first] + rest)
  }

  function DecodeStr(j: Json): Parsed<string> {
    if j.Str? then Ok(j.s) else Malformed
  }

  function DecodePair(j: Json): Parsed<Pair> {
    if j.Arr? && |j.items| == 2 && j.items[0].Str? && j.items[1].Str? then Ok((j.items[0].s, j.items[1].s))
    else Malformed
  }

  function GetPairs(d: map<Field, Json>, key: Field): Parsed<seq<Pair>> {
    var items :- GetList(d, key);
    All(items, DecodePair)
  }

  function GetStrings(d: map<Field, Json>, key: Field): Parsed<seq<string>> {
    var items :- GetList(d, key);
    All(items, DecodeStr)
  }

  function GetMaybeStrings(d: map<Field, Json>, key: Field): Parsed<Option<seq<string>>> {
    if Get(d, key).Null? then Ok(None)
    else
      var items :- GetStrings(d, key);
      Ok(Some(items))
  }

  function DecodeRoot(j: Json): Parsed<RootSpec> {
    var d :- Fields(j, {Name, Version});
    var name :- GetStr(d, Name);
    var version :- GetStr(d, Version);
    Ok(RootSpec(name, version))
  }

  function DecodeAssembler(j: Json): Parsed<Assembler> {
    var d :- Fields(j, {ImageDigest, NodeVersion, NpmVersion, ScriptDigest, PolicyDigest, Platform, Digest});
    var digest :- GetStr(d, Digest);
    var image :- GetStr(d, ImageDigest);
    var node :- GetStr(d, NodeVersion);
    var npm :- GetStr(d, NpmVersion);
    var script :- GetStr(d, ScriptDigest);
    var policy :- GetStr(d, PolicyDigest);
    var platform :- GetStr(d, Platform);
    Ok(Assembler(image, node, npm, script, policy, platform, digest))
  }

  function DecodeInput(j: Json): Parsed<InputIdentity> {
    var d :- Fields(j, {Roots, LockfileDigest, AssemblerField, Digest, PackageDigest});
    var items :- GetList(d, Roots);
    var roots :- All(items, DecodeRoot);
    var lockfile :- GetStr(d, LockfileDigest);
    var assembler :- DecodeAssembler(Get(d, AssemblerField));
    var digest :- GetStr(d, Digest);
    var package :- GetMaybeStr(d, PackageDigest);
    Ok(InputIdentity(roots, lockfile, assembler, digest, package))
  }

  function DecodeEntry(j: Json): Parsed<TreeEntry> {
    var d :- Fields(j, {Path, Kind, Digest, Target, Mode, Uid, Gid});
    var path :- GetStr(d, Path);
    var kind :- GetStr(d, Kind);
    var digest :- GetStr(d, Digest);
    var target :- GetStr(d, Target);
    var mode :- GetInt(d, Mode);
    var uid :- GetInt(d, Uid);
    var gid :- GetInt(d, Gid);
    Ok(TreeEntry(path, kind, digest, target, mode, uid, gid))
  }

  const PACKAGE_FIELDS: set<Field> := {
    Path, Name, Version, Resolved, Integrity, Dependencies, OptionalDependencies, DevDependencies, PeerDependencies,
    OptionalPeers, Dev, Optional, Peer, HasInstallScript, Os, Cpu, Applicable}

  function DecodePackage(j: Json): Parsed<LockPackage> {
    var d :- Fields(j, PACKAGE_FIELDS);
    var path :- GetStr(d, Path);
    var name :- GetStr(d, Name);
    var version :- GetStr(d, Version);
    var resolved :- GetStr(d, Resolved);
    var integrity :- GetStr(d, Integrity);
    var dependencies :- GetPairs(d, Dependencies);
    var optionalDependencies :- GetPairs(d, OptionalDependencies);
    var devDependencies :- GetPairs(d, DevDependencies);
    var peerDependencies :- GetPairs(d, PeerDependencies);
    var optionalPeers :- GetStrings(d, OptionalPeers);
    var dev :- GetBool(d, Dev);
    var optional :- GetBool(d, Optional);
    var peer :- GetBool(d, Peer);
    var hasInstallScript :- GetBool(d, HasInstallScript);
    var os :- GetMaybeStrings(d, Os);
    var cpu :- GetMaybeStrings(d, Cpu);
    var applicable :- GetBool(d, Applicable);
    Ok(LockPackage(path, name, version, resolved, integrity, dependencies, optionalDependencies, devDependencies,
                   peerDependencies, optionalPeers, dev, optional, peer, hasInstallScript, os, cpu, applicable))
  }

  function DecodeOmitted(j: Json): Parsed<Omitted> {
    var d :- Fields(j, {ParentPath, Name, Range, Reason, Platform});
    var parent :- GetStr(d, ParentPath);
    var name :- GetStr(d, Name);
    var range :- GetStr(d, Range);
    var reason :- GetStr(d, Reason);
    var platform :- GetStr(d, Platform);
    Ok(Omitted(parent, name, range, reason, platform))
  }

  function DecodeIntegrityLess(j: Json): Parsed<IntegrityLess> {
    var d :- Fields(j, {Name, Path, Version, Resolved});
    var name :- GetStr(d, Name);
    var path :- GetStr(d, Path);
    var version :- GetStr(d, Version);
    var resolved :- GetStr(d, Resolved);
    Ok(IntegrityLess(name, path, version, resolved))
  }

  function DecodeRootMetadata(j: Json): Parsed<RootMetadata> {
    var d :- Fields(j, {PackageName, LockPath, Bin, EnginesNode});
    var engines :- GetMaybeStr(d, EnginesNode);
    var name :- GetStr(d, PackageName);
    var path :- GetStr(d, LockPath);
    var bin :- GetPairs(d, Bin);
    Ok(RootMetadata(name, path, bin, engines))
  }

  const BODY_FIELDS: set<Field> := {
    InputIdentityField, TreeDigest, TreeEntries, Packages, OmittedOptionals, IntegrityLessField, RootMetadataField,
    NpmPolicyFlags}

  function DecodeBody(j: Json): Parsed<Body> {
    var d :- Fields(j, BODY_FIELDS);
    var entryItems :- GetList(d, TreeEntries);
    var entries :- All(entryItems, DecodeEntry);
    var treeDigest :- GetStr(d, TreeDigest);
    var flags :- GetStrings(d, NpmPolicyFlags);
    var input :- DecodeInput(Get(d, InputIdentityField));
    var packageItems :- GetList(d, Packages);
    var packages :- All(packageItems, DecodePackage);
    var omittedItems :- GetList(d, OmittedOptionals);
    var omitted :- All(omittedItems, DecodeOmitted);
    var integrityItems :- GetList(d, IntegrityLessField);
    var integrityLess :- All(integrityItems, DecodeIntegrityLess);
    var metadataItems :- GetList(d, RootMetadataField);
    var metadata :- All(metadataItems, DecodeRootMetadata);
    Ok(Body(input, treeDigest, entries, packages, omitted, integrityLess, metadata, flags))
  }

  function DecodeEnvelope(j: Json): Parsed<Envelope> {
    var d :- Fields(j, {OutputIdentity, InputIdentityField, TreeDigest, EvidenceDigest, BodyField});
    var output :- GetStr(d, OutputIdentity);
    var input :- DecodeInput(Get(d, InputIdentityField));
    var treeDigest :- GetStr(d, TreeDigest);
    var evidenceDigest :- GetStr(d, EvidenceDigest);
    var body :- DecodeBody(Get(d, BodyField));
    Ok(Envelope(output, input, treeDigest, evidenceDigest, body))
  }

  // ---------------------------------------------------------------- decoding undoes encoding

  lemma {:induction false} AllEach<T>(items: seq<T>, encode: T -> Json, decode: Json -> Parsed<T>)
    requires forall k :: 0 <= k < |items| ==> decode(encode(items[k])) == Ok(items[k])
    ensures All(Each(items, encode), decode) == Ok(items)
  {
    if items != [] {
      var rest := items[1..];
      forall k | 0 <= k < |rest| ensures decode(encode(rest[k])) == Ok(rest[k]) {
        assert rest[k] == items[k + 1];
      }
      AllEach(rest, encode, decode);
      assert Each(items, encode)[1..] == Each(rest, encode);
      assert items == [items[0]] + rest;
    }
  }

  lemma PairsTrip(items: seq<Pair>)
    ensures Pairs(items).Arr? && All(Pairs(items).items, DecodePair) == Ok(items)
  {
    AllEach(items, PairJson, DecodePair);
  }

  lemma StringsTrip(items: seq<string>)
    ensures Strings(items).Arr? && All(Strings(items).items, DecodeStr) == Ok(items)
  {
    AllEach(items, s => Str(s), DecodeStr);
  }

  lemma RootTrip(r: RootSpec)
    ensures DecodeRoot(RootJson(r)) == Ok(r)
  {
  }

  lemma AssemblerTrip(a: Assembler)
    ensures DecodeAssembler(AssemblerJson(a)) == Ok(a)
  {
  }

  lemma InputTrip(i: InputIdentity)
    ensures DecodeInput(InputJson(i)) == Ok(i)
  {
    forall k | 0 <= k < |i.roots| {
      RootTrip(i.roots[k]);
    }
    AllEach(i.roots, RootJson, DecodeRoot);
    AssemblerTrip(i.assembler);
  }

  lemma EntryTrip(e: TreeEntry)
    ensures DecodeEntry(EntryJson(e)) == Ok(e)
  {
  }

  lemma PackageTexts(p: LockPackage)
    ensures var d := PackageJson(p).fields;
            && GetStr(d, Path) == Ok(p.path) && GetStr(d, Name) == Ok(p.name) && GetStr(d, Version) == Ok(p.version)
            && GetStr(d, Resolved) == Ok(p.resolved) && GetStr(d, Integrity) == Ok(p.integrity)
  {
  }

  lemma PackageFlags(p: LockPackage)
    ensures var d := PackageJson(p).fields;
            && GetBool(d, Dev) == Ok(p.dev) && GetBool(d, Optional) == Ok(p.optional) && GetBool(d, Peer) == Ok(p.peer)
            && GetBool(d, HasInstallScript) == Ok(p.hasInstallScript) && GetBool(d, Applicable) == Ok(p.applicable)
  {
  }

  lemma PackageMaps(p: LockPackage)
    ensures var d := PackageJson(p).fields;
            && GetPairs(d, Dependencies) == Ok(p.dependencies)
            && GetPairs(d, OptionalDependencies) == Ok(p.optionalDependencies)
            && GetPairs(d, DevDependencies) == Ok(p.devDependencies)
            && GetPairs(d, PeerDependencies) == Ok(p.peerDependencies)
  {
    PairsTrip(p.dependencies);
    PairsTrip(p.optionalDependencies);
    PairsTrip(p.devDependencies);
    PairsTrip(p.peerDependencies);
  }

  lemma PackageNames(p: LockPackage)
    ensures var d := PackageJson(p).fields;
            && GetStrings(d, OptionalPeers) == Ok(p.optionalPeers)
            && GetMaybeStrings(d, Os) == Ok(p.os) && GetMaybeStrings(d, Cpu) == Ok(p.cpu)
  {
    StringsTrip(p.optionalPeers);
    if p.os.Some? {
      StringsTrip(p.os.value);
    }
    if p.cpu.Some? {
      StringsTrip(p.cpu.value);
    }
  }

  lemma PackageKeys(p: LockPackage)
    ensures PackageJson(p).fields.Keys <= PACKAGE_FIELDS
  {
  }

  lemma PackageTrip(p: LockPackage)
    ensures DecodePackage(PackageJson(p)) == Ok(p)
  {
    PackageKeys(p);
    PackageTexts(p);
    PackageFlags(p);
    PackageMaps(p);
    PackageNames(p);
  }

  lemma OmittedTrip(o: Omitted)
    ensures DecodeOmitted(OmittedJson(o)) == Ok(o)
  {
  }

  lemma IntegrityLessTrip(n: IntegrityLess)
    ensures DecodeIntegrityLess(IntegrityLessJson(n)) == Ok(n)
  {
  }

  lemma RootMetadataTrip(r: RootMetadata)
    ensures DecodeRootMetadata(RootMetadataJson(r)) == Ok(r)
  {
    PairsTrip(r.bin);
  }

  lemma EntriesTrip(entries: seq<TreeEntry>)
    ensures All(Each(entries, EntryJson), DecodeEntry) == Ok(entries)
  {
    forall k | 0 <= k < |entries| {
      EntryTrip(entries[k]);
    }
    AllEach(entries, EntryJson, DecodeEntry);
  }

  lemma PackagesTrip(packages: seq<LockPackage>)
    ensures All(Each(packages, PackageJson), DecodePackage) == Ok(packages)
  {
    forall k | 0 <= k < |packages| {
      PackageTrip(packages[k]);
    }
    AllEach(packages, PackageJson, DecodePackage);
  }

  lemma RecordListsTrip(b: Body)
    ensures All(Each(b.omittedOptionals, OmittedJson), DecodeOmitted) == Ok(b.omittedOptionals)
    ensures All(Each(b.integrityLess, IntegrityLessJson), DecodeIntegrityLess) == Ok(b.integrityLess)
    ensures All(Each(b.rootMetadata, RootMetadataJson), DecodeRootMetadata) == Ok(b.rootMetadata)
  {
    forall k | 0 <= k < |b.omittedOptionals| {
      OmittedTrip(b.omittedOptionals[k]);
    }
    AllEach(b.omittedOptionals, OmittedJson, DecodeOmitted);
    forall k | 0 <= k < |b.integrityLess| {
      IntegrityLessTrip(b.integrityLess[k]);
    }
    AllEach(b.integrityLess, IntegrityLessJson, DecodeIntegrityLess);
    forall k | 0 <= k < |b.rootMetadata| {
      RootMetadataTrip(b.rootMetadata[k]);
    }
    AllEach(b.rootMetadata, RootMetadataJson, DecodeRootMetadata);
  }

  lemma BodyTrip(b: Body)
    ensures DecodeBody(BodyJson(b)) == Ok(b)
  {
    InputTrip(b.inputIdentity);
    StringsTrip(b.npmPolicyFlags);
    EntriesTrip(b.treeEntries);
    PackagesTrip(b.packages);
    RecordListsTrip(b);
  }

  /** Every envelope is recovered from its JSON value; so the encoding never confuses two of them. */
  lemma EnvelopeTrip(e: Envelope)
    ensures DecodeEnvelope(EnvelopeJson(e)) == Ok(e)
  {
    InputTrip(e.inputIdentity);
    BodyTrip(e.body);
  }
}
