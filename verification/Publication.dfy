/**
  Publication of one output identity as a state machine over the outputs directory, with a failure or a
  crash after any step. A crash keeps some prefix of the directory changes since the last sync of the
  outputs directory, and tears whatever was not synced inside an entry.
 */
module Publication {
  import opened Common
  import opened Evidence
  import opened ContentAddress
  import opened OutputVerification

  /** The entries of the outputs directory that concern this identity. */
  datatype Name = Final | Temp(nonce: nat) | Corrupt(nonce: nat)

  datatype File = Absent | Torn | Whole(json: Json)

  /** One output directory and how much of it would survive a crash. */
  datatype Dir = Dir(
    tree: Option<seq<TreeEntry>>, treeSynced: bool,
    manifest: File, manifestSynced: bool,
    evidence: File, evidenceSynced: bool,
    sealed: bool, entriesSynced: bool)

  const EMPTY := Dir(None, false, Absent, false, Absent, false, false, false)

  predicate Durable(d: Dir) {
    d.treeSynced && d.manifestSynced && d.evidenceSynced && d.entriesSynced
  }

  /** What is published: an envelope with every digest in place, and the tree it describes. */
  datatype Job = Job(hash: Hash, flags: seq<string>, envelope: Envelope, tree: seq<TreeEntry>)

  predicate JobOk(c: Job) {
    Built(c.hash, c.flags, c.envelope) && Matches(c.tree, c.envelope.body.treeEntries)
  }

  function ManifestOf(c: Job): Json {
    ManifestJson(Manifest(c.envelope.body.treeEntries, c.envelope.treeDigest))
  }

  predicate Complete(c: Job, d: Dir) {
    && d.tree == Some(c.tree)
    && d.manifest == Whole(ManifestOf(c))
    && d.evidence == Whole(EnvelopeJson(c.envelope))
    && d.sealed
  }

  function ContentOf(f: File): Content {
    if f.Whole? then Readable(f.json) else Unreadable
  }

  function Found(d: Dir): Output {
    Output(ContentOf(d.evidence), ContentOf(d.manifest), if d.tree.Some? then d.tree.value else [])
  }

  /** `verify_output` on a committed directory. */
  predicate Verifies(c: Job, d: Dir) {
    Verified(c.hash, c.flags, c.envelope.outputIdentity, c.envelope.inputIdentity, Found(d)).Some?
  }

  lemma CompleteVerifies(c: Job, d: Dir)
    requires JobOk(c) && Complete(c, d)
    ensures Verifies(c, d)
  {
    PublishedVerifies(c.hash, c.flags, c.envelope, c.tree);
  }

  // ---------------------------------------------------------------- the steps

  datatype Stage =
    | MoveTree
    | CreateManifest | WriteManifest | SyncManifest
    | CreateEvidence | WriteEvidence | SyncEvidence
    | SyncTree
    | SealDir | SyncDir
    | RenameDir

  datatype Pc =
    | Idle
    | Checking(retry: bool)          // before the existence check of `_atomic_publish`
    | Working(stage: Stage, nonce: nat, dir: nat, retry: bool)
    | Cleaning(nonce: nat, dir: nat, taken: bool, retry: bool)
    | SyncingOutputs                 // renamed; before the sync of the outputs directory
    | Collided(retry: bool)
    | Finished(own: bool)
    | Failed

  datatype State = State(
    names: map<Name, nat>,
    history: seq<map<Name, nat>>,    // what the outputs directory may be after a crash, oldest first
    dirs: map<nat, Dir>,
    next: nat,
    source: bool,                    // the staged tree is still in its place
    pc: Pc)

  /** `junk` is what a cleanup leaves behind; `more` says whether a partial write needs another turn. */
  datatype Event =
    | Begin
    | Go(ok: bool, more: bool, nonce: nat, junk: Dir)
    | Crash(kept: nat, torn: map<nat, Dir>)

  function After(c: Job, stage: Stage, d: Dir, more: bool): Dir {
    match stage
    case MoveTree => d.(tree := Some(c.tree))
    case CreateManifest => d.(manifest := Torn)
    case WriteManifest => if more then d else d.(manifest := Whole(ManifestOf(c)))
    case SyncManifest => d.(manifestSynced := true)
    case CreateEvidence => d.(evidence := Torn)
    case WriteEvidence => if more then d else d.(evidence := Whole(EnvelopeJson(c.envelope)))
    case SyncEvidence => d.(evidenceSynced := true)
    case SyncTree => d.(treeSynced := true)
    case SealDir => d.(sealed := true)
    case SyncDir => d.(entriesSynced := true)
    case RenameDir => d
  }

  function NextStage(stage: Stage, more: bool): Stage {
    match stage
    case MoveTree => CreateManifest
    case CreateManifest => WriteManifest
    case WriteManifest => if more then WriteManifest else SyncManifest
    case SyncManifest => CreateEvidence
    case CreateEvidence => WriteEvidence
    case WriteEvidence => if more then WriteEvidence else SyncEvidence
    case SyncEvidence => SyncTree
    case SyncTree => SealDir
    case SealDir => SyncDir
    case SyncDir => RenameDir
    case RenameDir => RenameDir
  }

  /** A change of the outputs directory, not yet synced. */
  function Renamed(s: State, names: map<Name, nat>): State {
    s.(names := names, history := s.history + [names])
  }

  predicate Shaped(s: State) {
    && s.history != [] && s.history[|s.history| - 1] == s.names
    && (forall n :: n in s.names ==> s.names[n] in s.dirs)
    && (s.pc.Working? || s.pc.Cleaning? ==> s.pc.dir in s.dirs)
  }

  predicate Enabled(s: State, e: Event) {
    match e
    case Begin => s.pc.Idle? || s.pc.Finished? || s.pc.Failed?
    case Go(_, _, _, _) => !s.pc.Idle? && !s.pc.Finished? && !s.pc.Failed?
    case Crash(kept, _) => kept < |s.history|
  }

  function Apply(c: Job, s: State, e: Event): State
    requires Shaped(s) && Enabled(s, e)
  {
    match e
    // A run rebuilds its staging tree before it publishes.
    case Begin => s.(source := true, pc := Checking(false))
    case Go(ok, more, nonce, junk) => Step(c, s, ok, more, nonce, junk)
    case Crash(kept, torn) =>
      s.(names := s.history[kept], history := [s.history[kept]],
         dirs := map d | d in s.dirs :: if Durable(s.dirs[d]) || d !in torn then s.dirs[d] else torn[d],
         source := false, pc := Idle)
  }

  function Step(c: Job, s: State, ok: bool, more: bool, nonce: nat, junk: Dir): State
    requires Shaped(s)
  {
    match s.pc
    case Checking(retry) => Check(s, retry, ok, nonce)
    case Working(stage, n, d, retry) => Work(c, s, stage, n, d, retry, ok, more)
    case Cleaning(n, d, taken, retry) => Clean(s, n, d, taken, retry, ok, junk)
    case SyncingOutputs => if ok then s.(history := [s.names], pc := Finished(true)) else s.(pc := Failed)
    case Collided(retry) => Collide(c, s, retry, ok, more, nonce)
    case _ => s
  }

  /** The existence check and the temporary directory. */
  function Check(s: State, retry: bool, ok: bool, nonce: nat): State {
    if Final in s.names then s.(pc := Collided(retry))
    else if !ok || Temp(nonce) in s.names then s.(pc := Failed)
    else Renamed(s, s.names[Temp(nonce) := s.next]).(
           dirs := s.dirs[s.next := EMPTY], next := s.next + 1, pc := Working(MoveTree, nonce, s.next, retry))
  }

  /** One operation inside the temporary directory, or the rename that commits it. */
  function Work(c: Job, s: State, stage: Stage, n: nat, d: nat, retry: bool, ok: bool, more: bool): State
    requires d in s.dirs
  {
    if !ok || (stage.MoveTree? && !s.source) then s.(pc := Cleaning(n, d, false, retry))
    else if stage.RenameDir? then
      if Final in s.names then s.(pc := Cleaning(n, d, true, retry))
      else Renamed(s, (s.names - {Temp(n)})[Final := d]).(pc := SyncingOutputs)
    else s.(dirs := s.dirs[d := After(c, stage, s.dirs[d], more)],
            source := s.source && !stage.MoveTree?,
            pc := Working(NextStage(stage, more), n, d, retry))
  }

  /** Removing what a failed publication has built, wholly or in part. */
  function Clean(s: State, n: nat, d: nat, taken: bool, retry: bool, ok: bool, junk: Dir): State {
    var left := s.(dirs := s.dirs[d := junk], pc := if taken then Collided(retry) else Failed);
    if ok then Renamed(left, s.names - {Temp(n)}) else left
  }

  /** An output of that identity exists: it is reused, quarantined or left alone. */
  function Collide(c: Job, s: State, retry: bool, ok: bool, more: bool, nonce: nat): State
    requires Shaped(s)
  {
    if retry || Final !in s.names then s.(pc := Failed)
    else if Verifies(c, s.dirs[s.names[Final]]) then s.(pc := Finished(false))
    else if !ok || Corrupt(nonce) in s.names then s.(pc := Failed)
    else
      var moved := Renamed(s, (s.names - {Final})[Corrupt(nonce) := s.names[Final]]).(pc := Checking(true));
      // The sync after a quarantine is best effort.
      if more then moved else moved.(history := [moved.names])
  }

  // ---------------------------------------------------------------- what every step keeps

  /** Outputs found when the first run started: their content is at rest. */
  datatype Start = Start(names: map<Name, nat>, dirs: map<nat, Dir>, next: nat)

  predicate StartOk(z: Start) {
    && (forall n :: n in z.names ==> z.names[n] in z.dirs)
    && (forall d :: d in z.dirs ==> d < z.next && Durable(z.dirs[d]))
  }

  function Init(z: Start): State {
    State(z.names, [z.names], z.dirs, z.next, false, Idle)
  }

  predicate Inherited(z: Start, s: State, d: nat) {
    d in z.dirs && d in s.dirs && s.dirs[d] == z.dirs[d]
  }

  /** Published for good: as it was found, or complete and durable. */
  predicate Settled(c: Job, z: Start, s: State, d: nat) {
    d in s.dirs && Durable(s.dirs[d]) && (Inherited(z, s, d) || Complete(c, s.dirs[d]))
  }

  /** The committed and the quarantined entries of one state of the outputs directory. */
  predicate Committed(n: Name) {
    n.Final? || n.Corrupt?
  }

  predicate NamesOk(c: Job, z: Start, s: State, names: map<Name, nat>) {
    forall n :: n in names ==> names[n] in s.dirs && (Committed(n) ==> Settled(c, z, s, names[n]))
  }

  predicate HistoryOk(c: Job, z: Start, s: State) {
    forall k :: 0 <= k < |s.history| ==> NamesOk(c, z, s, s.history[k])
  }

  /** The directory a publication is filling is nobody else's. */
  predicate Private(s: State, d: nat) {
    forall k, n :: 0 <= k < |s.history| && n in s.history[k] && Committed(n) ==> s.history[k][n] != d
  }

  function Rank(stage: Stage): nat {
    match stage
    case MoveTree => 0
    case CreateManifest => 1
    case WriteManifest => 2
    case SyncManifest => 3
    case CreateEvidence => 4
    case WriteEvidence => 5
    case SyncEvidence => 6
    case SyncTree => 7
    case SealDir => 8
    case SyncDir => 9
    case RenameDir => 10
  }

  /** What the stages before this one have put in place, and made durable. */
  predicate Filled(c: Job, stage: Stage, d: Dir) {
    && (Rank(stage) > 0 ==> d.tree == Some(c.tree))
    && (Rank(stage) > 2 ==> d.manifest == Whole(ManifestOf(c)))
    && (Rank(stage) > 3 ==> d.manifestSynced)
    && (Rank(stage) > 5 ==> d.evidence == Whole(EnvelopeJson(c.envelope)))
    && (Rank(stage) > 6 ==> d.evidenceSynced)
    && (Rank(stage) > 7 ==> d.treeSynced)
    && (Rank(stage) > 8 ==> d.sealed)
    && (Rank(stage) > 9 ==> d.entriesSynced)
  }

  predicate Counted(z: Start, s: State) {
    z.next <= s.next && forall d :: d in s.dirs ==> d < s.next
  }

  predicate PcOk(c: Job, z: Start, s: State) {
    match s.pc
    case Working(stage, _, d, _) => z.next <= d && d in s.dirs && Private(s, d) && Filled(c, stage, s.dirs[d])
    case Cleaning(_, d, _, _) => z.next <= d && d in s.dirs && Private(s, d)
    case SyncingOutputs => Final in s.names && s.names[Final] in s.dirs && Complete(c, s.dirs[s.names[Final]])
    case Finished(own) =>
      && Final in s.names && s.names[Final] in s.dirs
      && (if own then Complete(c, s.dirs[s.names[Final]]) && s.history == [s.names]
          else Verifies(c, s.dirs[s.names[Final]]))
    case _ => true
  }

  predicate Invariant(c: Job, z: Start, s: State) {
    Shaped(s) && Counted(z, s) && HistoryOk(c, z, s) && PcOk(c, z, s)
  }

  lemma InitInvariant(c: Job, z: Start)
    requires StartOk(z)
    ensures Invariant(c, z, Init(z))
  {
    var s := Init(z);
    forall n | n in z.names
      ensures z.names[n] in s.dirs && Settled(c, z, s, z.names[n])
    {
      assert Inherited(z, s, z.names[n]);
    }
    assert NamesOk(c, z, s, s.history[0]);
  }

  /** Filling a private directory leaves every settled one as it is. */
  lemma FillKeepsNames(c: Job, z: Start, s: State, t: State, d: nat, x: Dir, k: nat)
    requires HistoryOk(c, z, s) && Private(s, d) && k < |s.history|
    requires d in s.dirs && t.dirs == s.dirs[d := x]
    ensures NamesOk(c, z, t, s.history[k])
  {
    var names := s.history[k];
    assert NamesOk(c, z, s, names);
    forall n | n in names
      ensures names[n] in t.dirs && (Committed(n) ==> Settled(c, z, t, names[n]))
    {
      if Committed(n) {
        assert names[n] != d;
        assert Settled(c, z, s, names[n]);
      }
    }
  }

  lemma StageFills(c: Job, stage: Stage, d: Dir, more: bool)
    requires Filled(c, stage, d)
    ensures Filled(c, NextStage(stage, more), After(c, stage, d, more))
  {
  }

  lemma FilledIsComplete(c: Job, d: Dir)
    requires Filled(c, RenameDir, d)
    ensures Complete(c, d) && Durable(d)
  {
  }

  /** The same names, read in a state whose settled directories are unchanged. */
  lemma NamesCarry(c: Job, z: Start, s: State, t: State, names: map<Name, nat>)
    requires NamesOk(c, z, s, names)
    requires forall d :: d in s.dirs ==> d in t.dirs && t.dirs[d] == s.dirs[d]
    ensures NamesOk(c, z, t, names)
  {
    forall n | n in names
      ensures names[n] in t.dirs && (Committed(n) ==> Settled(c, z, t, names[n]))
    {
      if Committed(n) {
        assert Settled(c, z, s, names[n]);
      }
    }
  }

  lemma LastNames(c: Job, z: Start, s: State)
    requires Shaped(s) && HistoryOk(c, z, s)
    ensures NamesOk(c, z, s, s.names)
  {
    assert NamesOk(c, z, s, s.history[|s.history| - 1]);
  }

  /** One more change of the outputs directory over unchanged or added directories. */
  lemma HistoryGrows(c: Job, z: Start, s: State, t: State, names: map<Name, nat>)
    requires HistoryOk(c, z, s) && t.history == s.history + [names] && NamesOk(c, z, t, names)
    requires forall d :: d in s.dirs ==> d in t.dirs && t.dirs[d] == s.dirs[d]
    ensures HistoryOk(c, z, t)
  {
    forall k | 0 <= k < |t.history|
      ensures NamesOk(c, z, t, t.history[k])
    {
      if k < |s.history| {
        assert NamesOk(c, z, s, s.history[k]);
        NamesCarry(c, z, s, t, s.history[k]);
      }
    }
  }

  /** A new directory is nobody's yet. */
  lemma NewIsPrivate(c: Job, z: Start, s: State, t: State, d: nat, names: map<Name, nat>)
    requires HistoryOk(c, z, s) && t.history == s.history + [names] && d !in s.dirs
    requires forall n :: n in names && Committed(n) ==> names[n] in s.dirs
    ensures Private(t, d)
  {
    forall k, n | 0 <= k < |t.history| && n in t.history[k] && Committed(n)
      ensures t.history[k][n] != d
    {
      if k < |s.history| {
        assert NamesOk(c, z, s, s.history[k]);
        assert s.history[k][n] in s.dirs;
      }
    }
  }

  lemma CheckKeeps(c: Job, z: Start, s: State, retry: bool, ok: bool, nonce: nat)
    requires Shaped(s) && Counted(z, s) && HistoryOk(c, z, s)
    ensures Invariant(c, z, Check(s, retry, ok, nonce))
  {
    var t := Check(s, retry, ok, nonce);
    if t.pc.Working? {
      NewDirectoryKeeps(c, z, s, t, nonce);
    } else {
      SameHistory(c, z, s, t);
    }
  }

  lemma NewDirectoryKeeps(c: Job, z: Start, s: State, t: State, nonce: nat)
    requires Shaped(s) && Counted(z, s) && HistoryOk(c, z, s)
    requires t.names == s.names[Temp(nonce) := s.next] && t.history == s.history + [t.names]
    requires t.dirs == s.dirs[s.next := EMPTY] && t.next == s.next + 1
    requires t.pc.Working? && t.pc.stage == MoveTree && t.pc.dir == s.next
    ensures Invariant(c, z, t)
  {
    LastNames(c, z, s);
    NamesCarry(c, z, s, t, s.names);
    HistoryGrows(c, z, s, t, t.names);
    NewIsPrivate(c, z, s, t, s.next, t.names);
  }

  lemma SameHistory(c: Job, z: Start, s: State, t: State)
    requires HistoryOk(c, z, s) && t.history == s.history && t.dirs == s.dirs
    ensures HistoryOk(c, z, t)
  {
    forall k | 0 <= k < |t.history|
      ensures NamesOk(c, z, t, t.history[k])
    {
      assert NamesOk(c, z, s, s.history[k]);
      NamesCarry(c, z, s, t, s.history[k]);
    }
  }

  lemma FillKeeps(c: Job, z: Start, s: State, stage: Stage, n: nat, d: nat, retry: bool, more: bool)
    requires Invariant(c, z, s) && s.pc == Working(stage, n, d, retry) && !stage.RenameDir?
    requires stage.MoveTree? ==> s.source
    ensures Invariant(c, z, Work(c, s, stage, n, d, retry, true, more))
  {
    var t := Work(c, s, stage, n, d, retry, true, more);
    forall k | 0 <= k < |t.history|
      ensures NamesOk(c, z, t, t.history[k])
    {
      FillKeepsNames(c, z, s, t, d, t.dirs[d], k);
    }
    StageFills(c, stage, s.dirs[d], more);
  }

  /** The commit: what becomes visible under the identity is complete and durable. */
  lemma RenameKeeps(c: Job, z: Start, s: State, n: nat, d: nat, retry: bool)
    requires Invariant(c, z, s) && s.pc == Working(RenameDir, n, d, retry) && Final !in s.names
    ensures Invariant(c, z, Work(c, s, RenameDir, n, d, retry, true, false))
  {
    var t := Work(c, s, RenameDir, n, d, retry, true, false);
    FilledIsComplete(c, s.dirs[d]);
    LastNames(c, z, s);
    NamesCarry(c, z, s, t, s.names);
    assert Settled(c, z, t, d);
    HistoryGrows(c, z, s, t, t.names);
  }

  lemma CleanKeeps(c: Job, z: Start, s: State, n: nat, d: nat, taken: bool, retry: bool, ok: bool, junk: Dir)
    requires Invariant(c, z, s) && s.pc == Cleaning(n, d, taken, retry)
    ensures Invariant(c, z, Clean(s, n, d, taken, retry, ok, junk))
  {
    var t := Clean(s, n, d, taken, retry, ok, junk);
    LastNames(c, z, s);
    forall k | 0 <= k < |t.history|
      ensures NamesOk(c, z, t, t.history[k])
    {
      FillKeepsNames(c, z, s, t, d, junk, if k < |s.history| then k else |s.history| - 1);
    }
  }

  /** A quarantined directory moves whole: the same content under another name. */
  lemma QuarantineNames(c: Job, z: Start, s: State, t: State, nonce: nat)
    requires NamesOk(c, z, s, s.names) && Final in s.names && t.dirs == s.dirs
    requires t.names == (s.names - {Final})[Corrupt(nonce) := s.names[Final]]
    ensures NamesOk(c, z, t, t.names)
  {
    NamesCarry(c, z, s, t, s.names);
    assert Settled(c, z, t, s.names[Final]);
  }

  lemma QuarantineKeeps(c: Job, z: Start, s: State, t: State, nonce: nat, more: bool)
    requires Shaped(s) && Counted(z, s) && HistoryOk(c, z, s) && Final in s.names
    requires t.dirs == s.dirs && t.next == s.next && t.pc.Checking?
    requires t.names == (s.names - {Final})[Corrupt(nonce) := s.names[Final]]
    requires t.history == if more then s.history + [t.names] else [t.names]
    ensures Invariant(c, z, t)
  {
    LastNames(c, z, s);
    QuarantineNames(c, z, s, t, nonce);
    if more {
      HistoryGrows(c, z, s, t, t.names);
    }
  }

  lemma CollideKeeps(c: Job, z: Start, s: State, retry: bool, ok: bool, more: bool, nonce: nat)
    requires Shaped(s) && Counted(z, s) && HistoryOk(c, z, s)
    ensures Invariant(c, z, Collide(c, s, retry, ok, more, nonce))
  {
    var t := Collide(c, s, retry, ok, more, nonce);
    if t.pc.Checking? {
      QuarantineKeeps(c, z, s, t, nonce, more);
    } else {
      SameHistory(c, z, s, t);
    }
  }

  lemma CrashKeeps(c: Job, z: Start, s: State, kept: nat, torn: map<nat, Dir>)
    requires Invariant(c, z, s) && kept < |s.history|
    ensures Invariant(c, z, Apply(c, s, Crash(kept, torn)))
  {
    var t := Apply(c, s, Crash(kept, torn));
    assert NamesOk(c, z, s, s.history[kept]);
    forall n | n in t.names
      ensures t.names[n] in t.dirs && (Committed(n) ==> Settled(c, z, t, t.names[n]))
    {
      if Committed(n) {
        assert Settled(c, z, s, s.history[kept][n]);
      }
    }
    assert NamesOk(c, z, t, t.history[0]);
  }

  lemma StepKeepsInvariant(c: Job, z: Start, s: State, e: Event)
    requires JobOk(c) && Invariant(c, z, s) && Enabled(s, e)
    ensures Invariant(c, z, Apply(c, s, e))
  {
    match e {
      case Begin => SamePlace(c, z, s, Apply(c, s, e));
      case Crash(kept, torn) => CrashKeeps(c, z, s, kept, torn);
      case Go(ok, more, nonce, junk) =>
        match s.pc {
          case Checking(retry) => CheckKeeps(c, z, s, retry, ok, nonce);
          case Working(stage, n, d, retry) => WorkKeeps(c, z, s, ok, more);
          case Cleaning(n, d, taken, retry) => CleanKeeps(c, z, s, n, d, taken, retry, ok, junk);
          case Collided(retry) => CollideKeeps(c, z, s, retry, ok, more, nonce);
          case SyncingOutputs => SyncKeeps(c, z, s, ok);
          case _ =>
        }
    }
  }

  /** A step that changes neither names nor directories. */
  lemma SamePlace(c: Job, z: Start, s: State, t: State)
    requires Invariant(c, z, s) && t.names == s.names && t.history == s.history && t.dirs == s.dirs && t.next == s.next
    requires PcOk(c, z, t)
    ensures Invariant(c, z, t)
  {
    forall k | 0 <= k < |t.history|
      ensures NamesOk(c, z, t, t.history[k])
    {
      assert NamesOk(c, z, s, s.history[k]);
      NamesCarry(c, z, s, t, s.history[k]);
    }
  }

  lemma SyncKeeps(c: Job, z: Start, s: State, ok: bool)
    requires Invariant(c, z, s) && s.pc.SyncingOutputs?
    ensures Invariant(c, z, Step(c, s, ok, false, 0, EMPTY))
  {
    var t := Step(c, s, ok, false, 0, EMPTY);
    LastNames(c, z, s);
    NamesCarry(c, z, s, t, s.names);
    if !ok {
      SamePlace(c, z, s, t);
    }
  }

  lemma WorkKeeps(c: Job, z: Start, s: State, ok: bool, more: bool)
    requires Invariant(c, z, s) && s.pc.Working?
    ensures Invariant(c, z, Work(c, s, s.pc.stage, s.pc.nonce, s.pc.dir, s.pc.retry, ok, more))
  {
    var t := Work(c, s, s.pc.stage, s.pc.nonce, s.pc.dir, s.pc.retry, ok, more);
    if t.pc.Cleaning? {
      SamePlace(c, z, s, t);
    } else if s.pc.stage.RenameDir? {
      RenameKeeps(c, z, s, s.pc.nonce, s.pc.dir, s.pc.retry);
    } else {
      FillKeeps(c, z, s, s.pc.stage, s.pc.nonce, s.pc.dir, s.pc.retry, more);
    }
  }

  // ---------------------------------------------------------------- every run

  function Run(c: Job, s: State, events: seq<Event>): Outcome<State>
    decreases events
  {
    if events == [] then At(s)
    else if Shaped(s) && Enabled(s, events[0]) then Run(c, Apply(c, s, events[0]), events[1..])
    else Stuck
  }

  ghost predicate Reachable(c: Job, z: Start, s: State) {
    exists events :: Run(c, Init(z), events) == At(s)
  }

  lemma {:induction false} RunKeepsInvariant(c: Job, z: Start, s: State, events: seq<Event>)
    requires JobOk(c) && Invariant(c, z, s)
    ensures Run(c, s, events).At? ==> Invariant(c, z, Run(c, s, events).state)
    decreases events
  {
    if events != [] && Enabled(s, events[0]) {
      StepKeepsInvariant(c, z, s, events[0]);
      RunKeepsInvariant(c, z, Apply(c, s, events[0]), events[1..]);
    }
  }

  lemma ReachableInvariant(c: Job, z: Start, s: State)
    requires JobOk(c) && StartOk(z) && Reachable(c, z, s)
    ensures Invariant(c, z, s)
  {
    var events :| Run(c, Init(z), events) == At(s);
    InitInvariant(c, z);
    RunKeepsInvariant(c, z, Init(z), events);
  }

  /**
    After any failure and any crash, the identity names nothing, or a directory exactly as the first run
    found it, or a sealed, durable and complete output that verifies.
   */
  lemma AbsentOrComplete(c: Job, z: Start, s: State)
    requires JobOk(c) && StartOk(z) && Reachable(c, z, s) && Final in s.names
    ensures var d := s.names[Final];
            && d in s.dirs
            && (Inherited(z, s, d) ||
                (&& s.dirs[d].tree == Some(c.tree) && s.dirs[d].sealed
                 && s.dirs[d].manifest == Whole(ManifestOf(c)) && s.dirs[d].evidence == Whole(EnvelopeJson(c.envelope))
                 && Durable(s.dirs[d]) && Verifies(c, s.dirs[d])))
  {
    ReachableInvariant(c, z, s);
    LastNames(c, z, s);
    var d := s.names[Final];
    assert Settled(c, z, s, d);
    if Complete(c, s.dirs[d]) {
      CompleteVerifies(c, s.dirs[d]);
    }
  }

  /** A committed output is still there, or was moved whole to quarantine because it does not verify. */
  ghost predicate KeptOrQuarantined(c: Job, s: State, t: State) {
    Final in s.names && s.names[Final] in s.dirs ==>
      var d := s.names[Final];
      && d in t.dirs && t.dirs[d] == s.dirs[d]
      && ((Final in t.names && t.names[Final] == d)
          || (!Verifies(c, s.dirs[d]) && exists n: nat :: Corrupt(n) in t.names && t.names[Corrupt(n)] == d))
  }

  lemma OthersKept(s: State, d: nat)
    requires Shaped(s) && Private(s, d)
    ensures Final in s.names ==> s.names[Final] != d
  {
    var last := |s.history| - 1;
    if Final in s.names {
      assert Final in s.history[last] && Committed(Final);
    }
  }

  lemma StepKeepsCommitted(c: Job, z: Start, s: State, ok: bool, more: bool, nonce: nat, junk: Dir)
    requires Shaped(s) && Counted(z, s)
    requires s.pc.Working? || s.pc.Cleaning? ==> Private(s, s.pc.dir)
    ensures KeptOrQuarantined(c, s, Step(c, s, ok, more, nonce, junk))
  {
    match s.pc {
      case Working(_, _, d, _) => OthersKept(s, d);
      case Cleaning(_, d, _, _) => OthersKept(s, d);
      case Collided(retry) => CollideQuarantines(c, s, retry, ok, more, nonce);
      case _ =>
    }
  }

  /** Content under the identity never changes in place, whatever a running publication does. */
  lemma NeverEditedInPlace(c: Job, z: Start, s: State, ok: bool, more: bool, nonce: nat, junk: Dir)
    requires JobOk(c) && StartOk(z) && Reachable(c, z, s) && Enabled(s, Go(ok, more, nonce, junk))
    ensures var after := Run(c, s, [Go(ok, more, nonce, junk)]);
            after.At? && KeptOrQuarantined(c, s, after.state)
  {
    ReachableInvariant(c, z, s);
    OneStep(c, s, Go(ok, more, nonce, junk));
    StepKeepsCommitted(c, z, s, ok, more, nonce, junk);
  }

  lemma CollideQuarantines(c: Job, s: State, retry: bool, ok: bool, more: bool, nonce: nat)
    requires Shaped(s)
    ensures KeptOrQuarantined(c, s, Collide(c, s, retry, ok, more, nonce))
  {
    var t := Collide(c, s, retry, ok, more, nonce);
    if t.pc.Checking? {
      assert Corrupt(nonce) in t.names && t.names[Corrupt(nonce)] == s.names[Final];
    }
  }

  /** A publication that finished with its own output: the output survives every crash. */
  lemma OwnPublicationSurvives(c: Job, z: Start, s: State, kept: nat, torn: map<nat, Dir>)
    requires JobOk(c) && StartOk(z) && Reachable(c, z, s) && s.pc == Finished(true) && kept < |s.history|
    ensures var after := Run(c, s, [Crash(kept, torn)]);
            && after.At? && Final in after.state.names && after.state.names[Final] in after.state.dirs
            && Complete(c, after.state.dirs[after.state.names[Final]])
            && Verifies(c, after.state.dirs[after.state.names[Final]])
  {
    ReachableInvariant(c, z, s);
    OneStep(c, s, Crash(kept, torn));
    LastNames(c, z, s);
    assert Settled(c, z, s, s.names[Final]);
    CompleteVerifies(c, s.dirs[s.names[Final]]);
  }

  /** What a finished publication returns always verifies. */
  lemma FinishedVerifies(c: Job, z: Start, s: State)
    requires JobOk(c) && StartOk(z) && Reachable(c, z, s) && s.pc.Finished?
    ensures Final in s.names && s.names[Final] in s.dirs && Verifies(c, s.dirs[s.names[Final]])
  {
    ReachableInvariant(c, z, s);
    if s.pc.own {
      CompleteVerifies(c, s.dirs[s.names[Final]]);
    }
  }

  // ---------------------------------------------------------------- when the answer survives a crash

  /**
    Whether a sync of the outputs directory has failed and neither a crash nor a sync that succeeded,
    that after a quarantine included, has come since.
   */
  function Pending(c: Job, s: State, e: Event, pending: bool): bool
    requires Shaped(s) && Enabled(s, e)
  {
    match e
    case Begin => pending
    case Crash(_, _) => false
    case Go(ok, more, _, _) =>
      if s.pc.SyncingOutputs? then !ok
      else if s.pc.Collided? && Apply(c, s, e).pc.Checking? && !more then false
      else pending
  }

  /** The same at the end of a run. */
  function Unsynced(c: Job, s: State, events: seq<Event>, pending: bool): bool
    decreases events
  {
    if events == [] then pending
    else if Shaped(s) && Enabled(s, events[0]) then
      Unsynced(c, Apply(c, s, events[0]), events[1..], Pending(c, s, events[0], pending))
    else pending
  }

  /** Every state a crash may go back to binds the identity to the same directory. */
  predicate Bound(s: State) {
    forall k :: 0 <= k < |s.history| && Final in s.names ==>
      Final in s.history[k] && s.history[k][Final] == s.names[Final]
  }

  /** Some state a crash may go back to does not know the identity. */
  predicate Forgettable(s: State) {
    exists k :: 0 <= k < |s.history| && Final !in s.history[k]
  }

  predicate Tracked(s: State, pending: bool) {
    && (pending || s.pc.SyncingOutputs? ==> Forgettable(s))
    && (!pending && !s.pc.SyncingOutputs? ==> Bound(s))
  }

  /** A step that leaves the binding of the identity alone. */
  predicate SameBinding(s: State, t: State) {
    && (t.history == s.history || t.history == s.history + [t.names])
    && (Final in t.names <==> Final in s.names)
    && (Final in s.names ==> t.names[Final] == s.names[Final])
  }

  lemma SameBindingTracks(s: State, t: State, pending: bool)
    requires SameBinding(s, t) && Tracked(s, pending)
    requires !s.pc.SyncingOutputs? && !t.pc.SyncingOutputs?
    ensures Tracked(t, pending)
  {
    if pending {
      var k :| 0 <= k < |s.history| && Final !in s.history[k];
      assert Final !in t.history[k];
    } else {
      forall k | 0 <= k < |t.history| && Final in t.names
        ensures Final in t.history[k] && t.history[k][Final] == t.names[Final]
      {
        assert k < |s.history| ==> Final in s.history[k];
      }
    }
  }

  lemma RenameTracks(s: State, t: State, pending: bool)
    requires Shaped(s) && Final !in s.names && t.history == s.history + [t.names] && t.pc.SyncingOutputs?
    ensures Tracked(t, pending)
  {
    assert Final !in t.history[|s.history| - 1];
  }

  /** The identity is unbound and that change is not synced. */
  lemma MovedTracks(s: State, t: State, pending: bool)
    requires Tracked(s, pending) && !s.pc.SyncingOutputs? && !t.pc.SyncingOutputs?
    requires t.history == s.history + [t.names] && Final !in t.names
    ensures Tracked(t, pending)
  {
    assert Final !in t.history[|s.history|];
  }

  lemma StepTracks(c: Job, s: State, e: Event, pending: bool)
    requires Shaped(s) && Enabled(s, e) && Tracked(s, pending)
    ensures Tracked(Apply(c, s, e), Pending(c, s, e, pending))
  {
    var t := Apply(c, s, e);
    match e {
      case Begin => SameBindingTracks(s, t, pending);
      case Crash(_, _) =>
      case Go(ok, more, nonce, junk) => GoTracks(c, s, ok, more, nonce, junk, pending);
    }
  }

  lemma GoTracks(c: Job, s: State, ok: bool, more: bool, nonce: nat, junk: Dir, pending: bool)
    requires Shaped(s) && Tracked(s, pending) && Enabled(s, Go(ok, more, nonce, junk))
    ensures Tracked(Step(c, s, ok, more, nonce, junk), Pending(c, s, Go(ok, more, nonce, junk), pending))
  {
    var t := Step(c, s, ok, more, nonce, junk);
    match s.pc {
      case Working(_, _, _, _) => WorkTracks(c, s, ok, more, pending);
      case Collided(retry) => CollideTracks(c, s, retry, ok, more, nonce, pending);
      case SyncingOutputs =>
      case _ => SameBindingTracks(s, t, pending);
    }
  }

  lemma WorkTracks(c: Job, s: State, ok: bool, more: bool, pending: bool)
    requires Shaped(s) && Tracked(s, pending) && s.pc.Working?
    ensures Tracked(Work(c, s, s.pc.stage, s.pc.nonce, s.pc.dir, s.pc.retry, ok, more), pending)
  {
    var t := Work(c, s, s.pc.stage, s.pc.nonce, s.pc.dir, s.pc.retry, ok, more);
    if t.pc.SyncingOutputs? {
      RenameTracks(s, t, pending);
    } else {
      SameBindingTracks(s, t, pending);
    }
  }

  lemma CollideTracks(c: Job, s: State, retry: bool, ok: bool, more: bool, nonce: nat, pending: bool)
    requires Shaped(s) && Tracked(s, pending) && s.pc.Collided?
    ensures var t := Collide(c, s, retry, ok, more, nonce); Tracked(t, pending && !(t.pc.Checking? && !more))
  {
    var t := Collide(c, s, retry, ok, more, nonce);
    if !t.pc.Checking? {
      SameBindingTracks(s, t, pending);
    } else if more {
      MovedTracks(s, t, pending);
    }
  }

  lemma {:induction false} RunTracks(c: Job, s: State, events: seq<Event>, pending: bool)
    requires Tracked(s, pending) && Run(c, s, events).At?
    ensures Tracked(Run(c, s, events).state, Unsynced(c, s, events, pending))
    decreases events
  {
    if events != [] {
      StepTracks(c, s, events[0], pending);
      RunTracks(c, Apply(c, s, events[0]), events[1..], Pending(c, s, events[0], pending));
    }
  }

  /** After that crash the identity still names an output that verifies. */
  predicate Survives(c: Job, s: State, kept: nat, torn: map<nat, Dir>) {
    var after := Run(c, s, [Crash(kept, torn)]);
    && after.At? && Final in after.state.names && after.state.names[Final] in after.state.dirs
    && Verifies(c, after.state.dirs[after.state.names[Final]])
  }

  /**
    The answer of a publication that finished, with its own output or a reused one, survives every crash
    exactly when no sync of the outputs directory that failed is still outstanding.
   */
  lemma SurvivesExactlyWhenSynced(c: Job, z: Start, events: seq<Event>, s: State)
    requires JobOk(c) && StartOk(z) && Run(c, Init(z), events) == At(s) && s.pc.Finished?
    ensures (forall kept: nat, torn :: kept < |s.history| ==> Survives(c, s, kept, torn))
            <==> !Unsynced(c, Init(z), events, false)
  {
    ReachableInvariant(c, z, s);
    FinishedVerifies(c, z, s);
    RunTracks(c, Init(z), events, false);
    if Unsynced(c, Init(z), events, false) {
      var kept: nat :| kept < |s.history| && Final !in s.history[kept];
      OneStep(c, s, Crash(kept, map[]));
      assert !Survives(c, s, kept, map[]);
    } else {
      forall kept: nat, torn | kept < |s.history|
        ensures Survives(c, s, kept, torn)
      {
        BoundSurvives(c, z, s, kept, torn);
      }
    }
  }

  lemma BoundSurvives(c: Job, z: Start, s: State, kept: nat, torn: map<nat, Dir>)
    requires Invariant(c, z, s) && Bound(s) && kept < |s.history|
    requires Final in s.names && Verifies(c, s.dirs[s.names[Final]])
    ensures Survives(c, s, kept, torn)
  {
    OneStep(c, s, Crash(kept, torn));
    LastNames(c, z, s);
    assert Settled(c, z, s, s.names[Final]);
  }

  // ---------------------------------------------------------------- reuse re-establishes no durability

  const GO := Go(true, false, 0, EMPTY)
  const STOP := Go(false, false, 0, EMPTY)

  lemma {:induction false} RunAppend(c: Job, s: State, a: seq<Event>, b: seq<Event>)
    requires Run(c, s, a).At?
    ensures Run(c, s, a + b) == Run(c, Run(c, s, a).state, b)
    decreases a
  {
    if a == [] {
      assert a + b == b;
    } else {
      assert (a + b)[1..] == a[1..] + b;
      RunAppend(c, Apply(c, s, a[0]), a[1..], b);
    }
  }

  lemma OneStep(c: Job, s: State, e: Event)
    requires Shaped(s) && Enabled(s, e)
    ensures Run(c, s, [e]) == At(Apply(c, s, e))
  {
    assert [e][1..] == [];
  }

  lemma ReachNext(c: Job, z: Start, s: State, e: Event)
    requires Reachable(c, z, s) && Shaped(s) && Enabled(s, e)
    ensures Reachable(c, z, Apply(c, s, e))
  {
    var events :| Run(c, Init(z), events) == At(s);
    RunAppend(c, Init(z), events, [e]);
    OneStep(c, s, e);
  }

  /** From any stage, undisturbed, to the rename; nothing else changes in the outputs directory. */
  lemma {:induction false} ToRename(c: Job, z: Start, s: State) returns (t: State)
    requires JobOk(c) && StartOk(z) && Reachable(c, z, s)
    requires s.pc.Working? && Final !in s.names && (s.pc.stage.MoveTree? ==> s.source)
    ensures Reachable(c, z, t) && t.pc.SyncingOutputs? && Final in t.names && t.history == s.history + [t.names]
    decreases 10 - Rank(s.pc.stage)
  {
    var u := Advance(c, z, s);
    if s.pc.stage.RenameDir? {
      t := u;
    } else {
      t := ToRename(c, z, u);
    }
  }

  lemma Advance(c: Job, z: Start, s: State) returns (u: State)
    requires JobOk(c) && StartOk(z) && Reachable(c, z, s)
    requires s.pc.Working? && Final !in s.names && (s.pc.stage.MoveTree? ==> s.source)
    ensures Reachable(c, z, u)
    ensures if s.pc.stage.RenameDir? then
              u.pc.SyncingOutputs? && Final in u.names && u.history == s.history + [u.names]
            else
              && u.pc.Working? && u.names == s.names && u.history == s.history && !u.pc.stage.MoveTree?
              && Rank(u.pc.stage) > Rank(s.pc.stage)
  {
    ReachableInvariant(c, z, s);
    GoesOn(c, s);
    ReachNext(c, z, s, GO);
    u := Apply(c, s, GO);
  }

  /** One undisturbed stage. */
  lemma GoesOn(c: Job, s: State)
    requires Shaped(s) && s.pc.Working? && Final !in s.names && (s.pc.stage.MoveTree? ==> s.source)
    ensures Enabled(s, GO)
    ensures var u := Apply(c, s, GO);
            if s.pc.stage.RenameDir? then u.pc.SyncingOutputs? && Final in u.names && u.history == s.history + [u.names]
            else u.pc.Working? && u.names == s.names && u.history == s.history && !u.pc.stage.MoveTree?
                 && Rank(u.pc.stage) > Rank(s.pc.stage)
  {
  }

  const NOTHING := Start(map[], map[], 0)

  lemma Begins(c: Job, s: State) returns (t: State)
    requires JobOk(c) && Reachable(c, NOTHING, s) && (s.pc.Idle? || s.pc.Failed?)
    ensures Reachable(c, NOTHING, t) && t == s.(source := true, pc := Checking(false))
  {
    ReachableInvariant(c, NOTHING, s);
    ReachNext(c, NOTHING, s, Begin);
    t := Apply(c, s, Begin);
  }

  /** A first run up to the sync of the outputs directory, which fails. */
  lemma UnsyncedPublication(c: Job) returns (t: State)
    requires JobOk(c)
    ensures Reachable(c, NOTHING, t) && t.pc.Failed? && Final in t.names
    ensures t.history != [] && t.history[0] == map[]
    ensures t.names[Final] in t.dirs && Complete(c, t.dirs[t.names[Final]])
  {
    var s := Init(NOTHING);
    assert Run(c, s, []) == At(s);
    s := Begins(c, s);
    ReachableInvariant(c, NOTHING, s);
    ReachNext(c, NOTHING, s, GO);
    s := ToRename(c, NOTHING, Apply(c, s, GO));
    ReachableInvariant(c, NOTHING, s);
    ReachNext(c, NOTHING, s, STOP);
    t := Apply(c, s, STOP);
  }

  lemma Reuses(c: Job, s: State) returns (t: State)
    requires JobOk(c) && Reachable(c, NOTHING, s) && s.pc == Checking(false) && Final in s.names
    requires s.names[Final] in s.dirs && Complete(c, s.dirs[s.names[Final]])
    ensures Reachable(c, NOTHING, t) && t == s.(pc := Finished(false))
  {
    ReachableInvariant(c, NOTHING, s);
    ReachNext(c, NOTHING, s, GO);
    var u := Apply(c, s, GO);
    ReachableInvariant(c, NOTHING, u);
    CompleteVerifies(c, u.dirs[u.names[Final]]);
    ReachNext(c, NOTHING, u, GO);
    t := Apply(c, u, GO);
  }

  /** A crash after which the identity names nothing any more. */
  predicate CrashForgets(c: Job, s: State) {
    var after := Run(c, s, [Crash(0, map[])]);
    after.At? && Final !in after.state.names
  }

  /**
    A sync of the outputs directory that fails leaves a complete output whose name a crash can still
    undo. Reusing that output answers with success without syncing again.
   */
  lemma ReuseMayNotBeDurable(c: Job)
    requires JobOk(c)
    ensures exists s :: Reachable(c, NOTHING, s) && s.pc == Finished(false) && CrashForgets(c, s)
  {
    var s := UnsyncedPublication(c);
    s := Begins(c, s);
    s := Reuses(c, s);
    ReachableInvariant(c, NOTHING, s);
    OneStep(c, s, Crash(0, map[]));
    assert CrashForgets(c, s);
  }

  // ---------------------------------------------------------------- what is left behind

  /** A run without a crash in which every cleanup succeeds. */
  predicate Tidy(c: Job, s: State, events: seq<Event>)
    decreases events
  {
    events == [] ||
    (Shaped(s) && Enabled(s, events[0])
     && !events[0].Crash? && (events[0].Go? && s.pc.Cleaning? ==> events[0].ok)
     && Tidy(c, Apply(c, s, events[0]), events[1..]))
  }

  /** The only temporary entry that was not there before is the one in use. */
  ghost predicate TempInv(before: map<Name, nat>, s: State) {
    forall n: nat :: Temp(n) in s.names ==>
      Temp(n) in before || ((s.pc.Working? || s.pc.Cleaning?) && s.pc.nonce == n)
  }

  lemma StepLeavesNoTemp(c: Job, before: map<Name, nat>, s: State, e: Event)
    requires Shaped(s) && Enabled(s, e) && TempInv(before, s)
    requires !e.Crash? && (e.Go? && s.pc.Cleaning? ==> e.ok)
    ensures TempInv(before, Apply(c, s, e))
  {
    match e {
      case Begin =>
      case Go(ok, more, nonce, junk) =>
        match s.pc {
          case Working(stage, n, d, retry) => WorkLeavesNoTemp(c, before, s, stage, n, d, retry, ok, more);
          case Collided(retry) => CollideLeavesNoTemp(c, before, s, retry, ok, more, nonce);
          case _ =>
        }
    }
  }

  lemma WorkLeavesNoTemp(c: Job, before: map<Name, nat>, s: State, stage: Stage, n: nat, d: nat, retry: bool,
                         ok: bool, more: bool)
    requires d in s.dirs && TempInv(before, s) && s.pc == Working(stage, n, d, retry)
    ensures TempInv(before, Work(c, s, stage, n, d, retry, ok, more))
  {
  }

  lemma CollideLeavesNoTemp(c: Job, before: map<Name, nat>, s: State, retry: bool, ok: bool, more: bool, nonce: nat)
    requires Shaped(s) && TempInv(before, s) && s.pc.Collided?
    ensures TempInv(before, Collide(c, s, retry, ok, more, nonce))
  {
  }

  lemma {:induction false} RunLeavesNoTemp(c: Job, before: map<Name, nat>, s: State, events: seq<Event>)
    requires TempInv(before, s) && Run(c, s, events).At? && Tidy(c, s, events)
    ensures TempInv(before, Run(c, s, events).state)
    decreases events
  {
    if events != [] {
      StepLeavesNoTemp(c, before, s, events[0]);
      RunLeavesNoTemp(c, before, Apply(c, s, events[0]), events[1..]);
    }
  }

  /** Where no crash intervenes and cleanups succeed, nothing temporary is left when a publication has ended. */
  lemma NoResidue(c: Job, z: Start, events: seq<Event>, s: State, n: nat)
    requires Run(c, Init(z), events) == At(s) && Tidy(c, Init(z), events)
    requires (s.pc.Finished? || s.pc.Failed?) && Temp(n) in s.names
    ensures Temp(n) in z.names
  {
    RunLeavesNoTemp(c, z.names, Init(z), events);
  }

  // ---------------------------------------------------------------- one quarantine

  /** A publication that has quarantined once and is publishing again. */
  predicate Retrying(pc: Pc) {
    match pc
    case Checking(retry) => retry
    case Working(_, _, _, retry) => retry
    case Cleaning(_, _, _, retry) => retry
    case Collided(retry) => retry
    case SyncingOutputs => true
    case Finished(_) => true
    case Failed => true
    case Idle => false
  }

  ghost predicate SameQuarantine(s: State, t: State) {
    forall n: nat :: Corrupt(n) in t.names <==> Corrupt(n) in s.names
  }

  lemma StepQuarantinesOnce(c: Job, s: State, e: Event)
    requires Shaped(s) && Enabled(s, e) && e.Go? && Retrying(s.pc)
    ensures Retrying(Apply(c, s, e).pc) && SameQuarantine(s, Apply(c, s, e))
  {
  }

  /** After a quarantine the publication goes on without ever moving another output aside. */
  lemma {:induction false} OneQuarantine(c: Job, s: State, events: seq<Event>)
    requires Run(c, s, events).At? && Retrying(s.pc) && forall k :: 0 <= k < |events| ==> events[k].Go?
    ensures SameQuarantine(s, Run(c, s, events).state)
    decreases events
  {
    if events != [] {
      StepQuarantinesOnce(c, s, events[0]);
      OneQuarantine(c, Apply(c, s, events[0]), events[1..]);
    }
  }

  /** A step that quarantines an output is followed by that retry only. */
  lemma QuarantineRetries(c: Job, s: State, e: Event, n: nat)
    requires Shaped(s) && Enabled(s, e) && e.Go? && Corrupt(n) !in s.names && Corrupt(n) in Apply(c, s, e).names
    ensures Retrying(Apply(c, s, e).pc)
  {
  }

  // ---------------------------------------------------------------- names

  /** No name is bound to something else, and what is in quarantine stays there. */
  ghost predicate NotRebound(s: State, t: State) {
    && (forall n :: n in s.names && n in t.names ==> t.names[n] == s.names[n])
    && (forall n: nat :: Corrupt(n) in s.names ==> Corrupt(n) in t.names)
  }

  /** No step of a publication replaces an entry of the outputs directory, nor removes a quarantined one. */
  lemma NamesAreNotRebound(c: Job, s: State, ok: bool, more: bool, nonce: nat, junk: Dir)
    requires Shaped(s)
    ensures NotRebound(s, Step(c, s, ok, more, nonce, junk))
  {
    match s.pc {
      case Working(stage, n, d, retry) => WorkRebindsNothing(c, s, stage, n, d, retry, ok, more);
      case Collided(retry) => CollideRebindsNothing(c, s, retry, ok, more, nonce);
      case _ =>
    }
  }

  lemma WorkRebindsNothing(c: Job, s: State, stage: Stage, n: nat, d: nat, retry: bool, ok: bool, more: bool)
    requires d in s.dirs
    ensures NotRebound(s, Work(c, s, stage, n, d, retry, ok, more))
  {
  }

  lemma CollideRebindsNothing(c: Job, s: State, retry: bool, ok: bool, more: bool, nonce: nat)
    requires Shaped(s)
    ensures NotRebound(s, Collide(c, s, retry, ok, more, nonce))
  {
  }
}
