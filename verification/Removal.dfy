/** `_remove_entry`: recursive removal below an open directory, without following links. */
module Removal {
  import opened Descriptors

  type Path = seq<string>

  datatype Kind = File | Link | Directory

  type Entries = map<Path, Kind>

  predicate Under(p: Path, root: Path) {
    root <= p
  }

  /** Every entry lies in a chain of directories. */
  predicate Tree(entries: Entries) {
    forall p, k :: p in entries && 0 < k < |p| ==> p[..k] in entries && entries[p[..k]] == Directory
  }

  function Below(entries: Entries, root: Path): set<Path> {
    set p | p in entries && Under(p, root)
  }

  /** The names listed in a directory. */
  function NamesIn(entries: Entries, dir: Path): set<string> {
    set p | p in entries && |p| == |dir| + 1 && Under(p, dir) :: p[|dir|]
  }

  /** What a removal below `root` may have done: entries below it are gone, nothing else is touched. */
  predicate RemovedBelow(before: Entries, after: Entries, root: Path) {
    && (forall p :: p in after ==> p in before && after[p] == before[p])
    && (forall p :: p in before && !Under(p, root) ==> p in after)
  }

  predicate Gone(entries: Entries, root: Path) {
    forall p :: p in entries ==> !Under(p, root)
  }

  class Disk {
    var entries: Entries

    constructor (entries: Entries)
      ensures this.entries == entries
    {
      this.entries := entries;
    }

    /** `unlinkat`: one entry that is not a directory; a link goes, its target stays. */
    method Unlink(w: System, path: Path) returns (r: Outcome)
      requires path in entries && entries[path] != Directory
      modifies this, w`failures, w`severes
      ensures entries == if r == Fine then old(entries) - {path} else old(entries)
      ensures w.failures == old(w.failures) + if r == Fine then 0 else 1
    {
      r := w.Any();
      if r == Fine {
        entries := entries - {path};
      }
    }

    /** Opening a child without following links: there is a directory to be opened. */
    method OpenChild(w: System, path: Path) returns (child: OwnedDescriptor?)
      requires w.Valid() && path in entries && entries[path] == Directory
      modifies w
      ensures w.Valid() && OpenedChild(old(w.log), w.log, Kept(child))
      ensures child != null ==>
                && fresh(child) && child.state == Live
                && child.fd !in old(w.Live()) && w.Live() == old(w.Live()) + {child.fd}
      ensures child == null ==> w.Live() == old(w.Live())
      ensures w.failures >= old(w.failures) && (child != null <==> w.failures == old(w.failures))
    {
      child := OpenValidatedChild(w, false);
    }

    /** `rmdirat`: one empty directory. */
    method RemoveDirectory(w: System, path: Path) returns (r: Outcome)
      requires Below(entries, path) == {path} && entries[path] == Directory
      modifies this, w`failures, w`severes
      ensures entries == if r == Fine then old(entries) - {path} else old(entries)
      ensures w.failures == old(w.failures) + if r == Fine then 0 else 1
    {
      r := w.Any();
      if r == Fine {
        entries := entries - {path};
      }
    }
  }

  lemma RemovedTransitive(a: Entries, b: Entries, c: Entries, root: Path, inner: Path)
    requires RemovedBelow(a, b, root) && RemovedBelow(b, c, inner) && Under(inner, root)
    ensures RemovedBelow(a, c, root)
  {
    forall p | p in a && !Under(p, root)
      ensures p in c
    {
      assert !Under(p, inner);
    }
  }

  /** What is left below a directory all of whose listed names are gone is the directory itself. */
  lemma NothingLeft(before: Entries, after: Entries, root: Path)
    requires Tree(before) && (forall p :: p in after ==> p in before)
    requires forall n :: n in NamesIn(before, root) ==> Gone(after, root + [n])
    ensures forall p :: p in after && Under(p, root) ==> p == root
  {
    forall p | p in after && Under(p, root)
      ensures p == root
    {
      if |p| > |root| {
        var k := |root| + 1;
        assert p[..k] == root + [p[|root|]];
        assert p[..k] in before by {
          if k == |p| {
            assert p[..k] == p;
          }
        }
        assert p[..k][|root|] in NamesIn(before, root);
        assert Under(p, root + [p[|root|]]);
      }
    }
  }

  lemma SmallerBelow(before: Entries, now: Entries, root: Path, n: string)
    requires root in before && forall p :: p in now ==> p in before
    ensures Below(now, root + [n]) < Below(before, root)
  {
    forall p | p in Below(now, root + [n])
      ensures p in Below(before, root)
    {
      assert Under(root + [n], root);
    }
    assert root in Below(before, root) && root !in Below(now, root + [n]);
  }

  lemma TreeKept(before: Entries, after: Entries, path: Path)
    requires Tree(before) && after == before - {path}
    requires path in before && before[path] == Directory ==> Below(before, path) == {path}
    ensures Tree(after)
  {
    forall p, k | p in after && 0 < k < |p|
      ensures p[..k] in after && after[p[..k]] == Directory
    {
      assert p[..k] in before && before[p[..k]] == Directory;
      assert p in Below(before, p[..k]) && p != p[..k];
    }
  }

  /**
    Removal of one entry below an open directory. It succeeds exactly when no call failed, and leaves
    nothing of the entry then; a failure may leave any part. Nothing outside is touched in either case, and
    every descriptor opened on the way is closed.
   */
  method RemoveEntry(w: System, disk: Disk, parent: Path, name: string) returns (ok: bool)
    requires w.Valid() && Tree(disk.entries)
    modifies w, disk
    ensures w.Valid() && w.Live() == old(w.Live())
    ensures Tree(disk.entries) && RemovedBelow(old(disk.entries), disk.entries, parent + [name])
    ensures ok ==> Gone(disk.entries, parent + [name])
    ensures w.failures >= old(w.failures) && (ok <==> w.failures == old(w.failures))
    decreases Below(disk.entries, parent + [name])
  {
    var path := parent + [name];
    var stat := w.Any();
    if stat != Fine {
      return false;
    }
    if path !in disk.entries {
      AbsentIsGone(disk.entries, path);
      return true;
    }
    if disk.entries[path] != Directory {
      var unlinked := disk.Unlink(w, path);
      ok := unlinked == Fine;
      if ok {
        LeafGone(old(disk.entries), path);
        TreeKept(old(disk.entries), disk.entries, path);
      }
      return;
    }
    var child := disk.OpenChild(w, path);
    if child == null {
      return false;
    }
    ok := RemoveChildren(w, disk, path);
    var closed := child.Close(w);
    if !ok || closed != Fine {
      return false;
    }
    ghost var before := disk.entries;
    var removed := disk.RemoveDirectory(w, path);
    ok := removed == Fine;
    if ok {
      TreeKept(before, disk.entries, path);
    }
  }

  lemma UnderIs(p: Path, path: Path)
    ensures Under(p, path) ==> |p| >= |path| && p[..|path|] == path && (|p| == |path| ==> p == path)
  {
  }

  lemma AbsentIsGone(entries: Entries, path: Path)
    requires Tree(entries) && path !in entries && path != []
    ensures Gone(entries, path)
  {
    forall p | p in entries
      ensures !Under(p, path)
    {
      UnderIs(p, path);
    }
  }

  lemma LeafGone(entries: Entries, path: Path)
    requires Tree(entries) && path in entries && entries[path] != Directory && path != []
    ensures Gone(entries - {path}, path)
  {
    forall p | p in entries && p != path
      ensures !Under(p, path)
    {
      UnderIs(p, path);
    }
  }

  /** The loop over the listed names of an opened directory, in any order. */
  method RemoveChildren(w: System, disk: Disk, path: Path) returns (ok: bool)
    requires w.Valid() && Tree(disk.entries) && path in disk.entries && path != []
    modifies w, disk
    ensures w.Valid() && w.Live() == old(w.Live())
    ensures Tree(disk.entries) && RemovedBelow(old(disk.entries), disk.entries, path)
    ensures path in disk.entries
    ensures ok ==> forall p :: p in disk.entries && Under(p, path) ==> p == path
    ensures w.failures >= old(w.failures) && (ok <==> w.failures == old(w.failures))
    decreases Below(disk.entries, path), 0
  {
    var listed := w.Any();
    if listed != Fine {
      return false;
    }
    ghost var start := disk.entries;
    var names := NamesIn(disk.entries, path);
    var left := names;
    while left != {}
      invariant left <= names
      invariant w.Valid() && w.Live() == old(w.Live()) && w.failures == old(w.failures)
      invariant Tree(disk.entries) && RemovedBelow(start, disk.entries, path) && path in disk.entries
      invariant forall n :: n in names - left ==> Gone(disk.entries, path + [n])
      decreases |left|
    {
      var n :| n in left;
      ghost var before := disk.entries;
      SmallerBelow(start, before, path, n);
      ok := RemoveEntry(w, disk, path, n);
      RemovedTransitive(start, before, disk.entries, path, path + [n]);
      if !ok {
        return;
      }
      left := left - {n};
    }
    NothingLeft(start, disk.entries, path);
    ok := true;
  }
}
