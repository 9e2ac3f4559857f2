/** Protecting a project file: encrypt it into a new object, then exchange it for a link.

  The object is written through the mounted volume, so creating, writing and removing it
  are the volume's own transactions.  Every step may fail, and other programs may act on
  the project between any two steps.
*/
module Import {
  import opened Optional
  import opened DirectoryMoves
  import opened Metadata
  import opened Storage
  import opened Persistence
  import opened Symlinks
  import opened Unprotect

  /** `created` and `removed` tell what became of a target this import created. */
  datatype ImportResult =
    | Imported(clean: bool)
    | LinkEnsured(linkCreated: bool)
    | ImportFailed(created: bool, removed: bool)

  /** Of everything outside staging and the project, at most the target changed. */
  ghost predicate OnlyTarget(a: Entries, b: Entries, id: string) {
    forall name: Name | !Temporary(name) && !name.Project? && name != ObjectFile(id) :: At(b, name) == At(a, name)
  }

  /** Of everything outside staging, at most the source path and the target changed. */
  ghost predicate ImportTouches(a: Entries, b: Entries, path: Parts, id: string) {
    forall name: Name | !Temporary(name) && name != Project(path) && name != ObjectFile(id) :: At(b, name) == At(a, name)
  }

  lemma TouchesTarget(a: Entries, b: Entries, id: string)
    requires OnlyTouches(a, b, ObjectFile(id))
    ensures forall name: Name | !Temporary(name) && name != ObjectFile(id) :: At(b, name) == At(a, name)
  {
  }

  // ------------------------------------------------------- what becomes of the source

  /** The very file that was read is at its path or in a staging slot. */
  ghost predicate Kept(st: Entries, path: Parts, source: Entry) {
    At(st, Project(path)) == Some(source) || exists slot :: At(st, Staged(slot)) == Some(source)
  }

  /** The target holds its bytes. */
  predicate Holds(st: Entries, id: string, data: Bytes) {
    ObjectFile(id) in st && Encrypts(st[ObjectFile(id)], data)
  }

  /** Since the read at moment `n`, no step of the import takes the file away without the target
      holding its bytes; and if nobody else acts, there is no moment without either. */
  ghost predicate Guarded(trace: seq<Entries>, foreign: set<nat>, quiet: bool, n: nat, path: Parts, id: string, source: Entry, data: Bytes) {
    && (forall k | n <= k < |trace| - 1 && k + 1 !in foreign && Kept(trace[k], path, source) ::
          Kept(trace[k + 1], path, source) || Holds(trace[k + 1], id, data))
    && (quiet ==> forall k | n <= k < |trace| :: Kept(trace[k], path, source) || Holds(trace[k], id, data))
  }

  lemma SameKept(a: Entries, b: Entries, path: Parts, source: Entry)
    requires SameOutsideVault(a, b)
    ensures Kept(a, path, source) <==> Kept(b, path, source)
  {
    assert forall slot :: At(b, Staged(slot)) == At(a, Staged(slot));
  }

  /** Work in the vault leaves the source alone. */
  lemma VaultPhase(early: seq<Entries>, trace: seq<Entries>, foreign: set<nat>, quiet: bool, n: nat,
                   path: Parts, id: string, source: Entry, data: Bytes)
    requires n < |early| && early <= trace && Guarded(early, foreign, quiet, n, path, id, source, data)
    requires OutsideVaultSince(trace, |early|, early[|early| - 1])
    requires quiet ==> Kept(early[|early| - 1], path, source)
    ensures Guarded(trace, foreign, quiet, n, path, id, source, data)
    ensures quiet ==> Kept(trace[|trace| - 1], path, source)
  {
    var last := early[|early| - 1];
    forall k | n <= k < |trace| - 1 && k + 1 !in foreign && Kept(trace[k], path, source)
      ensures Kept(trace[k + 1], path, source) || Holds(trace[k + 1], id, data)
    {
      if k + 1 < |early| {
        assert trace[k] == early[k] && trace[k + 1] == early[k + 1];
      } else {
        SameKept(last, trace[k], path, source);
        SameKept(last, trace[k + 1], path, source);
      }
    }
    forall k | n <= k < |trace| && quiet ensures Kept(trace[k], path, source) || Holds(trace[k], id, data) {
      if k < |early| { assert trace[k] == early[k]; } else { SameKept(last, trace[k], path, source); }
    }
    SameKept(last, trace[|trace| - 1], path, source);
  }

  /** Whatever happens while the target holds the bytes. */
  lemma HeldPhase(early: seq<Entries>, trace: seq<Entries>, foreign: set<nat>, more: set<nat>, quiet: bool, n: nat,
                  path: Parts, id: string, source: Entry, data: Bytes)
    requires n < |early| && early <= trace && Guarded(early, foreign, quiet, n, path, id, source, data) && foreign <= more
    requires forall i | |early| <= i < |trace| :: Holds(trace[i], id, data)
    ensures Guarded(trace, more, quiet, n, path, id, source, data)
  {
    forall k | n <= k < |trace| - 1 && k + 1 !in more && Kept(trace[k], path, source)
      ensures Kept(trace[k + 1], path, source) || Holds(trace[k + 1], id, data)
    {
      if k + 1 < |early| { assert trace[k] == early[k] && trace[k + 1] == early[k + 1]; }
    }
    forall k | n <= k < |trace| && quiet ensures Kept(trace[k], path, source) || Holds(trace[k], id, data) {
      if k < |early| { assert trace[k] == early[k]; }
    }
  }

  /** `openValidatedSource`: a regular file with one name, within the limit. */
  predicate Importable(st: Entries, path: Parts, limit: nat) {
    SoleName(st, Project(path)) && PlainAt(st, path).Some? && |PlainAt(st, path).value| <= limit
  }

  /** `readSourceFile`; `None` is its error. */
  method ReadSourceFile(fs: FileSystem, path: Parts, limit: nat) returns (data: Option<Bytes>)
    ensures data.Some? ==> Importable(fs.entries, path, limit) && PlainAt(fs.entries, path) == data
    ensures !fs.projectFaulty && Importable(fs.entries, path, limit) ==> data.Some?
  {
    var unreadable := fs.Fault(Project(path));
    if unreadable || !SoleName(fs.entries, Project(path)) { return None; }
    data := PlainAt(fs.entries, path);
    if data.Some? && |data.value| > limit { data := None; }
  }

  /** The size the mounted volume reports for an object. */
  method TargetSize(index: MetadataStore, id: string) returns (size: nat)
    modifies index`memory
    ensures index.memory == old(index.memory) || index.memory == index.stored
    ensures size == RecordedMeta(index.memory, ObjectKey(id), 0).size
    ensures ObjectKey(id) in old(index.memory).files ==>
      size == old(index.memory).files[ObjectKey(id)].size && index.memory == old(index.memory)
    ensures !index.faulty ==> size == ShownSize(old(index.memory), index.stored, id)
  {
    if ObjectKey(id) !in index.memory.files { var ok := index.Refresh(); }
    size := RecordedMeta(index.memory, ObjectKey(id), 0).size;
  }

  /** What a completely written target looks like. */
  predicate TargetComplete(st: Entries, index: Index, id: string, data: Bytes, source: Entry) {
    && source.Regular? && ObjectFile(id) in st && Encrypts(st[ObjectFile(id)], data)
    && ObjectKey(id) in index.files && index.files[ObjectKey(id)].size == |data|
    && index.files[ObjectKey(id)].mode == source.mode % 512
    && index.files[ObjectKey(id)].mtime == source.mtime && index.files[ObjectKey(id)].atime == source.mtime
  }

  /** Write, `Sync` and `Close` of the created target.  A failed write is still flushed by
      `Close`, with whatever prefix arrived. */
  method FillTarget(fs: FileSystem, id: string, data: Bytes, mode: nat, limit: nat, nonce: nat, now: int) returns (ok: bool)
    requires fs.Valid() && !Temporary(ObjectFile(id))
    modifies fs`entries, fs`trace, fs`syncs, fs`next, fs`destroyed, fs.index`stored, fs.index`memory
    ensures OtherRowsKept(old(fs.index.stored), fs.index.stored, id)
    ensures fs.Valid() && old(fs.trace) <= fs.trace
    ensures OnlyTouches(old(fs.entries), fs.entries, ObjectFile(id))
    ensures Replaceable(old(fs.entries), ObjectFile(id)) ==> Replaceable(fs.entries, ObjectFile(id))
    ensures ok ==>
      && ObjectFile(id) in fs.entries && Encrypts(fs.entries[ObjectFile(id)], data)
      && ObjectKey(id) in fs.index.memory.files && fs.index.memory.files[ObjectKey(id)].size == |data|
      && fs.index.memory == fs.index.stored
    ensures !fs.vaultFaulty && !fs.index.faulty && |data| <= limit && Replaceable(old(fs.entries), ObjectFile(id)) ==> ok
    ensures OutsideVaultSince(fs.trace, |old(fs.trace)|, old(fs.entries)) && fs.destroyed == old(fs.destroyed)
  {
    ok := false;
    var failed := fs.Fault(ObjectFile(id));
    if failed {
      var cut: int := *;
      var prefix := if 0 <= cut <= |data| then data[..cut] else data;
      var flushed := PersistFile(fs, id, prefix, FileMeta(0, mode, now, now, 0), limit, nonce, now);
      return;
    }
    var synced := PersistFile(fs, id, data, FileMeta(0, mode, now, now, 0), limit, nonce, now);
    failed := fs.Fault(ObjectFile(id));
    ok := synced.Stored? && !failed;
  }

  /** `Chmod` and `Chtimes` of the written target, which has the metadata `meta`. */
  method SetTargetAttributes(index: MetadataStore, id: string, mode: nat, mtime: int, now: int) returns (ok: bool)
    requires ObjectKey(id) in index.memory.files && index.memory == index.stored
    modifies index`stored, index`memory
    ensures OtherRowsKept(old(index.stored), index.stored, id)
    ensures ok ==>
      && index.memory == index.stored && ObjectKey(id) in index.memory.files
      && index.memory.files[ObjectKey(id)].size == old(index.memory).files[ObjectKey(id)].size
      && index.memory.files[ObjectKey(id)].mode == mode % 512 && index.memory.files[ObjectKey(id)].mtime == mtime
      && index.memory.files[ObjectKey(id)].atime == mtime
    ensures !index.faulty ==> ok
  {
    var key := ObjectKey(id);
    ok := SetRecord(index, id, index.memory.files[key].(mode := mode % 512), now);
    if !ok { return; }
    ghost var middle := index.stored;
    ok := SetRecord(index, id, index.memory.files[key].(mtime := mtime, atime := mtime), now);
    OtherRowsOn(old(index.stored), middle, index.stored, id);
  }

  /** `setFileMeta` of an indexed object. */
  method SetRecord(index: MetadataStore, id: string, meta: FileMeta, now: int) returns (ok: bool)
    modifies index`stored, index`memory
    ensures OtherRowsKept(old(index.stored), index.stored, id)
    ensures ok ==>
      && index.memory == index.stored && ObjectKey(id) in index.memory.files
      && var file := index.memory.files[ObjectKey(id)]; file == meta.(mode := meta.mode % 512, inode := file.inode)
    ensures !index.faulty ==> ok
  {
    var op := SetFile(ObjectKey(id), meta, now, 2);
    ok := index.Update(op);
    if ok || index.stored != old(index.stored) {
      forall k { OperationMeans(old(index.stored), op, k); }
    }
  }

  /** Creates the target and writes everything about the source into it. */
  method WriteTarget(fs: FileSystem, id: string, data: Bytes, source: Entry, limit: nat, nonce: nat, now: int)
    returns (created: bool, ok: bool)
    requires fs.Valid() && source.Regular?
    modifies fs`entries, fs`trace, fs`syncs, fs`next, fs`destroyed, fs.index`stored, fs.index`memory
    ensures OtherRowsKept(old(fs.index.stored), fs.index.stored, id)
    ensures fs.Valid() && old(fs.trace) <= fs.trace
    ensures OnlyTouches(old(fs.entries), fs.entries, ObjectFile(id))
    ensures ok ==> created && fs.index.memory == fs.index.stored
    ensures created ==> Replaceable(fs.entries, ObjectFile(id))
    ensures ok ==> TargetComplete(fs.entries, fs.index.stored, id, data, source)
    ensures !fs.vaultFaulty && !fs.index.faulty && |data| <= limit && ObjectFile(id) !in old(fs.entries) ==> ok
    ensures OutsideVaultSince(fs.trace, |old(fs.trace)|, old(fs.entries)) && fs.destroyed == old(fs.destroyed)
  {
    ok := false;
    var made := PersistFile(fs, id, [], FileMeta(0, source.mode % 512, now, now, 0), limit, nonce, now);
    created := made.Stored?;
    if !created { return; }
    ghost var e1 := fs.entries;
    ghost var t1 := fs.trace;
    ok := FillTarget(fs, id, data, source.mode % 512, limit, nonce, now);
    TouchesOn(old(fs.entries), e1, fs.entries, ObjectFile(id));
    OutsideVaultOn(t1, fs.trace, |old(fs.trace)|, old(fs.entries), e1);
    if !ok { return; }
    ok := SetTargetAttributes(fs.index, id, source.mode, source.mtime, now);
  }

  lemma TouchesOn(a: Entries, b: Entries, c: Entries, path: Name)
    requires OnlyTouches(a, b, path) && OnlyTouches(b, c, path)
    ensures OnlyTouches(a, c, path)
  {
    forall name: Name | name != path && !(name.VaultTemp? && name !in a) ensures At(c, name) == At(a, name) {
      assert At(b, name) == At(a, name);
    }
  }


  // ------------------------------------------------------------ the project side

  /** Since moment `n` the link was created here, and later something here was removed. */
  ghost predicate CreatedThenRemoved(trace: seq<Entries>, n: nat, name: Name, link: Entry, e: Entry) {
    exists i, j :: n <= i < j && Steps(trace, i, name, None, Some(link)) && Steps(trace, j, name, Some(e), None)
  }

  /** `EnsureProtectedLink`: an existing entry is not touched, and the call succeeds only if the
      path was a link to the target.  If syncing the new link fails, whatever is at the path
      by then is removed. */
  method EnsureProtectedLink(fs: FileSystem, path: Parts, target: Target) returns (ok: bool, created: bool)
    requires fs.Valid()
    modifies fs`entries, fs`trace, fs`syncs, fs`next, fs`foreign, fs`destroyed
    ensures fs.Valid() && old(fs.trace) <= fs.trace && old(fs.foreign) <= fs.foreign
    ensures forall name: Name | !name.Project? :: At(fs.entries, name) == At(old(fs.entries), name)
    ensures ok ==> exists i :: |old(fs.trace)| <= i < |fs.trace| && At(fs.trace[i], Project(path)) == Some(Symlink(target))
    ensures created ==> ok
    ensures fs.destroyed == old(fs.destroyed) ||
      (&& fs.projectFaulty && !ok && |fs.destroyed| == |old(fs.destroyed)| + 1 && old(fs.destroyed) <= fs.destroyed
       && CreatedThenRemoved(fs.trace, |old(fs.trace)|, Project(path), Symlink(target), fs.destroyed[|old(fs.destroyed)|]))
    ensures !fs.busy ==>
      && (Project(path) in old(fs.entries) ==> fs.entries == old(fs.entries) && !created)
      && (Project(path) !in old(fs.entries) ==> created == ok)
      && (fs.entries == old(fs.entries) || fs.entries == old(fs.entries)[Project(path) := Symlink(target)])
      && (ok ==> At(fs.entries, Project(path)) == Some(Symlink(target)))
      && (!fs.projectFaulty ==>
            (ok <==> Project(path) !in old(fs.entries) || old(fs.entries)[Project(path)] == Symlink(target)))
    ensures old(fs.syncs) <= fs.syncs
    ensures created ==> SyncedSince(fs.syncs, |old(fs.syncs)|, fs.trace, |old(fs.trace)|, Project(path), Symlink(target))
  {
    ok, created := false, false;
    fs.Interfere();
    var unreadable := fs.Fault(Project(path));
    if unreadable { return; }
    if Project(path) in fs.entries {
      ok := fs.entries[Project(path)] == Symlink(target);
      assert fs.trace[|fs.trace| - 1] == fs.entries;
      return;
    }
    ghost var t1 := fs.trace;
    ok := CreateLink(fs, path, target);
    created := ok;
    if ok {
      SyncedLater(fs.syncs, fs.syncs, |old(fs.syncs)|, |old(fs.syncs)|, fs.trace, fs.trace, |old(fs.trace)|, |t1|, Project(path), Symlink(target));
    }
  }

  /** Creates and syncs the link; a failed sync removes it again, by name. */
  method CreateLink(fs: FileSystem, path: Parts, target: Target) returns (ok: bool)
    requires fs.Valid() && Project(path) !in fs.entries
    modifies fs`entries, fs`trace, fs`syncs, fs`next, fs`foreign, fs`destroyed
    ensures fs.Valid() && old(fs.trace) <= fs.trace && old(fs.foreign) <= fs.foreign
    ensures forall name: Name | !name.Project? :: At(fs.entries, name) == At(old(fs.entries), name)
    ensures ok ==> exists i :: |old(fs.trace)| <= i < |fs.trace| && At(fs.trace[i], Project(path)) == Some(Symlink(target))
    ensures fs.destroyed == old(fs.destroyed) ||
      (&& fs.projectFaulty && !ok && |fs.destroyed| == |old(fs.destroyed)| + 1 && old(fs.destroyed) <= fs.destroyed
       && CreatedThenRemoved(fs.trace, |old(fs.trace)|, Project(path), Symlink(target), fs.destroyed[|old(fs.destroyed)|]))
    ensures !fs.busy ==>
      && (fs.entries == old(fs.entries) || fs.entries == old(fs.entries)[Project(path) := Symlink(target)])
      && (ok ==> At(fs.entries, Project(path)) == Some(Symlink(target))) && (!fs.projectFaulty ==> ok)
    ensures old(fs.syncs) <= fs.syncs
    ensures ok ==> SyncedSince(fs.syncs, |old(fs.syncs)|, fs.trace, |old(fs.trace)|, Project(path), Symlink(target))
  {
    ok := false;
    fs.Interfere();
    var r := fs.Create(Project(path), Symlink(target));
    if r != Done { return; }
    ghost var i := |fs.trace| - 1;
    assert Steps(fs.trace, i - 1, Project(path), None, Some(Symlink(target)));
    r := fs.Sync(Project(path));
    ok := r == Done;
    if ok {
      assert fs.trace[i] == fs.entries;
      SyncedNow(fs.syncs, |old(fs.syncs)|, fs.trace, |old(fs.trace)|, Project(path), Symlink(target));
      return;
    }
    RemoveByName(fs, path, i - 1, target);
  }

  method RemoveByName(fs: FileSystem, path: Parts, ghost i: nat, ghost target: Target)
    requires fs.Valid() && Steps(fs.trace, i, Project(path), None, Some(Symlink(target)))
    modifies fs`entries, fs`trace, fs`syncs, fs`next, fs`foreign, fs`destroyed
    ensures fs.Valid() && old(fs.trace) <= fs.trace && old(fs.foreign) <= fs.foreign
    ensures forall name: Name | !name.Project? :: At(fs.entries, name) == At(old(fs.entries), name)
    ensures fs.destroyed == old(fs.destroyed) ||
      (&& |fs.destroyed| == |old(fs.destroyed)| + 1 && old(fs.destroyed) <= fs.destroyed
       && CreatedThenRemoved(fs.trace, i, Project(path), Symlink(target), fs.destroyed[|old(fs.destroyed)|]))
    ensures !fs.busy ==> fs.entries == old(fs.entries) || fs.entries == old(fs.entries) - {Project(path)}
    ensures !fs.busy && !fs.projectFaulty && Project(path) in old(fs.entries) ==>
      fs.entries == old(fs.entries) - {Project(path)} && fs.destroyed == old(fs.destroyed) + [old(fs.entries)[Project(path)]]
    ensures old(fs.syncs) <= fs.syncs
  {
    fs.Interfere();
    ghost var before := fs.entries;
    var removed := fs.Remove(Project(path));
    if removed == Done {
      assert Steps(fs.trace, i, Project(path), None, Some(Symlink(target)));
      assert Steps(fs.trace, |fs.trace| - 2, Project(path), Some(before[Project(path)]), None);
    }
  }

  /** The exception is real.  Others replace the new link by a file of theirs before the removal that
      follows a failed sync, and lose it. */
  method NewcomerIsRemoved() returns (fs: FileSystem, path: Parts, newcomer: Entry)
    ensures fresh(fs) && fs.Valid() && newcomer.Regular? && newcomer.content == Plain([2])
    ensures |fs.destroyed| == 2 && fs.destroyed[1] == newcomer && fs.entries == map[]
  {
    path, newcomer := ["notes"], Regular(0, Plain([2]), 0, 0);
    var index := new MetadataStore(Index(FORMAT_VERSION, map[], map[], map[], map[], map[], false), false);
    fs := new FileSystem(map[], 1, false, false, false, index);
    var made := fs.Create(Project(path), Symlink(ByID([], "new")));
    ghost var trace := fs.trace;
    assert Steps(trace, 0, Project(path), None, Some(Symlink(ByID([], "new"))));
    Overtake(fs, path, newcomer);
    assert Steps(fs.trace, 0, Project(path), None, Some(Symlink(ByID([], "new"))));
    RemoveByName(fs, path, 0, ByID([], "new"));
  }

  /** The source is still there to be imported, and it is not empty. */
  predicate InterruptedEmpty(st: Entries, path: Parts, limit: nat) {
    Importable(st, path, limit) && PlainAt(st, path) != Some([])
  }

  /** `recoverInterruptedEmptyImport`: removes a target recorded as empty when the source was
      seen as a non-empty file, and nothing else. */
  method RecoverInterruptedEmptyImport(fs: FileSystem, path: Parts, id: string, size: nat, limit: nat, now: int)
    returns (ok: bool, recovered: bool)
    requires fs.Valid() && ObjectFile(id) in fs.entries && fs.entries[ObjectFile(id)].Regular?
    modifies fs`entries, fs`trace, fs`syncs, fs`next, fs`foreign, fs`destroyed, fs.index`stored, fs.index`memory
    ensures OtherRowsKept(old(fs.index.stored), fs.index.stored, id)
    ensures fs.Valid() && old(fs.trace) <= fs.trace && old(fs.foreign) <= fs.foreign && fs.destroyed == old(fs.destroyed)
    ensures OnlyTarget(old(fs.entries), fs.entries, id)
    ensures recovered ==> ok && size == 0 && ObjectFile(id) !in fs.entries
    ensures recovered && !fs.busy ==> fs.entries == old(fs.entries) - {ObjectFile(id)}
    ensures recovered ==>
      exists i :: |old(fs.trace)| <= i < |fs.trace| && Importable(fs.trace[i], path, limit) && PlainAt(fs.trace[i], path) != Some([])
    ensures ok && !recovered ==> At(fs.entries, ObjectFile(id)) == At(old(fs.entries), ObjectFile(id))
    ensures size != 0 ==> ok && !recovered && fs.entries == old(fs.entries)
    ensures size == 0 ==> |fs.trace| > |old(fs.trace)|
    ensures size == 0 && fs.Faultless() ==>
      && (recovered <==> InterruptedEmpty(fs.trace[|old(fs.trace)|], path, limit))
      && (ok <==> recovered || Project(path) !in fs.trace[|old(fs.trace)|] || Importable(fs.trace[|old(fs.trace)|], path, limit))
    ensures !fs.busy && size == 0 ==> fs.trace[|old(fs.trace)|] == old(fs.entries)
    ensures !fs.busy ==> forall name: Name | name.Project? :: At(fs.entries, name) == At(old(fs.entries), name)
  {
    if size != 0 { return true, false; }
    fs.Interfere();
    ghost var i := |fs.trace| - 1;
    var waiting := HasContents(fs, path, limit);
    if waiting.None? { return false, false; }
    if !waiting.value { return true, false; }
    assert InterruptedEmpty(fs.trace[i], path, limit);
    recovered := RemoveEmptyTarget(fs, id, now);
    ok := recovered;
  }

  /** Whether the source is there with contents to import, if that can be told. */
  method HasContents(fs: FileSystem, path: Parts, limit: nat) returns (waiting: Option<bool>)
    requires fs.Valid()
    ensures waiting == Some(true) ==> InterruptedEmpty(fs.entries, path, limit)
    ensures waiting == Some(false) ==>
      Project(path) !in fs.entries || (Importable(fs.entries, path, limit) && PlainAt(fs.entries, path) == Some([]))
    ensures waiting == None ==> fs.projectFaulty || (Project(path) in fs.entries && !Importable(fs.entries, path, limit))
  {
    var unreadable := fs.Fault(Project(path));
    if unreadable { return None; }
    if Project(path) !in fs.entries { return Some(false); }
    var data := ReadSourceFile(fs, path, limit);
    waiting := if data.None? then None else Some(data.value != []);
  }

  method RemoveEmptyTarget(fs: FileSystem, id: string, now: int) returns (removed: bool)
    requires fs.Valid() && ObjectFile(id) in fs.entries && fs.entries[ObjectFile(id)].Regular?
    modifies fs`entries, fs`trace, fs`syncs, fs`next, fs`destroyed, fs.index`stored, fs.index`memory
    ensures fs.Valid() && old(fs.trace) <= fs.trace && fs.destroyed == old(fs.destroyed)
    ensures OtherRowsKept(old(fs.index.stored), fs.index.stored, id) && OnlyTarget(old(fs.entries), fs.entries, id)
    ensures removed ==> fs.entries == old(fs.entries) - {ObjectFile(id)}
    ensures !removed ==> forall name: Name | name.Project? :: At(fs.entries, name) == At(old(fs.entries), name)
    ensures fs.Faultless() ==> removed
  {
    var failed := fs.Fault(ObjectFile(id));
    if failed { return false; }
    var result, unlinkFailed, temp := RemoveProtectedFile(fs, id, now);
    TouchesTarget(old(fs.entries), fs.entries, id);
    removed := result.Removed?;
  }

  function SizeOf(c: Content): nat {
    match c
    case Plain(bytes) => |bytes|
    case Sealed(plaintext, _) => |plaintext|
    case Fragment => 0
  }

  /** `sameFileVersion`: everything but the contents. */
  predicate SameFileVersion(expected: Entry, current: Entry) {
    && expected.Regular? && current.Regular? && current.inode == expected.inode
    && SizeOf(current.content) == SizeOf(expected.content) && current.mode == expected.mode && current.mtime == expected.mtime
  }

  /** The path holds a file with the attributes of the source. */
  predicate LooksLike(st: Entries, path: Parts, source: Entry) {
    && Project(path) in st && st[Project(path)].Regular? && source.Regular?
    && st[Project(path)].inode == source.inode && st[Project(path)].mtime == source.mtime && st[Project(path)].mode == source.mode
    && SizeOf(st[Project(path)].content) == SizeOf(source.content)
  }

  ghost predicate LookedLike(trace: seq<Entries>, n: nat, path: Parts, source: Entry) {
    exists i :: n <= i < |trace| && LooksLike(trace[i], path, source)
  }

  lemma LookedLikeLater(trace: seq<Entries>, longer: seq<Entries>, n: nat, path: Parts, source: Entry)
    requires trace <= longer && n < |trace| && LooksLike(trace[|trace| - 1], path, source)
    ensures LookedLike(longer, n, path, source)
  {
    assert LooksLike(longer[|trace| - 1], path, source);
  }

  /** What an import may destroy outside the vault: the very file it read, once the target holds
      its bytes; its own link; or what stood in for its link when it took that away again. */
  ghost predicate Sacrificed(e: Entry, source: Option<Entry>, trace: seq<Entries>, n: nat, path: Parts, link: Entry) {
    || Some(e) == source
    || e == link
    || (exists d :: SwappedOut(trace, n, Project(path), d, link, Some(e)))
    || CreatedThenRemoved(trace, n, Project(path), link, e)
  }

  ghost predicate OnlySacrificed(destroyed: seq<Entry>, k: nat, source: Option<Entry>, trace: seq<Entries>, n: nat, path: Parts, link: Entry) {
    forall i | k <= i < |destroyed| :: Sacrificed(destroyed[i], source, trace, n, path, link)
  }

  lemma SacrificedEarlier(e: Entry, source: Option<Entry>, trace: seq<Entries>, longer: seq<Entries>, m: nat, n: nat, path: Parts, link: Entry)
    requires Sacrificed(e, source, trace, m, path, link) && trace <= longer && n <= m
    ensures Sacrificed(e, source, longer, n, path, link)
  {
    if d :| SwappedOut(trace, m, Project(path), d, link, Some(e)) {
      SwappedOutEarlier(trace, longer, m, n, Project(path), d, link, Some(e));
    }
    if CreatedThenRemoved(trace, m, Project(path), link, e) {
      var i, j :| m <= i < j && Steps(trace, i, Project(path), None, Some(link)) && Steps(trace, j, Project(path), Some(e), None);
      assert Steps(longer, i, Project(path), None, Some(link)) && Steps(longer, j, Project(path), Some(e), None);
    }
  }

  /** `replaceRegularFileWithLink`.  The source is deleted only if it is the very file that was
      read, contents included; anything else that was at the path goes back, or stays staged. */
  method ReplaceWithLink(fs: FileSystem, path: Parts, target: Target, source: Entry)
    returns (result: ExchangeResult, slot: nat, ghost displaced: Option<Entry>)
    requires fs.Valid() && source.Regular?
    modifies fs`entries, fs`trace, fs`syncs, fs`next, fs`foreign, fs`destroyed
    ensures fs.Valid() && old(fs.trace) <= fs.trace && old(fs.foreign) <= fs.foreign
    ensures ConfinedSince(fs.trace, |old(fs.trace)|, old(fs.entries), path, slot, !fs.busy)
    ensures SameApartFrom(old(fs.entries), fs.entries, slot) && slot >= old(fs.next)
    ensures old(fs.destroyed) <= fs.destroyed && |fs.destroyed| <= |old(fs.destroyed)| + 1
    ensures OnlySacrificed(fs.destroyed, |old(fs.destroyed)|, if Kills(result) then Some(source) else None,
                           fs.trace, |old(fs.trace)|, path, Symlink(target))
    ensures Kills(result) ==> displaced == Some(source)
    ensures !result.NotInstalled? ==> LookedLike(fs.trace, |old(fs.trace)|, path, source)
    ensures result.Preserved? ==> displaced.Some? && At(fs.entries, Staged(slot)) == displaced
    ensures !fs.busy ==>
      && SameProjects(old(fs.entries), fs.entries, path)
      && (LinkInstalled(result) ==> At(fs.entries, Project(path)) == Some(Symlink(target)))
      && (!LinkInstalled(result) ==> At(fs.entries, Project(path)) == At(old(fs.entries), Project(path)))
      && (!fs.projectFaulty && At(old(fs.entries), Project(path)) == Some(source) ==> result.Installed?)
  {
    slot, displaced := fs.next, None;
    fs.Interfere();
    var failed := fs.Fault(Project(path));
    if failed || Project(path) !in fs.entries || !SameFileVersion(source, fs.entries[Project(path)]) {
      return NotInstalled, slot, None;
    }
    ghost var t1, e1 := fs.trace, fs.entries;
    ghost var late;
    result, slot, displaced, late := ExchangePathWithSymlink(fs, path, target, ExpectFile(source));
    LookedLikeLater(t1, fs.trace, |old(fs.trace)|, path, source);
    ConfinedOn(t1, fs.trace, |old(fs.trace)|, old(fs.entries), e1, path, slot, !fs.busy);
    if late.Some? {
      SwappedOutEarlier(fs.trace, fs.trace, |t1|, |old(fs.trace)|, Project(path), displaced, Symlink(target), late);
      assert SwappedOut(fs.trace, |old(fs.trace)|, Project(path), displaced, Symlink(target), Some(late.value));
    }
  }

  /** The exchange deleted what it displaced. */
  predicate Kills(r: ExchangeResult) { r.Installed? || r.InstalledUncleanly? }

  /** The deferred rollback of a created target whose link was not installed. */
  method RemoveTarget(fs: FileSystem, id: string, now: int) returns (removed: bool)
    requires fs.Valid()
    modifies fs`entries, fs`trace, fs`syncs, fs`next, fs`destroyed, fs.index`stored, fs.index`memory
    ensures OtherRowsKept(old(fs.index.stored), fs.index.stored, id)
    ensures fs.Valid() && old(fs.trace) <= fs.trace
    ensures OnlyTouches(old(fs.entries), fs.entries, ObjectFile(id))
    ensures OutsideVaultSince(fs.trace, |old(fs.trace)|, old(fs.entries)) && fs.destroyed == old(fs.destroyed)
    ensures removed ==> ObjectFile(id) !in fs.entries
    ensures !removed && Replaceable(old(fs.entries), ObjectFile(id)) ==> fs.vaultFaulty || fs.index.faulty
  {
    var result, unlinkFailed, temp := RemoveProtectedFile(fs, id, now);
    removed := ObjectFile(id) !in fs.entries && !result.Stranded?;
  }

  /** The file that was read, and where. */
  datatype Reading = Reading(at: nat, source: Entry, data: Bytes)

  ghost predicate WasRead(r: Reading, trace: seq<Entries>, path: Parts, limit: nat) {
    && r.at < |trace| && Importable(trace[r.at], path, limit)
    && trace[r.at][Project(path)] == r.source && PlainAt(trace[r.at], path) == Some(r.data)
  }

  /** The link goes in while the target holds the bytes. */
  method LinkTarget(fs: FileSystem, path: Parts, id: string, mount: Parts, source: Entry, data: Bytes, ghost r: Reading, ghost limit: nat)
    returns (result: ExchangeResult)
    requires r.source == source && r.data == data
    requires fs.Valid() && WasRead(r, fs.trace, path, limit) && Holds(fs.entries, id, r.data)
    requires Guarded(fs.trace, fs.foreign, !fs.busy, r.at, path, id, r.source, r.data)
    modifies fs`entries, fs`trace, fs`syncs, fs`next, fs`foreign, fs`destroyed
    ensures fs.Valid() && old(fs.trace) <= fs.trace && old(fs.foreign) <= fs.foreign
    ensures At(fs.entries, ObjectFile(id)) == At(old(fs.entries), ObjectFile(id)) && OnlyTarget(old(fs.entries), fs.entries, id)
    ensures Guarded(fs.trace, fs.foreign, !fs.busy, r.at, path, id, r.source, r.data)
    ensures old(fs.destroyed) <= fs.destroyed
    ensures OnlySacrificed(fs.destroyed, |old(fs.destroyed)|, if Kills(result) then Some(r.source) else None,
                           fs.trace, |old(fs.trace)|, path, Symlink(ByID(mount, id)))
    ensures !fs.busy ==>
      && SameProjects(old(fs.entries), fs.entries, path)
      && (LinkInstalled(result) ==> At(fs.entries, Project(path)) == Some(Symlink(ByID(mount, id))))
      && (!LinkInstalled(result) ==> At(fs.entries, Project(path)) == At(old(fs.entries), Project(path)))
      && (!fs.projectFaulty && At(old(fs.entries), Project(path)) == Some(r.source) ==> result.Installed?)
  {
    var slot;
    ghost var displaced;
    ghost var e1 := fs.entries;
    result, slot, displaced := ReplaceWithLink(fs, path, ByID(mount, id), source);
    forall i | |old(fs.trace)| <= i < |fs.trace| ensures Holds(fs.trace[i], id, r.data) {
      assert SameApartFrom(e1, fs.trace[i], slot);
      assert At(fs.trace[i], ObjectFile(id)) == At(e1, ObjectFile(id));
    }
    HeldPhase(old(fs.trace), fs.trace, old(fs.foreign), fs.foreign, !fs.busy, r.at, path, id, r.source, r.data);
    assert forall name: Name | !Temporary(name) && !name.Project? :: At(fs.entries, name) == At(e1, name);
  }

  /** Creates and fills the target of a file just read. */
  method EncryptReading(fs: FileSystem, path: Parts, id: string, source: Entry, data: Bytes, ghost r: Reading, limit: nat, nonce: nat, now: int)
    returns (created: bool, ok: bool)
    requires r.source == source && r.data == data
    requires fs.Valid() && WasRead(r, fs.trace, path, limit) && r.at == |fs.trace| - 1
    modifies fs`entries, fs`trace, fs`syncs, fs`next, fs`destroyed, fs.index`stored, fs.index`memory
    ensures OtherRowsKept(old(fs.index.stored), fs.index.stored, id)
    ensures fs.Valid() && old(fs.trace) <= fs.trace && fs.destroyed == old(fs.destroyed)
    ensures forall name: Name | !Temporary(name) && name != ObjectFile(id) :: At(fs.entries, name) == At(old(fs.entries), name)
    ensures Guarded(fs.trace, fs.foreign, !fs.busy, r.at, path, id, r.source, r.data)
    ensures ok ==> created && fs.index.memory == fs.index.stored
    ensures ok ==> TargetComplete(fs.entries, fs.index.stored, id, r.data, r.source) && Holds(fs.entries, id, r.data)
    ensures created ==> Replaceable(fs.entries, ObjectFile(id))
    ensures !fs.vaultFaulty && !fs.index.faulty && ObjectFile(id) !in old(fs.entries) ==> ok
  {
    created, ok := WriteTarget(fs, id, data, source, limit, nonce, now);
    TouchesTarget(old(fs.entries), fs.entries, id);
    VaultPhase(old(fs.trace), fs.trace, fs.foreign, !fs.busy, r.at, path, id, r.source, r.data);
  }

  /** The rollback leaves the source alone. */
  method RollBackImport(fs: FileSystem, path: Parts, id: string, ghost r: Reading, now: int) returns (removed: bool)
    requires fs.Valid() && r.at < |fs.trace| && Guarded(fs.trace, fs.foreign, !fs.busy, r.at, path, id, r.source, r.data)
    requires !fs.busy ==> Kept(fs.entries, path, r.source)
    modifies fs`entries, fs`trace, fs`syncs, fs`next, fs`destroyed, fs.index`stored, fs.index`memory
    ensures OtherRowsKept(old(fs.index.stored), fs.index.stored, id)
    ensures fs.Valid() && old(fs.trace) <= fs.trace && fs.destroyed == old(fs.destroyed)
    ensures forall name: Name | !Temporary(name) && name != ObjectFile(id) :: At(fs.entries, name) == At(old(fs.entries), name)
    ensures Guarded(fs.trace, fs.foreign, !fs.busy, r.at, path, id, r.source, r.data)
    ensures removed ==> ObjectFile(id) !in fs.entries
    ensures !removed && Replaceable(old(fs.entries), ObjectFile(id)) ==> fs.vaultFaulty || fs.index.faulty
  {
    removed := RemoveTarget(fs, id, now);
    TouchesTarget(old(fs.entries), fs.entries, id);
    VaultPhase(old(fs.trace), fs.trace, fs.foreign, !fs.busy, r.at, path, id, r.source, r.data);
  }

  /** The part of `importFile` that runs when there is no target yet, from the read on. */
  method ImportReading(fs: FileSystem, path: Parts, id: string, mount: Parts, source: Entry, data: Bytes, ghost r: Reading, limit: nat, nonce: nat, now: int)
    returns (result: ImportResult)
    requires r.source == source && r.data == data
    requires fs.Valid() && WasRead(r, fs.trace, path, limit) && r.at == |fs.trace| - 1
    modifies fs`entries, fs`trace, fs`syncs, fs`next, fs`foreign, fs`destroyed, fs.index`stored, fs.index`memory
    ensures OtherRowsKept(old(fs.index.stored), fs.index.stored, id)
    ensures fs.Valid() && old(fs.trace) <= fs.trace && old(fs.foreign) <= fs.foreign && !result.LinkEnsured?
    ensures OnlyTarget(old(fs.entries), fs.entries, id)
    ensures Guarded(fs.trace, fs.foreign, !fs.busy, r.at, path, id, r.source, r.data)
    ensures old(fs.destroyed) <= fs.destroyed
    ensures OnlySacrificed(fs.destroyed, |old(fs.destroyed)|, if result.Imported? then Some(r.source) else None,
                           fs.trace, |old(fs.trace)|, path, Symlink(ByID(mount, id)))
    ensures result.Imported? ==>
      TargetComplete(fs.entries, fs.index.stored, id, r.data, r.source) && fs.index.memory == fs.index.stored
    ensures result.ImportFailed? && result.created ==>
      if result.removed then ObjectFile(id) !in fs.entries else fs.vaultFaulty || fs.index.faulty
    ensures !fs.busy ==>
      && ImportTouches(old(fs.entries), fs.entries, path, id)
      && At(fs.entries, Project(path)) == Some(if result.Imported? then Symlink(ByID(mount, id)) else r.source)
      && (fs.Faultless() && ObjectFile(id) !in old(fs.entries) ==> result == Imported(true))
  {
    var created, ok := EncryptReading(fs, path, id, source, data, r, limit, nonce, now);
    ghost var t1, e1 := fs.trace, fs.entries;
    var exchanged := NotInstalled;
    if ok { exchanged := LinkTarget(fs, path, id, mount, source, data, r, limit); }
    SacrificesEarlier(fs.destroyed, |old(fs.destroyed)|, if Kills(exchanged) then Some(r.source) else None, fs.trace, fs.trace,
                      |t1|, |old(fs.trace)|, path, Symlink(ByID(mount, id)));
    if LinkInstalled(exchanged) { return Imported(exchanged.Installed?); }
    if !created { return ImportFailed(false, false); }
    ghost var t2, e2 := fs.trace, fs.entries;
    var removed := RollBackImport(fs, path, id, r, now);
    SacrificesEarlier(fs.destroyed, |old(fs.destroyed)|, None, t2, fs.trace, |old(fs.trace)|, |old(fs.trace)|, path, Symlink(ByID(mount, id)));
    result := ImportFailed(true, removed);
  }

  lemma SacrificesEarlier(destroyed: seq<Entry>, k: nat, source: Option<Entry>, trace: seq<Entries>, longer: seq<Entries>,
                          m: nat, n: nat, path: Parts, link: Entry)
    requires trace <= longer && n <= m && OnlySacrificed(destroyed, k, source, trace, m, path, link)
    ensures OnlySacrificed(destroyed, k, source, longer, n, path, link)
  {
    forall i | k <= i < |destroyed| ensures Sacrificed(destroyed[i], source, longer, n, path, link) {
      SacrificedEarlier(destroyed[i], source, trace, longer, m, n, path, link);
    }
  }

  /** The part of `importFile` that runs when there is no target yet. */
  method ImportNew(fs: FileSystem, path: Parts, id: string, mount: Parts, limit: nat, nonce: nat, now: int)
    returns (result: ImportResult, ghost read: Option<Reading>)
    requires fs.Valid()
    modifies fs`entries, fs`trace, fs`syncs, fs`next, fs`foreign, fs`destroyed, fs.index`stored, fs.index`memory
    ensures OtherRowsKept(old(fs.index.stored), fs.index.stored, id)
    ensures fs.Valid() && old(fs.trace) <= fs.trace && old(fs.foreign) <= fs.foreign && !result.LinkEnsured?
    ensures OnlyTarget(old(fs.entries), fs.entries, id) && old(fs.destroyed) <= fs.destroyed
    ensures read.Some? ==>
      && |old(fs.trace)| <= read.value.at && WasRead(read.value, fs.trace, path, limit)
      && Guarded(fs.trace, fs.foreign, !fs.busy, read.value.at, path, id, read.value.source, read.value.data)
    ensures OnlySacrificed(fs.destroyed, |old(fs.destroyed)|, if result.Imported? && read.Some? then Some(read.value.source) else None,
                           fs.trace, |old(fs.trace)|, path, Symlink(ByID(mount, id)))
    ensures read.None? ==> result == ImportFailed(false, false)
    ensures !fs.busy && read.Some? ==> Importable(old(fs.entries), path, limit)
    ensures result.Imported? ==>
      && read.Some? && TargetComplete(fs.entries, fs.index.stored, id, read.value.data, read.value.source)
      && fs.index.memory == fs.index.stored
    ensures result.ImportFailed? && result.created ==>
      if result.removed then ObjectFile(id) !in fs.entries else fs.vaultFaulty || fs.index.faulty
    ensures !fs.busy ==>
      && ImportTouches(old(fs.entries), fs.entries, path, id)
      && (read.Some? ==> At(old(fs.entries), Project(path)) == Some(read.value.source)
                         && PlainAt(old(fs.entries), path) == Some(read.value.data))
      && At(fs.entries, Project(path)) ==
         (if result.Imported? then Some(Symlink(ByID(mount, id))) else At(old(fs.entries), Project(path)))
      && (fs.Faultless() && ObjectFile(id) !in old(fs.entries) && Importable(old(fs.entries), path, limit)
          ==> result == Imported(true))
  {
    read := None;
    fs.Interfere();
    var data := ReadSourceFile(fs, path, limit);
    if data.None? { return ImportFailed(false, false), None; }
    var source := fs.entries[Project(path)];
    ghost var r := Reading(|fs.trace| - 1, source, data.value);
    ghost var t1 := fs.trace;
    result := ImportReading(fs, path, id, mount, source, data.value, r, limit, nonce, now);
    SacrificesEarlier(fs.destroyed, |old(fs.destroyed)|, if result.Imported? then Some(source) else None, fs.trace, fs.trace,
                      |t1|, |old(fs.trace)|, path, Symlink(ByID(mount, id)));
    read := Some(r);
  }

  function RecordedSize(index: Index, id: string): nat {
    if ObjectKey(id) in index.files then index.files[ObjectKey(id)].size else 0
  }

  /** The size the volume shows for the object: what its copy of the index says, or else the index. */
  function ShownSize(memory: Index, stored: Index, id: string): nat {
    if ObjectKey(id) in memory.files then memory.files[ObjectKey(id)].size else RecordedSize(stored, id)
  }

  /** What an import must come to if nothing fails and nobody else acts: a missing target, or one that an
      interrupted import left empty, is created from the source; any other only gets its link,
      and never in the place of something else. */
  function Expected(st: Entries, shown: nat, path: Parts, id: string, mount: Parts, limit: nat): ImportResult {
    if ObjectFile(id) in st && !st[ObjectFile(id)].Regular? then ImportFailed(false, false)
    else if ObjectFile(id) !in st || (shown == 0 && InterruptedEmpty(st, path, limit)) then
      if Importable(st, path, limit) then Imported(true) else ImportFailed(false, false)
    else if Project(path) !in st then LinkEnsured(true)
    else if st[Project(path)] == Symlink(ByID(mount, id)) && shown != 0 then LinkEnsured(false)
    else ImportFailed(false, false)
  }

  /** `importFile`, with any step failing and others acting on the project between any two.

      - From the read on, no step of the import takes the file away unless the target holds its
        bytes; without interference there is no moment at which neither is so.
      - Outside the vault it destroys nothing but the very file it read, and that only if it
        reports success; its own link; or what replaced its link before it was taken back.
      - A stored object is only ever replaced when it was recorded as empty. */
  method ImportFile(fs: FileSystem, path: Parts, id: string, mount: Parts, limit: nat, nonce: nat, now: int)
    returns (result: ImportResult, ghost read: Option<Reading>)
    requires fs.Valid()
    modifies fs`entries, fs`trace, fs`syncs, fs`next, fs`foreign, fs`destroyed, fs.index`stored, fs.index`memory
    ensures OtherRowsKept(old(fs.index.stored), fs.index.stored, id)
    ensures fs.Valid() && old(fs.trace) <= fs.trace && old(fs.foreign) <= fs.foreign
    ensures OnlyTarget(old(fs.entries), fs.entries, id) && old(fs.destroyed) <= fs.destroyed
    ensures read.Some? ==>
      && |old(fs.trace)| <= read.value.at && WasRead(read.value, fs.trace, path, limit)
      && Guarded(fs.trace, fs.foreign, !fs.busy, read.value.at, path, id, read.value.source, read.value.data)
    ensures OnlySacrificed(fs.destroyed, |old(fs.destroyed)|, if result.Imported? && read.Some? then Some(read.value.source) else None,
                           fs.trace, |old(fs.trace)|, path, Symlink(ByID(mount, id)))
    ensures result.Imported? ==>
      && read.Some? && TargetComplete(fs.entries, fs.index.stored, id, read.value.data, read.value.source)
      && fs.index.memory == fs.index.stored
    ensures result.ImportFailed? && result.created ==>
      if result.removed then ObjectFile(id) !in fs.entries else fs.vaultFaulty || fs.index.faulty
    ensures result.LinkEnsured? ==> At(fs.entries, ObjectFile(id)) == At(old(fs.entries), ObjectFile(id)) && read.None?
    ensures ObjectFile(id) in old(fs.entries) && RecordedSize(old(fs.index.memory), id) > 0 ==>
      At(fs.entries, ObjectFile(id)) == At(old(fs.entries), ObjectFile(id)) && !result.Imported?
    ensures !fs.busy ==>
      && ImportTouches(old(fs.entries), fs.entries, path, id)
      && (read.Some? ==> At(old(fs.entries), Project(path)) == Some(read.value.source)
                         && PlainAt(old(fs.entries), path) == Some(read.value.data))
      && (result.Imported? || result.LinkEnsured? ==> At(fs.entries, Project(path)) == Some(Symlink(ByID(mount, id))))
      && (!result.Imported? && Project(path) in old(fs.entries) ==>
            At(fs.entries, Project(path)) == At(old(fs.entries), Project(path)))
      && (fs.Faultless() ==>
            result == Expected(old(fs.entries), ShownSize(old(fs.index.memory), old(fs.index.stored), id), path, id, mount, limit))
  {
    read := None;
    var failed := fs.Fault(ObjectFile(id));
    if failed { return ImportFailed(false, false), None; }
    if ObjectFile(id) in fs.entries {
      if !fs.entries[ObjectFile(id)].Regular? { return ImportFailed(false, false), None; }
      var done;
      done, result := HandleExistingTarget(fs, path, id, mount, limit, now);
      if done { return result, None; }
    }
    ghost var t1, e1 := fs.trace, fs.entries;
    result, read := ImportNew(fs, path, id, mount, limit, nonce, now);
    SacrificesEarlier(fs.destroyed, |old(fs.destroyed)|, if result.Imported? && read.Some? then Some(read.value.source) else None,
                      fs.trace, fs.trace, |t1|, |old(fs.trace)|, path, Symlink(ByID(mount, id)));
    SameSource(old(fs.entries), e1, path);
  }

  /** There is a target: an interrupted empty import is undone and started over, anything else
      only gets its link. */
  method HandleExistingTarget(fs: FileSystem, path: Parts, id: string, mount: Parts, limit: nat, now: int)
    returns (done: bool, result: ImportResult)
    requires fs.Valid() && ObjectFile(id) in fs.entries && fs.entries[ObjectFile(id)].Regular?
    modifies fs`entries, fs`trace, fs`syncs, fs`next, fs`foreign, fs`destroyed, fs.index`stored, fs.index`memory
    ensures OtherRowsKept(old(fs.index.stored), fs.index.stored, id)
    ensures fs.Valid() && old(fs.trace) <= fs.trace && old(fs.foreign) <= fs.foreign
    ensures OnlyTarget(old(fs.entries), fs.entries, id) && old(fs.destroyed) <= fs.destroyed
    ensures !result.Imported? && (result.ImportFailed? ==> !result.created)
    ensures OnlySacrificed(fs.destroyed, |old(fs.destroyed)|, None, fs.trace, |old(fs.trace)|, path, Symlink(ByID(mount, id)))
    ensures !done ==> fs.destroyed == old(fs.destroyed) && ObjectFile(id) !in fs.entries
    ensures !done && !fs.busy ==> fs.entries == old(fs.entries) - {ObjectFile(id)}
    ensures result.LinkEnsured? ==> At(fs.entries, ObjectFile(id)) == At(old(fs.entries), ObjectFile(id))
    ensures RecordedSize(old(fs.index.memory), id) > 0 ==>
      done && At(fs.entries, ObjectFile(id)) == At(old(fs.entries), ObjectFile(id))
    ensures !fs.busy ==>
      && ImportTouches(old(fs.entries), fs.entries, path, id)
      && (result.LinkEnsured? ==> At(fs.entries, Project(path)) == Some(Symlink(ByID(mount, id))))
      && (fs.Faultless() ==>
            var shown := ShownSize(old(fs.index.memory), old(fs.index.stored), id);
            && (done <==> !(shown == 0 && InterruptedEmpty(old(fs.entries), path, limit)))
            && (done ==> result == Expected(old(fs.entries), shown, path, id, mount, limit)))
      && (Project(path) in old(fs.entries) || !done ==> At(fs.entries, Project(path)) == At(old(fs.entries), Project(path)))
  {
    result := ImportFailed(false, false);
    var size := TargetSize(fs.index, id);
    var ok, recovered := RecoverInterruptedEmptyImport(fs, path, id, size, limit, now);
    if !ok { return true, result; }
    if recovered { return false, result; }
    ghost var t1, e1 := fs.trace, fs.entries;
    var linked, created := EnsureProtectedLink(fs, path, ByID(mount, id));
    RemovedLinkIsSacrificed(fs.destroyed, |old(fs.destroyed)|, fs.trace, |t1|, |old(fs.trace)|, path, Symlink(ByID(mount, id)));
    done, result := true, if linked then LinkEnsured(created) else ImportFailed(false, false);
  }

  lemma RemovedLinkIsSacrificed(destroyed: seq<Entry>, k: nat, trace: seq<Entries>, m: nat, n: nat, path: Parts, link: Entry)
    requires n <= m && k <= |destroyed| <= k + 1
    requires |destroyed| == k + 1 ==> CreatedThenRemoved(trace, m, Project(path), link, destroyed[k])
    ensures OnlySacrificed(destroyed, k, None, trace, n, path, link)
  {
    if |destroyed| == k + 1 { SacrificedEarlier(destroyed[k], None, trace, trace, m, n, path, link); }
  }

  lemma SameSource(a: Entries, b: Entries, path: Parts)
    ensures At(b, Project(path)) == At(a, Project(path)) ==> PlainAt(b, path) == PlainAt(a, path)
  {
  }

  /** Fault-free import followed by unprotecting is the identity on the file's bytes,
      permission bits and time, and leaves no object behind. */
  method ImportThenUnprotect(fs: FileSystem, path: Parts, id: string, mount: Parts, limit: nat, nonce: nat, now: int)
    requires fs.Valid() && !fs.busy && fs.Faultless()
    requires ObjectFile(id) !in fs.entries && Importable(fs.entries, path, limit)
    modifies fs`entries, fs`trace, fs`syncs, fs`next, fs`foreign, fs`destroyed, fs.index`stored, fs.index`memory
    ensures PlainAt(fs.entries, path) == PlainAt(old(fs.entries), path)
    ensures fs.entries[Project(path)].mode == old(fs.entries)[Project(path)].mode % 512
    ensures fs.entries[Project(path)].mtime == TimeOf(old(fs.entries)[Project(path)].mtime, now)
    ensures ObjectFile(id) !in fs.entries && Unrecorded(old(fs.index.stored), fs.index.stored, id)
    ensures ImportTouches(old(fs.entries), fs.entries, path, id)
  {
    var imported;
    ghost var read;
    imported, read := ImportFile(fs, path, id, mount, limit, nonce, now);
    ghost var m1 := fs.index.stored;
    UnprotectImported(fs, Record(id, path), limit, now);
    OtherRowsOn(old(fs.index.stored), m1, fs.index.stored, id);
  }

  /** The way back from a linked and recorded object. */
  method UnprotectImported(fs: FileSystem, r: Record, limit: nat, now: int)
    requires fs.Valid() && !fs.busy && fs.Faultless() && LinkAt(fs.entries, r) && ObjectKey(r.id) in fs.index.memory.files
    requires StoredAt(fs.entries, r.id).Some? && |StoredAt(fs.entries, r.id).value| <= limit
    modifies fs`entries, fs`trace, fs`syncs, fs`next, fs`destroyed, fs.index`stored, fs.index`memory
    ensures PlainAt(fs.entries, r.path) == StoredAt(old(fs.entries), r.id)
    ensures fs.entries[Project(r.path)].mode == old(fs.index.memory).files[ObjectKey(r.id)].mode % 512
    ensures fs.entries[Project(r.path)].mtime == TimeOf(old(fs.index.memory).files[ObjectKey(r.id)].mtime, now)
    ensures ObjectFile(r.id) !in fs.entries && Unrecorded(old(fs.index.stored), fs.index.stored, r.id)
    ensures ImportTouches(old(fs.entries), fs.entries, r.path, r.id)
  {
    var result := UnprotectFile(fs, r, limit, now);
  }
}
