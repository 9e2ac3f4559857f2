/** Storing and removing object ciphertexts as transactions over fallible steps. */
module Persistence {
  import opened Optional
  import opened DirectoryMoves
  import opened Metadata
  import opened Storage

  /** How `persistFile` ended.  The source reports all but `Stored` as an error. */
  datatype PersistResult =
    | Stored            // new contents and metadata recorded
    | Rejected          // failed before the object path was touched
    | RolledBack        // installed, then undone
    | RollbackFailed    // installed, and the undo failed
    | StoredUncleanly   // recorded, but cleaning up afterwards failed

  predicate Encrypts(e: Entry, data: Bytes) {
    e.Regular? && e.content.Sealed? && e.content.plaintext == data
  }

  function At(st: Entries, name: Name): Option<Entry> {
    if name in st then Some(st[name]) else None
  }

  ghost predicate OtherRowsKept(a: Index, b: Index, id: string) {
    forall k | k != ObjectKey(id) :: RowOf(b, k) == RowOf(a, k)
  }

  lemma OtherRowsOn(a: Index, b: Index, c: Index, id: string)
    requires OtherRowsKept(a, b, id) && OtherRowsKept(b, c, id)
    ensures OtherRowsKept(a, c, id)
  {
    forall k | k != ObjectKey(id) ensures RowOf(c, k) == RowOf(a, k) { assert RowOf(b, k) == RowOf(a, k); }
  }

  /** Recording `meta` for the object and the new size changed nothing else about it, but that a new and
      unlinked object is marked; and nothing about any other object. */
  ghost predicate Recorded(a: Index, b: Index, id: string, size: nat, meta: FileMeta, now: int) {
    && OtherRowsKept(a, b, id)
    && RecordedRow(RowOf(a, ObjectKey(id)), RowOf(b, ObjectKey(id)), size, meta, now)
  }

  predicate RecordedRow(was: Row, row: Row, size: nat, meta: FileMeta, now: int) {
    && row.file.Some? && row.link == was.link && row.recovery == was.recovery && row.legacy == was.legacy
    && row.mark == (if NewAndUnlinked(was) then Some(now) else was.mark)
    && var file := row.file.value;
    && file.size == size && file.mode == meta.mode % 512 && file.atime == meta.atime
    && file.mtime == (if meta.mtime == 0 then now else meta.mtime)
    && file.inode >= 2 && (meta.inode >= 2 ==> file.inode == meta.inode)
    && (meta.inode < 2 && was.file.Some? && was.file.value.inode >= 2 ==> file.inode == was.file.value.inode)
  }

  /** An unrecorded time is the current one. */
  function TimeOf(mtime: int, now: int): int { if mtime == 0 then now else mtime }

  lemma SetFileRecords(a: Index, b: Index, id: string, size: nat, meta: FileMeta, now: int, freshInode: nat)
    requires Apply(a, SetFile(ObjectKey(id), meta.(size := size, mtime := TimeOf(meta.mtime, now)), now, freshInode)) == Some(b)
    requires freshInode >= 2
    ensures Recorded(a, b, id, size, meta, now)
  {
    var op := SetFile(ObjectKey(id), meta.(size := size, mtime := TimeOf(meta.mtime, now)), now, freshInode);
    forall k { OperationMeans(a, op, k); }
  }

  predicate Replaceable(st: Entries, path: Name) { path in st ==> st[path].Regular? }

  /** The object path is as before or holds the complete new ciphertext. */
  predicate OldOrNew(st: Entries, path: Name, before: Option<Entry>, data: Bytes) {
    At(st, path) == before || (path in st && Encrypts(st[path], data))
  }

  ghost predicate OldOrNewSince(trace: seq<Entries>, n: nat, path: Name, before: Option<Entry>, data: Bytes) {
    forall i | n <= i < |trace| :: OldOrNew(trace[i], path, before, data)
  }

  /** Nothing but the object path changed, up to new vault temporaries. */
  ghost predicate OnlyTouches(a: Entries, b: Entries, path: Name) {
    forall name: Name | name != path && !(name.VaultTemp? && name !in a) :: At(b, name) == At(a, name)
  }

  ghost predicate SameOutsideVault(a: Entries, b: Entries) {
    forall name: Name | !InVault(name) :: At(b, name) == At(a, name)
  }

  /** Nothing outside the vault changed at any moment. */
  ghost predicate OutsideVaultSince(trace: seq<Entries>, n: nat, a: Entries) {
    forall i | n <= i < |trace| :: SameOutsideVault(a, trace[i])
  }

  /** `CreateTemp` and the encrypted write; the result is complete or not handed out. */
  method StageCiphertext(fs: FileSystem, data: Bytes, nonce: nat, ghost path: Name) returns (r: Outcome, temp: Name)
    requires fs.Valid() && path.ObjectFile?
    modifies fs`entries, fs`trace, fs`syncs, fs`next, fs`destroyed
    ensures fs.Valid() && |fs.trace| >= |old(fs.trace)| && fs.trace[..|old(fs.trace)|] == old(fs.trace)
    ensures temp.VaultTemp? && temp !in old(fs.entries)
    ensures OldOrNewSince(fs.trace, |old(fs.trace)|, path, At(old(fs.entries), path), data)
    ensures r == Done ==>
      temp in fs.entries && Encrypts(fs.entries[temp], data) && fs.entries == old(fs.entries)[temp := fs.entries[temp]]
    ensures r != Done ==>
      fs.entries == old(fs.entries) || (temp in fs.entries && fs.entries == old(fs.entries)[temp := fs.entries[temp]])
    ensures !fs.vaultFaulty ==> r == Done
    ensures OutsideVaultSince(fs.trace, |old(fs.trace)|, old(fs.entries)) && fs.destroyed == old(fs.destroyed)
    ensures old(fs.syncs) <= fs.syncs
    ensures r == Done ==> SyncedSince(fs.syncs, |old(fs.syncs)|, fs.trace, |old(fs.trace)|, temp, fs.entries[temp])
  {
    var n := fs.next;
    temp := VaultTemp(n);
    fs.next := fs.next + 1;
    r := fs.Create(temp, Regular(n, Fragment, 384, 0));
    if r != Done { return; }
    r := fs.Rewrite(temp, Regular(n, Sealed(data, nonce), 384, 0));
    if r != Done { return; }
    r := fs.Sync(temp);
    if r == Done { SyncedNow(fs.syncs, |old(fs.syncs)|, fs.trace, |old(fs.trace)|, temp, fs.entries[temp]); }
  }

  /** `rollbackPersistedFile`. */
  method RollbackPersisted(fs: FileSystem, path: Name, temp: Name, previousExists: bool) returns (undone: bool)
    requires fs.Valid() && path.ObjectFile? && temp.VaultTemp? && (previousExists ==> temp in fs.entries) && path in fs.entries
    modifies fs`entries, fs`trace, fs`destroyed
    ensures fs.Valid() && fs.trace == old(fs.trace) + [fs.entries]
    ensures undone && previousExists ==>
      fs.entries == old(fs.entries)[temp := old(fs.entries)[path]][path := old(fs.entries)[temp]]
    ensures undone && !previousExists ==> fs.entries == old(fs.entries) - {path}
    ensures !undone ==> fs.entries == old(fs.entries) && fs.vaultFaulty
    ensures fs.destroyed == old(fs.destroyed)
  {
    var r;
    if previousExists {
      r := fs.Exchange(temp, path);
    } else {
      r := fs.Remove(path);
    }
    undone := r == Done;
  }

  /** The exchange or rename that makes the staged ciphertext current. */
  method Install(fs: FileSystem, path: Name, temp: Name, ghost data: Bytes) returns (installed: bool, previousExists: bool)
    requires fs.Valid() && path.ObjectFile? && temp.VaultTemp? && temp in fs.entries && Encrypts(fs.entries[temp], data)
    modifies fs`entries, fs`trace
    ensures fs.trace == old(fs.trace) + [fs.entries] || fs.trace == old(fs.trace)
    ensures fs.Valid() && (!installed ==> fs.entries == old(fs.entries))
    ensures installed ==>
      && previousExists == (path in old(fs.entries))
      && (previousExists ==>
            && old(fs.entries)[path].Regular?
            && fs.entries == old(fs.entries)[temp := old(fs.entries)[path]][path := old(fs.entries)[temp]])
      && (!previousExists ==> fs.entries == (old(fs.entries) - {temp})[path := old(fs.entries)[temp]])
    ensures !fs.vaultFaulty && Replaceable(old(fs.entries), path) ==> installed
  {
    installed, previousExists := false, path in fs.entries;
    var r;
    if previousExists {
      if !fs.entries[path].Regular? { return; }
      r := fs.Exchange(temp, path);
    } else {
      r := fs.RenameNoReplace(temp, path);
    }
    installed := r == Done;
  }

  /** Without the temporary file if that fails. */
  method InstallOrDiscard(fs: FileSystem, path: Name, temp: Name, ghost data: Bytes) returns (installed: bool, previousExists: bool)
    requires fs.Valid() && temp.VaultTemp? && path.ObjectFile? && temp in fs.entries && Encrypts(fs.entries[temp], data)
    modifies fs`entries, fs`trace, fs`destroyed
    ensures fs.Valid() && old(fs.trace) <= fs.trace && fs.destroyed == old(fs.destroyed)
    ensures OldOrNewSince(fs.trace, |old(fs.trace)|, path, At(old(fs.entries), path), data)
    ensures forall name: Name | name != path && name != temp :: At(fs.entries, name) == At(old(fs.entries), name)
    ensures installed ==>
      && At(fs.entries, path) == At(old(fs.entries), temp) && At(fs.entries, temp) == At(old(fs.entries), path)
      && (previousExists <==> temp in fs.entries)
    ensures !installed ==> At(fs.entries, path) == At(old(fs.entries), path)
    ensures !installed && !fs.vaultFaulty ==> temp !in fs.entries
    ensures !fs.vaultFaulty && Replaceable(old(fs.entries), path) ==> installed
    ensures OutsideVaultSince(fs.trace, |old(fs.trace)|, old(fs.entries))
  {
    installed, previousExists := Install(fs, path, temp, data);
    if !installed { DiscardTemp(fs, temp, path, data); }
  }

  /** The file was synced under a temporary name, and then its new name was. */
  ghost predicate StoredDurably(syncs: seq<SyncOf>, k: nat, trace: seq<Entries>, n: nat, path: Name, e: Entry) {
    match k <= |syncs|
    case true =>
      exists temp, m :: k <= m <= |syncs| && SyncedSince(syncs[..m], k, trace, n, VaultTemp(temp), e) && SyncedSince(syncs, m, trace, n, path, e)
    case false => false
  }

  lemma StagedThenNamed(early: seq<SyncOf>, syncs: seq<SyncOf>, k: nat, trace: seq<Entries>, longer: seq<Entries>, n: nat, temp: Name, path: Name, e: Entry)
    requires temp.VaultTemp? && k <= |early| && early <= syncs && n <= |trace| && trace <= longer
    requires SyncedSince(early, k, trace, n, temp, e) && SyncedSince(syncs, |early|, longer, |trace|, path, e)
    ensures StoredDurably(syncs, k, longer, n, path, e)
  {
    assert temp == VaultTemp(temp.n) && syncs[..|early|] == early;
    SyncedLater(early, early, k, k, trace, longer, n, n, temp, e);
    SyncedLater(syncs, syncs, |early|, |early|, longer, longer, n, |trace|, path, e);
  }

  /** No temporary file is left behind. */
  ghost predicate SameTemps(a: Entries, b: Entries) { forall n :: At(b, VaultTemp(n)) == At(a, VaultTemp(n)) }

  /** What a call leaves of the index and the volume's copy: success records exactly what it should; a
      failure leaves the copy alone, and the index, unless a failing save took effect. */
  ghost predicate IndexOutcome(result: PersistResult, a: Index, copy: Index, b: Index, copyNow: Index, id: string, size: nat,
                               meta: FileMeta, now: int, faulty: bool) {
    match result
    case Stored => Recorded(a, b, id, size, meta, now) && copyNow == b
    case StoredUncleanly => Recorded(a, b, id, size, meta, now) && copyNow == b
    case Rejected => b == a && copyNow == copy
    case _ => copyNow == copy && (b == a || (faulty && Recorded(a, b, id, size, meta, now)))
  }

  /** `persistFile`, over any faults.  At every moment the object path holds its complete
      old or the complete new ciphertext. */
  method PersistFile(fs: FileSystem, id: string, data: Bytes, meta: FileMeta, limit: nat, nonce: nat, now: int)
    returns (result: PersistResult)
    requires fs.Valid()
    modifies fs`entries, fs`trace, fs`syncs, fs`next, fs`destroyed, fs.index`stored, fs.index`memory
    ensures fs.Valid()
    ensures |fs.trace| >= |old(fs.trace)| && fs.trace[..|old(fs.trace)|] == old(fs.trace)
    ensures OldOrNewSince(fs.trace, |old(fs.trace)|, ObjectFile(id), At(old(fs.entries), ObjectFile(id)), data)
    ensures OnlyTouches(old(fs.entries), fs.entries, ObjectFile(id))
    ensures result.Stored? || result.StoredUncleanly? ==>
      && ObjectFile(id) in fs.entries && Encrypts(fs.entries[ObjectFile(id)], data)
      && |data| <= limit
    ensures result.Rejected? || result.RolledBack? ==>
      At(fs.entries, ObjectFile(id)) == At(old(fs.entries), ObjectFile(id))
    ensures result.RollbackFailed? ==> ObjectFile(id) in fs.entries && Encrypts(fs.entries[ObjectFile(id)], data)
    // If the disk works, a metadata failure is always undone; if metadata works too, the call succeeds.
    ensures !fs.vaultFaulty && |data| <= limit && Replaceable(old(fs.entries), ObjectFile(id)) ==>
      if fs.index.faulty then result.Stored? || result.RolledBack? else result.Stored?
    ensures OutsideVaultSince(fs.trace, |old(fs.trace)|, old(fs.entries)) && fs.destroyed == old(fs.destroyed)
    ensures result.Stored? || !fs.vaultFaulty ==> SameTemps(old(fs.entries), fs.entries)
    ensures old(fs.syncs) <= fs.syncs
    ensures result.Stored? || result.StoredUncleanly? ==>
      StoredDurably(fs.syncs, |old(fs.syncs)|, fs.trace, |old(fs.trace)|, ObjectFile(id), fs.entries[ObjectFile(id)])
    ensures IndexOutcome(result, old(fs.index.stored), old(fs.index.memory), fs.index.stored, fs.index.memory, id, |data|, meta, now, fs.index.faulty)
  {
    if |data| > limit { return Rejected; }
    result := PersistFitting(fs, id, data, meta, nonce, now);
  }

  /** Within the limit. */
  method PersistFitting(fs: FileSystem, id: string, data: Bytes, meta: FileMeta, nonce: nat, now: int)
    returns (result: PersistResult)
    requires fs.Valid()
    modifies fs`entries, fs`trace, fs`syncs, fs`next, fs`destroyed, fs.index`stored, fs.index`memory
    ensures fs.Valid()
    ensures |fs.trace| >= |old(fs.trace)| && fs.trace[..|old(fs.trace)|] == old(fs.trace)
    ensures OldOrNewSince(fs.trace, |old(fs.trace)|, ObjectFile(id), At(old(fs.entries), ObjectFile(id)), data)
    ensures OnlyTouches(old(fs.entries), fs.entries, ObjectFile(id))
    ensures result.Stored? || result.StoredUncleanly? ==>
      && ObjectFile(id) in fs.entries && Encrypts(fs.entries[ObjectFile(id)], data)
    ensures result.Rejected? || result.RolledBack? ==>
      At(fs.entries, ObjectFile(id)) == At(old(fs.entries), ObjectFile(id))
    ensures result.RollbackFailed? ==> ObjectFile(id) in fs.entries && Encrypts(fs.entries[ObjectFile(id)], data)
    ensures !fs.vaultFaulty && Replaceable(old(fs.entries), ObjectFile(id)) ==>
      if fs.index.faulty then result.Stored? || result.RolledBack? else result.Stored?
    ensures OutsideVaultSince(fs.trace, |old(fs.trace)|, old(fs.entries)) && fs.destroyed == old(fs.destroyed)
    ensures result.Stored? || !fs.vaultFaulty ==> SameTemps(old(fs.entries), fs.entries)
    ensures old(fs.syncs) <= fs.syncs
    ensures result.Stored? || result.StoredUncleanly? ==>
      StoredDurably(fs.syncs, |old(fs.syncs)|, fs.trace, |old(fs.trace)|, ObjectFile(id), fs.entries[ObjectFile(id)])
    ensures IndexOutcome(result, old(fs.index.stored), old(fs.index.memory), fs.index.stored, fs.index.memory, id, |data|, meta, now, fs.index.faulty)
  {
    var path := ObjectFile(id);
    var staged, temp := StageCiphertext(fs, data, nonce, path);
    if staged != Done {
      DiscardTemp(fs, temp, path, data);
      return Rejected;
    }
    ghost var t1, e1, s1 := fs.trace, fs.entries, fs.syncs;
    result := InstallAndCommit(fs, id, temp, data, meta, now);
    if result.Stored? || result.StoredUncleanly? {
      StagedThenNamed(s1, fs.syncs, |old(fs.syncs)|, t1, fs.trace, |old(fs.trace)|, temp, path, fs.entries[path]);
    }
    OutsideVaultOn(t1, fs.trace, |old(fs.trace)|, old(fs.entries), e1);
  }

  /** Installs the staged ciphertext and records it, or undoes that. */
  method InstallAndCommit(fs: FileSystem, id: string, temp: Name, data: Bytes, meta: FileMeta, now: int)
    returns (result: PersistResult)
    requires fs.Valid() && temp.VaultTemp? && temp in fs.entries && Encrypts(fs.entries[temp], data)
    modifies fs`entries, fs`trace, fs`syncs, fs`destroyed, fs.index`stored, fs.index`memory
    ensures fs.Valid() && old(fs.trace) <= fs.trace
    ensures OldOrNewSince(fs.trace, |old(fs.trace)|, ObjectFile(id), At(old(fs.entries), ObjectFile(id)), data)
    ensures forall name: Name | name != ObjectFile(id) && name != temp :: At(fs.entries, name) == At(old(fs.entries), name)
    ensures result.Stored? || result.StoredUncleanly? ==>
      && ObjectFile(id) in fs.entries && Encrypts(fs.entries[ObjectFile(id)], data)
    ensures result.Rejected? || result.RolledBack? ==>
      At(fs.entries, ObjectFile(id)) == At(old(fs.entries), ObjectFile(id))
    ensures result.RollbackFailed? ==> ObjectFile(id) in fs.entries && Encrypts(fs.entries[ObjectFile(id)], data)
    ensures !fs.vaultFaulty && Replaceable(old(fs.entries), ObjectFile(id)) ==>
      if fs.index.faulty then result.Stored? || result.RolledBack? else result.Stored?
    ensures OutsideVaultSince(fs.trace, |old(fs.trace)|, old(fs.entries)) && fs.destroyed == old(fs.destroyed)
    ensures result.Stored? || !fs.vaultFaulty ==> temp !in fs.entries
    ensures old(fs.syncs) <= fs.syncs
    ensures result.Stored? || result.StoredUncleanly? ==>
      SyncedSince(fs.syncs, |old(fs.syncs)|, fs.trace, |old(fs.trace)|, ObjectFile(id), fs.entries[ObjectFile(id)])
    ensures result.Stored? || result.StoredUncleanly? ==> fs.entries[ObjectFile(id)] == old(fs.entries)[temp]
    ensures IndexOutcome(result, old(fs.index.stored), old(fs.index.memory), fs.index.stored, fs.index.memory, id, |data|, meta, now, fs.index.faulty)
  {
    var path := ObjectFile(id);
    var installed, previousExists := InstallOrDiscard(fs, path, temp, data);
    if !installed { return Rejected; }
    ghost var t1, e1, s1 := fs.trace, fs.entries, fs.syncs;
    result := CommitPersisted(fs, id, temp, previousExists, data, meta, now);
    assert At(e1, temp) == At(old(fs.entries), path);
    OldOrNewOn(t1, fs.trace, |old(fs.trace)|, path, At(e1, temp), data);
    if result.Stored? || result.StoredUncleanly? {
      SyncedLater(fs.syncs, fs.syncs, |old(fs.syncs)|, |s1|, fs.trace, fs.trace, |old(fs.trace)|, |t1|, path, fs.entries[path]);
    }
    OutsideVaultOn(t1, fs.trace, |old(fs.trace)|, old(fs.entries), e1);
  }

  lemma OutsideVaultOn(early: seq<Entries>, trace: seq<Entries>, n: nat, a: Entries, b: Entries)
    requires OutsideVaultSince(early, n, a) && SameOutsideVault(a, b)
    requires early <= trace && OutsideVaultSince(trace, |early|, b)
    ensures OutsideVaultSince(trace, n, a)
  {
    forall i | n <= i < |trace| ensures SameOutsideVault(a, trace[i]) {
      if i < |early| { assert trace[i] == early[i]; }
    }
  }

  lemma OldOrNewOn(early: seq<Entries>, trace: seq<Entries>, n: nat, path: Name, before: Option<Entry>, data: Bytes)
    requires OldOrNewSince(early, n, path, before, data) && early <= trace && OldOrNewSince(trace, |early|, path, before, data)
    ensures OldOrNewSince(trace, n, path, before, data)
  {
    forall i | n <= i < |trace| ensures OldOrNew(trace[i], path, before, data) {
      if i < |early| { assert trace[i] == early[i]; }
    }
  }

  /** The deferred removal of the temporary file, whose failure is ignored. */
  method DiscardTemp(fs: FileSystem, temp: Name, ghost path: Name, ghost data: Bytes)
    requires fs.Valid() && temp.VaultTemp? && temp != path
    modifies fs`entries, fs`trace, fs`destroyed
    ensures fs.Valid() && fs.trace == old(fs.trace) + [fs.entries]
    ensures fs.entries == old(fs.entries) || fs.entries == old(fs.entries) - {temp}
    ensures At(fs.entries, path) == At(old(fs.entries), path)
    ensures fs.destroyed == old(fs.destroyed)
    ensures !fs.vaultFaulty ==> temp !in fs.entries
  {
    var r := fs.Remove(temp);
  }

  /** The second half: sync, record the metadata, and drop the previous ciphertext. */
  method CommitPersisted(fs: FileSystem, id: string, temp: Name, previousExists: bool, data: Bytes, meta: FileMeta, now: int)
    returns (result: PersistResult)
    requires fs.Valid() && temp.VaultTemp?
    requires ObjectFile(id) in fs.entries && Encrypts(fs.entries[ObjectFile(id)], data)
    requires previousExists <==> temp in fs.entries
    modifies fs`entries, fs`trace, fs`syncs, fs`destroyed, fs.index`stored, fs.index`memory
    ensures fs.Valid()
    ensures |fs.trace| >= |old(fs.trace)| && fs.trace[..|old(fs.trace)|] == old(fs.trace)
    ensures OldOrNewSince(fs.trace, |old(fs.trace)|, ObjectFile(id), At(old(fs.entries), temp), data)
    ensures forall name: Name | name != ObjectFile(id) && name != temp :: At(fs.entries, name) == At(old(fs.entries), name)
    ensures result.Stored? || result.StoredUncleanly? ==>
      && At(fs.entries, ObjectFile(id)) == At(old(fs.entries), ObjectFile(id))
    ensures result.RolledBack? ==> At(fs.entries, ObjectFile(id)) == At(old(fs.entries), temp)
    ensures result.RollbackFailed? ==> At(fs.entries, ObjectFile(id)) == At(old(fs.entries), ObjectFile(id))
    ensures !result.Rejected?
    ensures !fs.vaultFaulty ==> result.Stored? || (fs.index.faulty && result.RolledBack?)
    ensures OutsideVaultSince(fs.trace, |old(fs.trace)|, old(fs.entries)) && fs.destroyed == old(fs.destroyed)
    ensures result.Stored? || !fs.vaultFaulty ==> temp !in fs.entries
    ensures old(fs.syncs) <= fs.syncs
    ensures result.Stored? || result.StoredUncleanly? ==>
      SyncedSince(fs.syncs, |old(fs.syncs)|, fs.trace, |old(fs.trace)|, ObjectFile(id), fs.entries[ObjectFile(id)])
    ensures IndexOutcome(result, old(fs.index.stored), old(fs.index.memory), fs.index.stored, fs.index.memory, id, |data|, meta, now, fs.index.faulty)
  {
    var path := ObjectFile(id);
    var synced := fs.Sync(path);
    var recorded := false;
    if synced == Done {
      SyncedNow(fs.syncs, |old(fs.syncs)|, fs.trace, |old(fs.trace)|, path, fs.entries[path]);
      recorded := fs.index.Update(SetFile(ObjectKey(id), meta.(size := |data|, mtime := TimeOf(meta.mtime, now)), now, fs.next + 2));
      if fs.index.stored != old(fs.index.stored) || recorded {
        SetFileRecords(old(fs.index.stored), fs.index.stored, id, |data|, meta, now, fs.next + 2);
      }
    }
    if !recorded {
      var undone := UndoPersisted(fs, path, temp, previousExists, data);
      return if undone then RolledBack else RollbackFailed;
    }
    ghost var syncs, trace := fs.syncs, fs.trace;
    var clean := DropPrevious(fs, path, temp, previousExists, data);
    SyncedLater(syncs, fs.syncs, |old(fs.syncs)|, |old(fs.syncs)|, trace, fs.trace, |old(fs.trace)|, |old(fs.trace)|, path, fs.entries[path]);
    result := if clean then Stored else StoredUncleanly;
  }

  method UndoPersisted(fs: FileSystem, path: Name, temp: Name, previousExists: bool, ghost data: Bytes) returns (undone: bool)
    requires fs.Valid() && temp.VaultTemp? && path.ObjectFile?
    requires path in fs.entries && Encrypts(fs.entries[path], data) && (previousExists <==> temp in fs.entries)
    modifies fs`entries, fs`trace, fs`destroyed
    ensures fs.Valid() && |fs.trace| == |old(fs.trace)| + 2 && fs.trace[..|old(fs.trace)|] == old(fs.trace)
    ensures OldOrNewSince(fs.trace, |old(fs.trace)|, path, At(old(fs.entries), temp), data)
    ensures forall name: Name | name != path && name != temp :: At(fs.entries, name) == At(old(fs.entries), name)
    ensures At(fs.entries, path) == At(old(fs.entries), if undone then temp else path)
    ensures !undone ==> fs.vaultFaulty
    ensures OutsideVaultSince(fs.trace, |old(fs.trace)|, old(fs.entries)) && fs.destroyed == old(fs.destroyed)
    ensures !fs.vaultFaulty ==> temp !in fs.entries
  {
    undone := RollbackPersisted(fs, path, temp, previousExists);
    DiscardTemp(fs, temp, path, data);
  }

  method DropPrevious(fs: FileSystem, path: Name, temp: Name, previousExists: bool, ghost data: Bytes) returns (clean: bool)
    requires fs.Valid() && temp.VaultTemp? && path.ObjectFile?
    requires path in fs.entries && Encrypts(fs.entries[path], data) && (previousExists <==> temp in fs.entries)
    modifies fs`entries, fs`trace, fs`syncs, fs`destroyed
    ensures fs.Valid() && |fs.trace| >= |old(fs.trace)| && fs.trace[..|old(fs.trace)|] == old(fs.trace)
    ensures OldOrNewSince(fs.trace, |old(fs.trace)|, path, At(old(fs.entries), temp), data)
    ensures forall name: Name | name != temp :: At(fs.entries, name) == At(old(fs.entries), name)
    ensures !clean ==> fs.vaultFaulty
    ensures OutsideVaultSince(fs.trace, |old(fs.trace)|, old(fs.entries)) && fs.destroyed == old(fs.destroyed)
    ensures clean || !fs.vaultFaulty ==> temp !in fs.entries
    ensures old(fs.syncs) <= fs.syncs
    ensures clean ==> SyncedSince(fs.syncs, |old(fs.syncs)|, fs.trace, |old(fs.trace)|, path, old(fs.entries)[path])
  {
    if previousExists {
      var removed := fs.Remove(temp);
      if removed != Done {
        DiscardTemp(fs, temp, path, data);
        return false;
      }
    }
    var synced := fs.Sync(path);
    clean := synced == Done;
    if clean { SyncedNow(fs.syncs, |old(fs.syncs)|, fs.trace, |old(fs.trace)|, path, fs.entries[path]); }
  }

  // ----------------------------------------------------------------- removal

  /** The index is as before, unless a failing save took effect all the same. */
  predicate IndexAttempted(before: Index, after: Index, op: Operation, faulty: bool) {
    after == before || (faulty && Apply(before, op) == Some(after))
  }

  /** The removal of the object left the rest of the index alone. */
  ghost predicate Unrecorded(a: Index, b: Index, id: string) {
    OtherRowsKept(a, b, id) && RowOf(b, ObjectKey(id)) == NO_ROW
  }

  /** The index record came back with the given metadata: but without a link, so with a new mark. */
  ghost predicate RecordedAgain(a: Index, b: Index, id: string, meta: FileMeta, now: int) {
    && OtherRowsKept(a, b, id)
    && var row := RowOf(b, ObjectKey(id));
    && row == Row(row.file, None, Some(now), None, None) && row.file.Some?
    && row.file.value == meta.(mode := meta.mode % 512, inode := row.file.value.inode)
    && (meta.inode >= 2 ==> row.file.value.inode == meta.inode)
  }

  lemma RemoveFileUnrecords(a: Index, b: Index, id: string)
    requires Apply(a, RemoveFile(ObjectKey(id))) == Some(b)
    ensures Unrecorded(a, b, id)
  {
    forall k { OperationMeans(a, RemoveFile(ObjectKey(id)), k); }
  }

  lemma SetFileRecordsAgain(a: Index, b: Index, c: Index, id: string, meta: FileMeta, now: int, freshInode: nat)
    requires Unrecorded(a, b, id) && Apply(b, SetFile(ObjectKey(id), meta, now, freshInode)) == Some(c)
    ensures RecordedAgain(a, c, id, meta, now)
  {
    forall k { OperationMeans(b, SetFile(ObjectKey(id), meta, now, freshInode), k); }
  }

  datatype RemoveResult =
    | Removed    // gone; if only the last sync failed, the source still reports an error
    | Kept       // the ciphertext is at its object path
    | Stranded   // restoring failed: the ciphertext is at the temporary name
    | Missing    // there was no regular ciphertext to remove

  /** The ciphertext is at its path or set aside under the temporary name. */
  predicate Survives(st: Entries, e: Entry, path: Name, temp: Name) {
    At(st, path) == Some(e) || At(st, temp) == Some(e)
  }

  ghost predicate SurvivesSince(trace: seq<Entries>, n: nat, e: Entry, path: Name, temp: Name) {
    forall i | n <= i < |trace| :: Survives(trace[i], e, path, temp)
  }

  /** `restoreRemovedFile`. */
  method RestoreRemoved(fs: FileSystem, path: Name, temp: Name) returns (result: RemoveResult)
    requires fs.Valid() && path.ObjectFile? && temp.VaultTemp? && temp in fs.entries && path !in fs.entries
    modifies fs`entries, fs`trace
    ensures fs.Valid() && fs.trace == old(fs.trace) + [fs.entries]
    ensures result.Kept? ==> fs.entries == (old(fs.entries) - {temp})[path := old(fs.entries)[temp]]
    ensures result.Stranded? ==> fs.entries == old(fs.entries)
    ensures result.Kept? || (result.Stranded? && fs.vaultFaulty)
  {
    var r := fs.RenameNoReplace(temp, path);
    result := if r == Done then Kept else Stranded;
  }

  /** Moves the ciphertext aside under a name reserved with a placeholder. */
  method SetAside(fs: FileSystem, path: Name) returns (moved: bool, temp: Name)
    requires fs.Valid() && path.ObjectFile? && path in fs.entries
    modifies fs`entries, fs`trace, fs`next, fs`destroyed
    ensures fs.Valid() && |fs.trace| >= |old(fs.trace)| && fs.trace[..|old(fs.trace)|] == old(fs.trace)
    ensures temp.VaultTemp? && temp !in old(fs.entries)
    ensures SurvivesSince(fs.trace, |old(fs.trace)|, old(fs.entries)[path], path, temp)
    ensures moved ==> fs.entries == (old(fs.entries) - {path})[temp := old(fs.entries)[path]]
    ensures !moved ==> At(fs.entries, path) == At(old(fs.entries), path)
    ensures !moved ==> OnlyTouches(old(fs.entries), fs.entries, path)
    ensures !fs.vaultFaulty ==> moved
    ensures OutsideVaultSince(fs.trace, |old(fs.trace)|, old(fs.entries)) && fs.destroyed == old(fs.destroyed)
  {
    moved := false;
    temp := VaultTemp(fs.next);
    fs.next := fs.next + 1;
    var r := fs.Create(temp, Regular(fs.next - 1, Fragment, 384, 0));
    if r != Done { return; }
    r := fs.Remove(temp);
    if r != Done { return; }
    assert fs.entries == old(fs.entries);
    r := fs.RenameNoReplace(path, temp);
    moved := r == Done;
  }

  /** `removeProtectedFileLocked`, over any faults: unless it got as far as the unlink, the ciphertext
      survived every moment, and it is back at its path unless restoring failed.  If the
      final unlink fails, the index entry comes back but the link entry does not: the
      object is left orphaned. */
  method RemoveProtectedFile(fs: FileSystem, id: string, now: int) returns (result: RemoveResult, unlinkFailed: bool, temp: Name)
    requires fs.Valid()
    modifies fs`entries, fs`trace, fs`syncs, fs`next, fs`destroyed, fs.index`stored, fs.index`memory
    ensures fs.Valid()
    ensures |fs.trace| >= |old(fs.trace)| && fs.trace[..|old(fs.trace)|] == old(fs.trace)
    ensures OnlyTouches(old(fs.entries), fs.entries, ObjectFile(id))
    ensures result.Missing? <==> At(old(fs.entries), ObjectFile(id)).None? || !old(fs.entries)[ObjectFile(id)].Regular?
    ensures result.Missing? ==> fs.entries == old(fs.entries) && fs.index.stored == old(fs.index.stored)
    ensures result.Removed? ==>
      && fs.entries == old(fs.entries) - {ObjectFile(id)}
      && Unrecorded(old(fs.index.stored), fs.index.stored, id) && fs.index.memory == fs.index.stored
    ensures result.Kept? || result.Stranded? ==>
      SurvivesSince(fs.trace, |old(fs.trace)|, old(fs.entries)[ObjectFile(id)], ObjectFile(id), temp)
    ensures result.Kept? ==> At(fs.entries, ObjectFile(id)) == At(old(fs.entries), ObjectFile(id))
    ensures result.Stranded? ==> At(fs.entries, temp) == At(old(fs.entries), ObjectFile(id)) && temp.VaultTemp?
    ensures unlinkFailed ==>
      && (result.Kept? || result.Stranded?)
      && (RecordedAgain(old(fs.index.stored), fs.index.stored, id, RecordedMeta(old(fs.index.memory), ObjectKey(id), now), now)
          || (fs.index.faulty && Unrecorded(old(fs.index.stored), fs.index.stored, id)))
    ensures OtherRowsKept(old(fs.index.stored), fs.index.stored, id)
    ensures (result.Kept? || result.Stranded?) && !unlinkFailed ==>
      IndexAttempted(old(fs.index.stored), fs.index.stored, RemoveFile(ObjectKey(id)), fs.index.faulty) && fs.index.memory == old(fs.index.memory)
    ensures !fs.vaultFaulty && !result.Missing? ==> result.Removed? || (fs.index.faulty && result.Kept? && !unlinkFailed)
    ensures OutsideVaultSince(fs.trace, |old(fs.trace)|, old(fs.entries)) && fs.destroyed == old(fs.destroyed)
  {
    var path := ObjectFile(id);
    unlinkFailed, temp := false, VaultTemp(0);
    if path !in fs.entries || !fs.entries[path].Regular? { return Missing, false, temp; }
    var moved;
    var meta := RecordedMeta(fs.index.memory, ObjectKey(id), now);
    moved, temp := SetAside(fs, path);
    if !moved { return Kept, false, temp; }
    result, unlinkFailed := DropSetAside(fs, id, temp, meta, now);
    if result.Removed? { SameMap(fs.entries, old(fs.entries) - {path}); }
  }

  lemma SameMap(a: Entries, b: Entries)
    requires forall name: Name :: At(a, name) == At(b, name)
    ensures a == b
  {
    forall name: Name ensures (name in a <==> name in b) && (name in a ==> a[name] == b[name]) {
      assert At(a, name) == At(b, name);
    }
  }

  /** `fileMeta`: the recorded metadata or a default. */
  function RecordedMeta(m: Index, key: Key, now: int): FileMeta {
    if key in m.files then m.files[key] else FileMeta(0, 384, now, now, 2)
  }

  /** The unlink failed: records the object again, which may fail, too. */
  method RecordAgain(index: MetadataStore, id: string, meta: FileMeta, now: int, freshInode: nat, ghost before: Index)
    requires Unrecorded(before, index.stored, id)
    modifies index`stored, index`memory
    ensures RecordedAgain(before, index.stored, id, meta, now) || (index.faulty && Unrecorded(before, index.stored, id))
  {
    var restored := index.Update(SetFile(ObjectKey(id), meta, now, freshInode));
    if index.stored != old(index.stored) || restored {
      SetFileRecordsAgain(before, old(index.stored), index.stored, id, meta, now, freshInode);
    }
  }

  /** The index entry goes, once the move of the file is synced. */
  method Unindex(fs: FileSystem, id: string) returns (unindexed: bool)
    modifies fs`syncs, fs.index`stored, fs.index`memory
    ensures OtherRowsKept(old(fs.index.stored), fs.index.stored, id)
    ensures unindexed ==>
      && Unrecorded(old(fs.index.stored), fs.index.stored, id) && fs.index.memory == fs.index.stored
      && |fs.syncs| > |old(fs.syncs)| && fs.syncs[|fs.syncs| - 1] == SyncOf(ObjectFile(id), |fs.trace|)
    ensures !unindexed ==>
      IndexAttempted(old(fs.index.stored), fs.index.stored, RemoveFile(ObjectKey(id)), fs.index.faulty) && fs.index.memory == old(fs.index.memory)
    ensures !fs.vaultFaulty && !fs.index.faulty ==> unindexed
  {
    unindexed := false;
    var synced := fs.Sync(ObjectFile(id));
    if synced == Done {
      unindexed := fs.index.Update(RemoveFile(ObjectKey(id)));
      if unindexed || fs.index.stored != old(fs.index.stored) { RemoveFileUnrecords(old(fs.index.stored), fs.index.stored, id); }
    }
  }

  method PutRecordBack(fs: FileSystem, id: string, temp: Name, meta: FileMeta, now: int, ghost before: Index) returns (result: RemoveResult)
    requires fs.Valid() && temp.VaultTemp? && temp in fs.entries && ObjectFile(id) !in fs.entries
    requires Unrecorded(before, fs.index.stored, id) && fs.index.memory == fs.index.stored
    modifies fs`entries, fs`trace, fs.index`stored, fs.index`memory
    ensures fs.Valid() && fs.trace == old(fs.trace) + [fs.entries]
    ensures if result.Kept? then fs.entries == (old(fs.entries) - {temp})[ObjectFile(id) := old(fs.entries)[temp]]
            else result.Stranded? && fs.entries == old(fs.entries)
    ensures RecordedAgain(before, fs.index.stored, id, meta, now) || (fs.index.faulty && Unrecorded(before, fs.index.stored, id))
    ensures OtherRowsKept(before, fs.index.stored, id)
    ensures !fs.vaultFaulty ==> result.Kept?
  {
    RecordAgain(fs.index, id, meta, now, fs.next + 2, before);
    result := RestoreRemoved(fs, ObjectFile(id), temp);
  }

  /** The second half: record the removal, then delete what was set aside, or put it back. */
  method DropSetAside(fs: FileSystem, id: string, temp: Name, meta: FileMeta, now: int)
    returns (result: RemoveResult, unlinkFailed: bool)
    requires fs.Valid() && temp.VaultTemp? && temp in fs.entries && ObjectFile(id) !in fs.entries
    modifies fs`entries, fs`trace, fs`syncs, fs`destroyed, fs.index`stored, fs.index`memory
    ensures fs.Valid()
    ensures |fs.trace| >= |old(fs.trace)| && fs.trace[..|old(fs.trace)|] == old(fs.trace)
    ensures forall name: Name | name != ObjectFile(id) && name != temp :: At(fs.entries, name) == At(old(fs.entries), name)
    ensures !result.Missing?
    ensures result.Removed? ==>
      && ObjectFile(id) !in fs.entries && temp !in fs.entries
      && Unrecorded(old(fs.index.stored), fs.index.stored, id) && fs.index.memory == fs.index.stored
    ensures !result.Removed? ==>
      SurvivesSince(fs.trace, |old(fs.trace)|, old(fs.entries)[temp], ObjectFile(id), temp)
    ensures result.Kept? ==> At(fs.entries, ObjectFile(id)) == At(old(fs.entries), temp) && temp !in fs.entries
    ensures result.Stranded? ==> At(fs.entries, temp) == At(old(fs.entries), temp) && ObjectFile(id) !in fs.entries
    ensures unlinkFailed ==>
      && !result.Removed?
      && (RecordedAgain(old(fs.index.stored), fs.index.stored, id, meta, now)
          || (fs.index.faulty && Unrecorded(old(fs.index.stored), fs.index.stored, id)))
    ensures OtherRowsKept(old(fs.index.stored), fs.index.stored, id)
    ensures !result.Removed? && !unlinkFailed ==>
      IndexAttempted(old(fs.index.stored), fs.index.stored, RemoveFile(ObjectKey(id)), fs.index.faulty) && fs.index.memory == old(fs.index.memory)
    ensures !fs.vaultFaulty ==> result.Removed? || (fs.index.faulty && result.Kept? && !unlinkFailed)
    ensures OutsideVaultSince(fs.trace, |old(fs.trace)|, old(fs.entries)) && fs.destroyed == old(fs.destroyed)
  {
    var path := ObjectFile(id);
    unlinkFailed := false;
    var unindexed := Unindex(fs, id);
    if !unindexed {
      result := RestoreRemoved(fs, path, temp);
      return;
    }
    var removed := fs.Remove(temp);
    if removed != Done {
      unlinkFailed := true;
      result := PutRecordBack(fs, id, temp, meta, now, old(fs.index.stored));
      return;
    }
    var synced := fs.Sync(path);
    result := Removed;
  }
}
