/** Turning protected files back into plaintext.

  The records are processed one after the other under the namespace lock, with the
  service stopped: nothing else acts on the paths, but every step may fail.
*/
module Unprotect {
  import opened Optional
  import opened DirectoryMoves
  import opened Metadata
  import opened Storage
  import opened Persistence
  import opened Symlinks

  /** An object and the path its plaintext belongs to. */
  datatype Record = Record(id: string, path: Parts)

  datatype UnprotectResult =
    | Unprotected(warning: bool)
    | NotUnprotected

  /** What a file reads as, when it is one. */
  function PlainAt(st: Entries, path: Parts): Option<Bytes> {
    if Project(path) in st && st[Project(path)].Regular? && st[Project(path)].content.Plain?
    then Some(st[Project(path)].content.bytes) else None
  }

  function StoredAt(st: Entries, id: string): Option<Bytes> {
    if ObjectFile(id) in st && st[ObjectFile(id)].Regular? && st[ObjectFile(id)].content.Sealed?
    then Some(st[ObjectFile(id)].content.plaintext) else None
  }

  predicate LinkAt(st: Entries, r: Record) { Project(r.path) in st && PointsTo(st[Project(r.path)], r.id) }

  // ------------------------------------------------- what one record may change

  /** Everything outside staging is the same. */
  ghost predicate SameVisible(a: Entries, b: Entries) {
    forall name: Name | !Temporary(name) :: At(b, name) == At(a, name)
  }

  /** The record's link may have become its plaintext, and only with the plaintext in place
      may the ciphertext be gone. */
  ghost predicate Evolves(a: Entries, b: Entries, r: Record, data: Bytes) {
    && (forall name: Name | !Temporary(name) && name != Project(r.path) && name != ObjectFile(r.id) ::
          At(b, name) == At(a, name))
    && (At(b, Project(r.path)) == At(a, Project(r.path)) || (LinkAt(a, r) && PlainAt(b, r.path) == Some(data)))
    && (At(b, ObjectFile(r.id)) == At(a, ObjectFile(r.id))
        || (ObjectFile(r.id) !in b && PlainAt(b, r.path) == Some(data)))
  }

  ghost predicate EvolvesSince(trace: seq<Entries>, n: nat, a: Entries, r: Record, data: Bytes) {
    forall i | n <= i < |trace| :: Evolves(a, trace[i], r, data)
  }

  lemma EvolvesOn(a: Entries, b: Entries, c: Entries, r: Record, data: Bytes)
    requires Evolves(a, b, r, data) && Evolves(b, c, r, data)
    ensures Evolves(a, c, r, data)
  {
  }

  lemma EvolvesSinceOn(early: seq<Entries>, trace: seq<Entries>, n: nat, a: Entries, b: Entries, r: Record, data: Bytes)
    requires EvolvesSince(early, n, a, r, data) && early <= trace
    requires Evolves(a, b, r, data) && EvolvesSince(trace, |early|, b, r, data)
    ensures EvolvesSince(trace, n, a, r, data)
  {
    forall i | n <= i < |trace| ensures Evolves(a, trace[i], r, data) {
      if i >= |early| { EvolvesOn(a, b, trace[i], r, data); }
    }
  }

  lemma SameEvolves(a: Entries, b: Entries, r: Record, data: Bytes)
    requires SameVisible(a, b)
    ensures Evolves(a, b, r, data)
  {
  }

  // ------------------------------------------------------------ materializing

  /** Of all staging directories and staged entries, only those of this slot changed. */
  ghost predicate OnlyStages(a: Entries, b: Entries, slot: nat) {
    forall n | n != slot :: At(b, StagingDir(n)) == At(a, StagingDir(n)) && At(b, Staged(n)) == At(a, Staged(n))
  }

  /** Nothing staged is left behind. */
  ghost predicate SameStaged(a: Entries, b: Entries) {
    forall n :: At(b, StagingDir(n)) == At(a, StagingDir(n)) && At(b, Staged(n)) == At(a, Staged(n))
  }

  /** Writes the plaintext, its mode and its time into a new staging directory. */
  method StagePlaintext(fs: FileSystem, data: Bytes, mode: nat, mtime: int)
    returns (ok: bool, made: bool, slot: nat, inode: nat)
    requires fs.Valid()
    modifies fs`entries, fs`trace, fs`syncs, fs`next
    ensures fs.Valid() && old(fs.trace) <= fs.trace && old(fs.next) <= slot < fs.next
    ensures forall i | |old(fs.trace)| <= i < |fs.trace| :: SameVisible(old(fs.entries), fs.trace[i])
    ensures SameVisible(old(fs.entries), fs.entries)
    ensures ok ==> made && At(fs.entries, Staged(slot)) == Some(Regular(inode, Plain(data), mode, mtime))
    ensures made ==> StagingDir(slot) in fs.entries
    ensures OnlyStages(old(fs.entries), fs.entries, slot) && NothingStaged(old(fs.entries), slot)
    ensures !fs.projectFaulty ==> ok
    ensures old(fs.syncs) <= fs.syncs
    ensures ok ==> SyncedSince(fs.syncs, |old(fs.syncs)|, fs.trace, |old(fs.trace)|, Staged(slot), Regular(inode, Plain(data), mode, mtime))
  {
    made, ok, slot, inode := OpenStaged(fs);
    if !ok { return; }
    ghost var t1 := fs.trace;
    ok := FillStaged(fs, slot, inode, data, mode, mtime);
    if ok {
      SyncedLater(fs.syncs, fs.syncs, |old(fs.syncs)|, |old(fs.syncs)|, fs.trace, fs.trace, |old(fs.trace)|, |t1|, Staged(slot),
                  Regular(inode, Plain(data), mode, mtime));
    }
  }

  /** A new file in a new staging directory. */
  method OpenStaged(fs: FileSystem) returns (made: bool, ok: bool, slot: nat, inode: nat)
    requires fs.Valid()
    modifies fs`entries, fs`trace, fs`next
    ensures fs.Valid() && old(fs.trace) <= fs.trace && old(fs.next) <= slot < fs.next && (ok ==> inode < fs.next)
    ensures forall i | |old(fs.trace)| <= i < |fs.trace| :: SameVisible(old(fs.entries), fs.trace[i])
    ensures SameVisible(old(fs.entries), fs.entries)
    ensures made ==> StagingDir(slot) in fs.entries
    ensures ok ==> made && Staged(slot) in fs.entries
    ensures OnlyStages(old(fs.entries), fs.entries, slot) && NothingStaged(old(fs.entries), slot)
    ensures !fs.projectFaulty ==> ok
  {
    made, ok, inode := false, false, fs.next + 1;
    var r;
    r, slot := fs.MakeStaging();
    if r != Done { return; }
    made := true;
    fs.next := fs.next + 1;
    r := fs.Create(Staged(slot), Regular(inode, Fragment, 384, 0));
    ok := r == Done;
  }

  /** Write, `Chmod` and `Chtimes`, `Sync`. */
  method FillStaged(fs: FileSystem, slot: nat, inode: nat, data: Bytes, mode: nat, mtime: int) returns (ok: bool)
    requires fs.Valid() && Staged(slot) in fs.entries && inode < fs.next
    modifies fs`entries, fs`trace, fs`syncs
    ensures fs.Valid() && old(fs.trace) <= fs.trace
    ensures forall i | |old(fs.trace)| <= i < |fs.trace| :: SameVisible(old(fs.entries), fs.trace[i])
    ensures SameVisible(old(fs.entries), fs.entries) && fs.entries.Keys == old(fs.entries).Keys
    ensures OnlyStages(old(fs.entries), fs.entries, slot)
    ensures ok ==> At(fs.entries, Staged(slot)) == Some(Regular(inode, Plain(data), mode, mtime))
    ensures !fs.projectFaulty ==> ok
    ensures old(fs.syncs) <= fs.syncs
    ensures ok ==> SyncedSince(fs.syncs, |old(fs.syncs)|, fs.trace, |old(fs.trace)|, Staged(slot), Regular(inode, Plain(data), mode, mtime))
  {
    ok := false;
    var r := fs.Rewrite(Staged(slot), Regular(inode, Plain(data), 384, 0));
    if r != Done { return; }
    r := fs.Rewrite(Staged(slot), Regular(inode, Plain(data), mode, mtime));
    if r != Done { return; }
    r := fs.Sync(Staged(slot));
    ok := r == Done;
    if ok { SyncedNow(fs.syncs, |old(fs.syncs)|, fs.trace, |old(fs.trace)|, Staged(slot), Regular(inode, Plain(data), mode, mtime)); }
  }

  /** `atomicInstallPlaintext` over the registered link. */
  method AtomicInstallPlaintext(fs: FileSystem, r: Record, slot: nat, expected: Target, ghost data: Bytes) returns (ok: bool)
    requires fs.Valid() && slot < fs.next
    requires LinkAt(fs.entries, r) && fs.entries[Project(r.path)].target == expected
    requires var s := At(fs.entries, Staged(slot));
             s.Some? && s.value.Regular? && s.value.content == Plain(data)
    modifies fs`entries, fs`trace, fs`syncs, fs`destroyed
    ensures fs.Valid() && old(fs.trace) <= fs.trace
    ensures EvolvesSince(fs.trace, |old(fs.trace)|, old(fs.entries), r, data)
    ensures Evolves(old(fs.entries), fs.entries, r, data)
    ensures At(fs.entries, ObjectFile(r.id)) == At(old(fs.entries), ObjectFile(r.id))
    ensures ok ==> At(fs.entries, Project(r.path)) == At(old(fs.entries), Staged(slot)) && Staged(slot) !in fs.entries
    ensures OnlyStages(old(fs.entries), fs.entries, slot)
    ensures !fs.projectFaulty ==> ok
    ensures old(fs.syncs) <= fs.syncs
  {
    var swapped := fs.Exchange(Staged(slot), Project(r.path));
    if swapped != Done { return false; }
    ghost var t1, e1 := fs.trace, fs.entries;
    ok := SettleInstalled(fs, r, slot, expected, data);
    EvolvesThenSettles(old(fs.entries), e1, t1, fs.trace, |old(fs.trace)|, r, data);
  }

  lemma EvolvesThenSettles(a: Entries, b: Entries, early: seq<Entries>, trace: seq<Entries>, n: nat, r: Record, data: Bytes)
    requires n == |early| - 1 && early[n] == b && early <= trace && Evolves(a, b, r, data) && LinkAt(a, r)
    requires At(b, ObjectFile(r.id)) == At(a, ObjectFile(r.id))
    requires forall i | |early| <= i < |trace| :: SettledFrom(b, trace[i], r, At(a, Project(r.path)))
    ensures EvolvesSince(trace, n, a, r, data)
  {
    forall i | n <= i < |trace| ensures Evolves(a, trace[i], r, data) {
      if i > n { assert SettledFrom(b, trace[i], r, At(a, Project(r.path))); }
    }
  }

  /** The path is unchanged or holds `link` again. */
  ghost predicate SettledFrom(a: Entries, b: Entries, r: Record, link: Option<Entry>) {
    && (forall name: Name | !Temporary(name) && name != Project(r.path) :: At(b, name) == At(a, name))
    && (At(b, Project(r.path)) == At(a, Project(r.path)) || At(b, Project(r.path)) == link)
  }

  /** After the exchange: drop the displaced link, or swap it back if it is not the expected one. */
  method SettleInstalled(fs: FileSystem, r: Record, slot: nat, expected: Target, ghost data: Bytes) returns (ok: bool)
    requires fs.Valid() && Project(r.path) in fs.entries && Staged(slot) in fs.entries
    modifies fs`entries, fs`trace, fs`syncs, fs`destroyed
    ensures fs.Valid() && old(fs.trace) <= fs.trace
    ensures forall i | |old(fs.trace)| <= i < |fs.trace| ::
      SettledFrom(old(fs.entries), fs.trace[i], r, At(old(fs.entries), Staged(slot)))
    ensures SettledFrom(old(fs.entries), fs.entries, r, At(old(fs.entries), Staged(slot)))
    ensures ok ==>
      Staged(slot) !in fs.entries && At(fs.entries, Project(r.path)) == At(old(fs.entries), Project(r.path))
    ensures OnlyStages(old(fs.entries), fs.entries, slot)
    ensures !fs.projectFaulty && old(fs.entries)[Staged(slot)] == Symlink(expected) ==> ok
    ensures old(fs.syncs) <= fs.syncs
  {
    var unreadable := fs.Fault(Staged(slot));
    if !unreadable && fs.entries[Staged(slot)] == Symlink(expected) {
      var removed := fs.Remove(Staged(slot));
      return removed == Done;
    }
    var swapped := fs.Exchange(Staged(slot), Project(r.path));
    ok := false;
  }

  /** The deferred cleanup: removes what it staged itself, and the directory if empty. */
  method CleanupStaged(fs: FileSystem, slot: nat, inode: nat) returns (ok: bool)
    requires fs.Valid()
    modifies fs`entries, fs`trace, fs`syncs, fs`destroyed
    ensures fs.Valid() && old(fs.trace) <= fs.trace
    ensures forall i | |old(fs.trace)| <= i < |fs.trace| :: SameVisible(old(fs.entries), fs.trace[i])
    ensures SameVisible(old(fs.entries), fs.entries)
    ensures OnlyStages(old(fs.entries), fs.entries, slot) && (ok ==> NothingStaged(fs.entries, slot))
    ensures !fs.projectFaulty && Staged(slot) !in old(fs.entries) ==> ok
    ensures old(fs.syncs) <= fs.syncs
  {
    if Staged(slot) in fs.entries && fs.entries[Staged(slot)].Regular? && fs.entries[Staged(slot)].inode == inode {
      var removed := fs.Remove(Staged(slot));
      if removed != Done { return false; }
    }
    var dropped := fs.RemoveStagingDir(slot);
    ok := dropped == Done;
  }

  /** The file was synced while it was staged, and the path when the file was there at last. */
  ghost predicate SafelyInPlace(syncs: seq<SyncOf>, k: nat, trace: seq<Entries>, n: nat, path: Parts, e: Entry) {
    match k < |syncs|
    case false => false
    case true =>
      && syncs[|syncs| - 1] == SyncOf(Project(path), |trace|)
      && exists slot :: SyncedSince(syncs[..|syncs| - 1], k, trace, n, Staged(slot), e)
  }

  lemma PlaceIsSafe(early: seq<SyncOf>, syncs: seq<SyncOf>, k: nat, trace: seq<Entries>, longer: seq<Entries>, n: nat, slot: nat, path: Parts, e: Entry)
    requires SyncedSince(early, k, trace, n, Staged(slot), e) && k <= |early| < |syncs| && early <= syncs && trace <= longer
    requires syncs[|syncs| - 1] == SyncOf(Project(path), |longer|)
    ensures SafelyInPlace(syncs, k, longer, n, path, e)
  {
    SyncedLater(early, syncs[..|syncs| - 1], k, k, trace, longer, n, n, Staged(slot), e);
  }

  /** `materializePlaintext` over the registered link: the plaintext appears at the path at
      once and complete, or the link stays. */
  method MaterializePlaintext(fs: FileSystem, r: Record, data: Bytes, mode: nat, mtime: int, expected: Target)
    returns (ok: bool)
    requires fs.Valid() && LinkAt(fs.entries, r) && fs.entries[Project(r.path)].target == expected
    modifies fs`entries, fs`trace, fs`syncs, fs`next, fs`destroyed
    ensures fs.Valid() && old(fs.trace) <= fs.trace
    ensures EvolvesSince(fs.trace, |old(fs.trace)|, old(fs.entries), r, data)
    ensures Evolves(old(fs.entries), fs.entries, r, data)
    ensures At(fs.entries, ObjectFile(r.id)) == At(old(fs.entries), ObjectFile(r.id))
    ensures ok ==>
      && PlainAt(fs.entries, r.path) == Some(data)
      && fs.entries[Project(r.path)].mode == mode && fs.entries[Project(r.path)].mtime == mtime
      && SameStaged(old(fs.entries), fs.entries)
    ensures !fs.projectFaulty ==> ok
    ensures old(fs.syncs) <= fs.syncs
    ensures ok ==> SafelyInPlace(fs.syncs, |old(fs.syncs)|, fs.trace, |old(fs.trace)|, r.path, fs.entries[Project(r.path)])
  {
    var staged, made, slot, inode := StagePlaintext(fs, data, mode, mtime);
    ghost var t1, e1, s1 := fs.trace, fs.entries, fs.syncs;
    SameVisibleSince(t1, |old(fs.trace)|, old(fs.entries), r, data);
    SameEvolves(old(fs.entries), e1, r, data);
    if !made { return false; }
    ok := InstallStaged(fs, r, data, staged, slot, inode, expected);
    EvolvesOn(old(fs.entries), e1, fs.entries, r, data);
    EvolvesSinceOn(t1, fs.trace, |old(fs.trace)|, old(fs.entries), e1, r, data);
    if ok {
      PlaceIsSafe(s1, fs.syncs, |old(fs.syncs)|, t1, fs.trace, |old(fs.trace)|, slot, r.path, Regular(inode, Plain(data), mode, mtime));
    }
  }

  /** What was staged is installed, if it is complete, and the rest is cleaned up. */
  method InstallStaged(fs: FileSystem, r: Record, data: Bytes, staged: bool, slot: nat, inode: nat, expected: Target) returns (ok: bool)
    requires fs.Valid() && slot < fs.next && LinkAt(fs.entries, r) && fs.entries[Project(r.path)].target == expected
    requires staged ==> var s := At(fs.entries, Staged(slot)); s.Some? && s.value.Regular? && s.value.content == Plain(data)
    modifies fs`entries, fs`trace, fs`syncs, fs`destroyed
    ensures fs.Valid() && old(fs.trace) <= fs.trace && old(fs.syncs) <= fs.syncs
    ensures EvolvesSince(fs.trace, |old(fs.trace)|, old(fs.entries), r, data)
    ensures Evolves(old(fs.entries), fs.entries, r, data)
    ensures At(fs.entries, ObjectFile(r.id)) == At(old(fs.entries), ObjectFile(r.id))
    ensures OnlyStages(old(fs.entries), fs.entries, slot)
    ensures ok ==>
      && staged && At(fs.entries, Project(r.path)) == At(old(fs.entries), Staged(slot)) && NothingStaged(fs.entries, slot)
      && |fs.syncs| > |old(fs.syncs)| && fs.syncs[|fs.syncs| - 1] == SyncOf(Project(r.path), |fs.trace|)
    ensures !fs.projectFaulty && staged ==> ok
  {
    ok := false;
    if staged { ok := AtomicInstallPlaintext(fs, r, slot, expected, data); }
    ghost var t1, e1 := fs.trace, fs.entries;
    var cleaned := CleanupStaged(fs, slot, inode);
    SameVisibleSince(fs.trace, |t1|, e1, r, data);
    SameEvolves(e1, fs.entries, r, data);
    EvolvesOn(old(fs.entries), e1, fs.entries, r, data);
    EvolvesSinceOn(t1, fs.trace, |old(fs.trace)|, old(fs.entries), e1, r, data);
    var synced := fs.Sync(Project(r.path));
    ok := ok && cleaned && synced == Done;
  }

  lemma SameVisibleSince(trace: seq<Entries>, n: nat, a: Entries, r: Record, data: Bytes)
    requires forall i | n <= i < |trace| :: SameVisible(a, trace[i])
    ensures EvolvesSince(trace, n, a, r, data)
  {
  }

  // ------------------------------------------------------ dropping ciphertext

  /** The record of the object is as it was, gone, or back as the volume's copy had it, but for a recovery
      entry; and no other changed. */
  ghost predicate RowSettled(a: Index, memory: Index, b: Index, id: string) {
    && OtherRowsKept(a, b, id)
    && var row := RowOf(b, ObjectKey(id));
    (row == RowOf(a, ObjectKey(id)) || row == NO_ROW || row == RowOf(memory, ObjectKey(id)).(recovery := None))
  }

  lemma RowIsRestored(a: Index, b: Index, c: Index, row: Row, id: string)
    requires Unrecorded(a, b, id)
    requires Apply(b, RestoreUnprotected(ObjectKey(id), row.file, row.link, row.mark, row.legacy)) == Some(c)
    ensures OtherRowsKept(a, c, id) && RowOf(c, ObjectKey(id)) == row.(recovery := None)
  {
    forall k { OperationMeans(b, RestoreUnprotected(ObjectKey(id), row.file, row.link, row.mark, row.legacy), k); }
  }

  /** `removeMaterializedCiphertext`: the index entry goes first.  If the unlink then fails,
      file, link, mark and legacy entries are put back, a recovery entry is not. */
  method RemoveMaterializedCiphertext(fs: FileSystem, r: Record, ghost data: Bytes)
    returns (removed: bool, clean: bool, restored: bool)
    requires fs.Valid() && PlainAt(fs.entries, r.path) == Some(data)
    modifies fs`entries, fs`trace, fs`syncs, fs`destroyed, fs.index`stored, fs.index`memory
    ensures fs.Valid() && old(fs.trace) <= fs.trace
    ensures EvolvesSince(fs.trace, |old(fs.trace)|, old(fs.entries), r, data)
    ensures At(fs.entries, Project(r.path)) == At(old(fs.entries), Project(r.path))
    ensures Evolves(old(fs.entries), fs.entries, r, data)
    ensures removed ==> ObjectFile(r.id) !in fs.entries && RowOf(fs.index.stored, ObjectKey(r.id)) == NO_ROW
    ensures !removed ==> At(fs.entries, ObjectFile(r.id)) == At(old(fs.entries), ObjectFile(r.id))
    ensures RowSettled(old(fs.index.stored), old(fs.index.memory), fs.index.stored, r.id)
    ensures restored ==>
      !removed && RowOf(fs.index.stored, ObjectKey(r.id)) == RowOf(old(fs.index.memory), ObjectKey(r.id)).(recovery := None)
    ensures Inclusion(old(fs.index.stored)) && Inclusion(old(fs.index.memory)) ==>
      Inclusion(fs.index.stored) && Inclusion(fs.index.memory)
    ensures !removed && !fs.index.faulty ==> restored
    ensures !fs.vaultFaulty && !fs.index.faulty ==> removed && clean
    ensures SameStaged(old(fs.entries), fs.entries)
    ensures old(fs.syncs) <= fs.syncs
    ensures clean ==> fs.syncs != [] && fs.syncs[|fs.syncs| - 1] == SyncOf(ObjectFile(r.id), |fs.trace|)
  {
    restored, clean := false, false;
    var key := ObjectKey(r.id);
    var before := fs.index.memory;
    var unindexed := fs.index.Update(RemoveFile(key));
    if !unindexed {
      if fs.index.stored != old(fs.index.stored) { RemoveFileUnrecords(old(fs.index.stored), fs.index.stored, r.id); }
      return false, false, false;
    }
    RemoveFileUnrecords(old(fs.index.stored), fs.index.stored, r.id);
    var gone := fs.Remove(ObjectFile(r.id));
    removed := gone != Failed;
    if !removed {
      restored := PutBack(fs.index, r.id, before, old(fs.index.stored));
      return;
    }
    var synced := fs.Sync(ObjectFile(r.id));
    clean := synced == Done;
  }

  /** `restoreUnprotectMetadata`. */
  method PutBack(index: MetadataStore, id: string, before: Index, ghost a: Index) returns (restored: bool)
    requires Unrecorded(a, index.stored, id)
    modifies index`stored, index`memory
    ensures RowSettled(a, before, index.stored, id)
    ensures restored ==> RowOf(index.stored, ObjectKey(id)) == RowOf(before, ObjectKey(id)).(recovery := None)
    ensures !index.faulty ==> restored
    ensures Inclusion(old(index.stored)) && Inclusion(before) ==> Inclusion(index.stored)
    ensures index.memory == old(index.memory) || index.memory == index.stored
  {
    var row := RowOf(before, ObjectKey(id));
    restored := index.Update(RestoreUnprotected(ObjectKey(id), row.file, row.link, row.mark, row.legacy));
    if restored || index.stored != old(index.stored) { RowIsRestored(a, old(index.stored), index.stored, row, id); }
  }

  // ------------------------------------------------------------- one record

  /** Whatever can be seen during and after the work on one record. */
  ghost predicate RecordStep(a: Entries, b: Entries, r: Record) {
    if StoredAt(a, r.id).Some? then Evolves(a, b, r, StoredAt(a, r.id).value) else SameVisible(a, b)
  }

  ghost predicate RecordStepSince(trace: seq<Entries>, n: nat, a: Entries, r: Record) {
    forall i | n <= i < |trace| :: RecordStep(a, trace[i], r)
  }

  /** No hard link shares the file. */
  predicate SoleName(st: Entries, name: Name) {
    name in st && st[name].Regular? &&
    forall other | other in st && other != name && st[other].Regular? :: st[other].inode != st[name].inode
  }

  /** The registered link is there, or the very plaintext already is. */
  predicate Convertible(st: Entries, r: Record, limit: nat) {
    && StoredAt(st, r.id).Some? && |StoredAt(st, r.id).value| <= limit
    && (LinkAt(st, r) || (PlainAt(st, r.path) == StoredAt(st, r.id) && SoleName(st, Project(r.path))))
  }

  const FALLBACK_MODE := 0x180

  /** `fileMeta`: the volume's copy of the index, then the index itself, then a default. */
  method MetaOf(index: MetadataStore, id: string, now: int) returns (mode: nat, mtime: int)
    modifies index`memory
    ensures index.memory == old(index.memory) || index.memory == index.stored
    ensures ObjectKey(id) in old(index.memory).files ==>
      && mode == old(index.memory).files[ObjectKey(id)].mode && mtime == old(index.memory).files[ObjectKey(id)].mtime
      && index.memory == old(index.memory)
    ensures mode == FALLBACK_MODE || (ObjectKey(id) in index.memory.files && mode == index.memory.files[ObjectKey(id)].mode)
  {
    var key := ObjectKey(id);
    if key !in index.memory.files {
      var ok := index.Refresh();
      if key !in index.memory.files { return FALLBACK_MODE, now; }
    }
    mode, mtime := index.memory.files[key].mode, index.memory.files[key].mtime;
  }

  /** `inspectUnprotectDestination`; `None` is its error. */
  method InspectDestination(fs: FileSystem, r: Record, data: Bytes, limit: nat) returns (found: Option<Option<Target>>)
    ensures found.Some? && found.value.Some? ==> LinkAt(fs.entries, r) && fs.entries[Project(r.path)].target == found.value.value
    ensures found.Some? && found.value.None? ==> PlainAt(fs.entries, r.path) == Some(data)
    ensures !fs.projectFaulty && |data| <= limit ==>
      (found.Some? <==>
        (LinkAt(fs.entries, r) || (PlainAt(fs.entries, r.path) == Some(data) && SoleName(fs.entries, Project(r.path)))))
    ensures found.Some? ==> LinkAt(fs.entries, r) || (PlainAt(fs.entries, r.path) == Some(data) && SoleName(fs.entries, Project(r.path)))
  {
    var name := Project(r.path);
    var unreadable := fs.Fault(name);
    if unreadable || name !in fs.entries { return None; }
    var entry := fs.entries[name];
    if entry.Symlink? {
      if !PointsTo(entry, r.id) { return None; }
      return Some(Some(entry.target));
    }
    if !SoleName(fs.entries, name) { return None; }
    if PlainAt(fs.entries, r.path).None? || |PlainAt(fs.entries, r.path).value| > limit { return None; }
    if PlainAt(fs.entries, r.path) != Some(data) { return None; }
    found := Some(None);
  }

  /** The plaintext and its path were synced while the ciphertext was still there. */
  ghost predicate SafeBeforeRemoval(syncs: seq<SyncOf>, k: nat, trace: seq<Entries>, n: nat, r: Record, e: Entry) {
    match r
    case Record(id, path) => exists i, slot ::
      && k <= i < |syncs| && HeldWhenSynced(syncs[i], trace, n, Project(path), e) && ObjectFile(id) in trace[syncs[i].at - 1]
      && SyncedSince(syncs[..i], k, trace, n, Staged(slot), e)
  }

  lemma RemovalIsSafe(syncs: seq<SyncOf>, later: seq<SyncOf>, k: nat, trace: seq<Entries>, longer: seq<Entries>, n: nat, r: Record, e: Entry)
    requires SafelyInPlace(syncs, k, trace, n, r.path, e) && syncs <= later && trace <= longer && n < |trace|
    requires var last := trace[|trace| - 1]; ObjectFile(r.id) in last && Project(r.path) in last && last[Project(r.path)] == e
    ensures SafeBeforeRemoval(later, k, longer, n, r, e)
  {
    var i := |syncs| - 1;
    var slot :| SyncedSince(syncs[..i], k, trace, n, Staged(slot), e);
    assert later[..i] == syncs[..i] && later[i] == syncs[i];
    SyncedLater(syncs[..i], later[..i], k, k, trace, longer, n, n, Staged(slot), e);
  }

  /** The plaintext takes the place of the link, if it is not there already. */
  method PutInPlace(fs: FileSystem, r: Record, data: Bytes, mode: nat, mtime: int, link: Option<Target>) returns (ok: bool)
    requires fs.Valid()
    requires match link
             case Some(target) => LinkAt(fs.entries, r) && fs.entries[Project(r.path)].target == target
             case None => PlainAt(fs.entries, r.path) == Some(data)
    modifies fs`entries, fs`trace, fs`syncs, fs`next, fs`destroyed
    ensures fs.Valid() && old(fs.trace) <= fs.trace && old(fs.syncs) <= fs.syncs
    ensures EvolvesSince(fs.trace, |old(fs.trace)|, old(fs.entries), r, data) && Evolves(old(fs.entries), fs.entries, r, data)
    ensures At(fs.entries, ObjectFile(r.id)) == At(old(fs.entries), ObjectFile(r.id))
    ensures ok ==> PlainAt(fs.entries, r.path) == Some(data) && SameStaged(old(fs.entries), fs.entries)
    ensures ok && link.Some? ==>
      && fs.entries[Project(r.path)].mode == mode && fs.entries[Project(r.path)].mtime == mtime
      && SafelyInPlace(fs.syncs, |old(fs.syncs)|, fs.trace, |old(fs.trace)|, r.path, fs.entries[Project(r.path)])
    ensures !fs.projectFaulty ==> ok
  {
    ok := true;
    if link.Some? { ok := MaterializePlaintext(fs, r, data, mode, mtime, link.value); }
  }

  /** `unprotectFile`: at every moment the object's bytes are its ciphertext or its plaintext
      at the record's path; a failed record keeps its ciphertext; without faults it
      succeeds exactly on a convertible record. */
  method UnprotectFile(fs: FileSystem, r: Record, limit: nat, now: int) returns (result: UnprotectResult)
    requires fs.Valid() && !fs.busy
    modifies fs`entries, fs`trace, fs`syncs, fs`next, fs`destroyed, fs.index`stored, fs.index`memory
    ensures fs.Valid() && old(fs.trace) <= fs.trace
    ensures RecordStepSince(fs.trace, |old(fs.trace)|, old(fs.entries), r)
    ensures RecordStep(old(fs.entries), fs.entries, r)
    ensures result.NotUnprotected? ==> At(fs.entries, ObjectFile(r.id)) == At(old(fs.entries), ObjectFile(r.id))
    ensures result.Unprotected? ==>
      && StoredAt(old(fs.entries), r.id).Some? && PlainAt(fs.entries, r.path) == StoredAt(old(fs.entries), r.id)
      && ObjectFile(r.id) !in fs.entries && RowOf(fs.index.stored, ObjectKey(r.id)) == NO_ROW
      && SameStaged(old(fs.entries), fs.entries)
    ensures OtherRowsKept(old(fs.index.stored), fs.index.stored, r.id)
    ensures StoredAt(old(fs.entries), r.id).None? ==> fs.index.stored == old(fs.index.stored)
    ensures result.Unprotected? && LinkAt(old(fs.entries), r) && ObjectKey(r.id) in old(fs.index.memory).files ==>
      && fs.entries[Project(r.path)].mode == old(fs.index.memory).files[ObjectKey(r.id)].mode % 512
      && fs.entries[Project(r.path)].mtime == TimeOf(old(fs.index.memory).files[ObjectKey(r.id)].mtime, now)
    ensures Inclusion(old(fs.index.stored)) && Inclusion(old(fs.index.memory)) ==>
      Inclusion(fs.index.stored) && Inclusion(fs.index.memory)
    ensures fs.Faultless() ==>
      (result.Unprotected? <==> Convertible(old(fs.entries), r, limit)) && result != Unprotected(true)
    ensures result.Unprotected? && LinkAt(old(fs.entries), r) ==>
      SafeBeforeRemoval(fs.syncs, |old(fs.syncs)|, fs.trace, |old(fs.trace)|, r, fs.entries[Project(r.path)])
    ensures result == Unprotected(false) ==> fs.syncs != [] && fs.syncs[|fs.syncs| - 1] == SyncOf(ObjectFile(r.id), |fs.trace|)
  {
    var unreadable := fs.Fault(ObjectFile(r.id));
    if unreadable || StoredAt(fs.entries, r.id).None? || |StoredAt(fs.entries, r.id).value| > limit {
      return NotUnprotected;
    }
    result := UnprotectStored(fs, r, StoredAt(fs.entries, r.id).value, limit, now);
  }

  /** Everything before the ciphertext may go. */
  method PlacePlaintext(fs: FileSystem, r: Record, data: Bytes, limit: nat, now: int) returns (ok: bool)
    requires fs.Valid() && !fs.busy && StoredAt(fs.entries, r.id) == Some(data) && |data| <= limit
    modifies fs`entries, fs`trace, fs`syncs, fs`next, fs`destroyed, fs.index`memory
    ensures fs.Valid() && old(fs.trace) <= fs.trace && old(fs.syncs) <= fs.syncs
    ensures EvolvesSince(fs.trace, |old(fs.trace)|, old(fs.entries), r, data) && Evolves(old(fs.entries), fs.entries, r, data)
    ensures At(fs.entries, ObjectFile(r.id)) == At(old(fs.entries), ObjectFile(r.id))
    ensures fs.index.memory == old(fs.index.memory) || fs.index.memory == fs.index.stored
    ensures ObjectKey(r.id) in old(fs.index.memory).files ==> fs.index.memory == old(fs.index.memory)
    ensures ok ==> PlainAt(fs.entries, r.path) == Some(data) && SameStaged(old(fs.entries), fs.entries)
    ensures ok && LinkAt(old(fs.entries), r) && ObjectKey(r.id) in old(fs.index.memory).files ==>
      && fs.entries[Project(r.path)].mode == old(fs.index.memory).files[ObjectKey(r.id)].mode % 512
      && fs.entries[Project(r.path)].mtime == TimeOf(old(fs.index.memory).files[ObjectKey(r.id)].mtime, now)
    ensures ok && LinkAt(old(fs.entries), r) ==>
      SafelyInPlace(fs.syncs, |old(fs.syncs)|, fs.trace, |old(fs.trace)|, r.path, fs.entries[Project(r.path)])
    ensures ok ==> Convertible(old(fs.entries), r, limit)
    ensures !fs.projectFaulty && Convertible(old(fs.entries), r, limit) ==> ok
  {
    var mode, mtime := MetaOf(fs.index, r.id, now);
    var found := InspectDestination(fs, r, data, limit);
    if found.None? { return false; }
    ok := PutInPlace(fs, r, data, mode % 512, TimeOf(mtime, now), found.value);
  }

  /** The object is there and can be decrypted. */
  method UnprotectStored(fs: FileSystem, r: Record, data: Bytes, limit: nat, now: int) returns (result: UnprotectResult)
    requires fs.Valid() && !fs.busy && StoredAt(fs.entries, r.id) == Some(data) && |data| <= limit
    modifies fs`entries, fs`trace, fs`syncs, fs`next, fs`destroyed, fs.index`stored, fs.index`memory
    ensures fs.Valid() && old(fs.trace) <= fs.trace
    ensures EvolvesSince(fs.trace, |old(fs.trace)|, old(fs.entries), r, data) && Evolves(old(fs.entries), fs.entries, r, data)
    ensures result.NotUnprotected? ==> At(fs.entries, ObjectFile(r.id)) == At(old(fs.entries), ObjectFile(r.id))
    ensures result.Unprotected? ==>
      && PlainAt(fs.entries, r.path) == Some(data) && ObjectFile(r.id) !in fs.entries
      && RowOf(fs.index.stored, ObjectKey(r.id)) == NO_ROW && SameStaged(old(fs.entries), fs.entries)
    ensures OtherRowsKept(old(fs.index.stored), fs.index.stored, r.id)
    ensures result.Unprotected? && LinkAt(old(fs.entries), r) && ObjectKey(r.id) in old(fs.index.memory).files ==>
      && fs.entries[Project(r.path)].mode == old(fs.index.memory).files[ObjectKey(r.id)].mode % 512
      && fs.entries[Project(r.path)].mtime == TimeOf(old(fs.index.memory).files[ObjectKey(r.id)].mtime, now)
    ensures Inclusion(old(fs.index.stored)) && Inclusion(old(fs.index.memory)) ==>
      Inclusion(fs.index.stored) && Inclusion(fs.index.memory)
    ensures fs.Faultless() ==> (result.Unprotected? <==> Convertible(old(fs.entries), r, limit)) && result != Unprotected(true)
    ensures result.Unprotected? && LinkAt(old(fs.entries), r) ==>
      SafeBeforeRemoval(fs.syncs, |old(fs.syncs)|, fs.trace, |old(fs.trace)|, r, fs.entries[Project(r.path)])
    ensures result == Unprotected(false) ==> fs.syncs != [] && fs.syncs[|fs.syncs| - 1] == SyncOf(ObjectFile(r.id), |fs.trace|)
  {
    var ok := PlacePlaintext(fs, r, data, limit, now);
    if !ok { return NotUnprotected; }
    ghost var t1, e1, s1 := fs.trace, fs.entries, fs.syncs;
    var removed, clean, restored := RemoveMaterializedCiphertext(fs, r, data);
    if LinkAt(old(fs.entries), r) { RemovalIsSafe(s1, fs.syncs, |old(fs.syncs)|, t1, fs.trace, |old(fs.trace)|, r, e1[Project(r.path)]); }
    EvolvesOn(old(fs.entries), e1, fs.entries, r, data);
    EvolvesSinceOn(t1, fs.trace, |old(fs.trace)|, old(fs.entries), e1, r, data);
    result := if removed then Unprotected(!clean) else NotUnprotected;
  }

  // -------------------------------------------------------------- whole runs

  /** Between the start of a run and any moment of it: an object's ciphertext is untouched,
      or its plaintext is at the path of one of its records; a project entry is untouched,
      or was such an object's link and is now its plaintext. */
  ghost predicate Progress(a: Entries, b: Entries, records: seq<Record>) {
    && (forall id :: At(b, ObjectFile(id)) == At(a, ObjectFile(id))
                     || (ObjectFile(id) !in b && Materialized(a, b, records, id)))
    && (forall path :: At(b, Project(path)) == At(a, Project(path)) || Converted(a, b, records, path))
  }

  ghost predicate Materialized(a: Entries, b: Entries, records: seq<Record>, id: string) {
    StoredAt(a, id).Some? && exists r :: r in records && r.id == id && PlainAt(b, r.path) == StoredAt(a, id)
  }

  ghost predicate Converted(a: Entries, b: Entries, records: seq<Record>, path: Parts) {
    PlainAt(b, path).Some? &&
    exists r :: r in records && r.path == path && LinkAt(a, r) && PlainAt(b, path) == StoredAt(a, r.id)
  }

  ghost predicate ProgressSince(trace: seq<Entries>, n: nat, a: Entries, records: seq<Record>) {
    forall i | n <= i < |trace| :: Progress(a, trace[i], records)
  }

  lemma StepKeepsObjects(a: Entries, b: Entries, c: Entries, records: seq<Record>, r: Record, id: string)
    requires Progress(a, b, records) && RecordStep(b, c, r)
    ensures At(c, ObjectFile(id)) == At(a, ObjectFile(id))
            || (ObjectFile(id) !in c && Materialized(a, c, records + [r], id))
  {
    if At(b, ObjectFile(id)) == At(a, ObjectFile(id)) {
      if At(c, ObjectFile(id)) != At(b, ObjectFile(id)) {
        assert r in records + [r] && r.id == id && PlainAt(c, r.path) == StoredAt(a, id);
      }
    } else {
      assert Materialized(a, b, records, id);
      var other :| other in records && other.id == id && PlainAt(b, other.path) == StoredAt(a, id);
      assert other in records + [r] && At(c, Project(other.path)) == At(b, Project(other.path));
    }
  }

  lemma StepKeepsProject(a: Entries, b: Entries, c: Entries, records: seq<Record>, r: Record, path: Parts)
    requires Progress(a, b, records) && RecordStep(b, c, r)
    ensures At(c, Project(path)) == At(a, Project(path)) || Converted(a, c, records + [r], path)
  {
    if At(b, Project(path)) == At(a, Project(path)) {
      if At(c, Project(path)) != At(b, Project(path)) {
        assert At(b, ObjectFile(r.id)) == At(a, ObjectFile(r.id));
        assert r in records + [r] && r.path == path && LinkAt(a, r) && PlainAt(c, path) == StoredAt(a, r.id);
      }
    } else {
      assert Converted(a, b, records, path);
      var other :| other in records && other.path == path && LinkAt(a, other) && PlainAt(b, path) == StoredAt(a, other.id);
      assert other in records + [r] && At(c, Project(path)) == At(b, Project(path));
    }
  }

  lemma StepKeepsProgress(a: Entries, b: Entries, c: Entries, records: seq<Record>, r: Record)
    requires Progress(a, b, records) && RecordStep(b, c, r)
    ensures Progress(a, c, records + [r])
  {
    forall id ensures At(c, ObjectFile(id)) == At(a, ObjectFile(id))
                      || (ObjectFile(id) !in c && Materialized(a, c, records + [r], id)) {
      StepKeepsObjects(a, b, c, records, r, id);
    }
    forall path ensures At(c, Project(path)) == At(a, Project(path)) || Converted(a, c, records + [r], path) {
      StepKeepsProject(a, b, c, records, r, path);
    }
  }

  /** A longer list allows at least as much. */
  lemma ProgressGrows(a: Entries, b: Entries, records: seq<Record>, r: Record)
    requires Progress(a, b, records)
    ensures Progress(a, b, records + [r])
  {
    assert RecordStep(b, b, r);
    StepKeepsProgress(a, b, b, records, r);
  }

  lemma ProgressSinceOn(early: seq<Entries>, trace: seq<Entries>, n: nat, a: Entries, b: Entries, records: seq<Record>, r: Record)
    requires ProgressSince(early, n, a, records) && early <= trace && Progress(a, b, records)
    requires RecordStepSince(trace, |early|, b, r)
    ensures ProgressSince(trace, n, a, records + [r])
  {
    forall i | n <= i < |trace| ensures Progress(a, trace[i], records + [r]) {
      if i < |early| {
        assert trace[i] == early[i];
        ProgressGrows(a, trace[i], records, r);
      } else {
        StepKeepsProgress(a, b, trace[i], records, r);
      }
    }
  }

  ghost predicate DistinctObjects(records: seq<Record>) {
    forall i, j | 0 <= i < j < |records| :: records[i].id != records[j].id
  }

  /** What the report says about a record is true of the disk `b`, if `a` was the disk before. */
  ghost predicate Accounted(a: Entries, b: Entries, records: seq<Record>, results: seq<UnprotectResult>, i: nat)
    requires i < |records| == |results|
  {
    match results[i]
    case Unprotected(_) =>
      && StoredAt(a, records[i].id).Some? && PlainAt(b, records[i].path) == StoredAt(a, records[i].id)
      && ObjectFile(records[i].id) !in b
    case NotUnprotected =>
      || At(b, ObjectFile(records[i].id)) == At(a, ObjectFile(records[i].id))
      || exists j :: 0 <= j < |records| && results[j].Unprotected? && records[j].id == records[i].id
  }

  ghost predicate AllAccounted(a: Entries, b: Entries, records: seq<Record>, results: seq<UnprotectResult>) {
    |records| == |results| && forall i | 0 <= i < |records| :: Accounted(a, b, records, results, i)
  }

  /** Only a record reported as unprotected can have cost an object its ciphertext. */
  lemma LossIsAccounted(a: Entries, b: Entries, records: seq<Record>, results: seq<UnprotectResult>, id: string)
    requires Progress(a, b, records) && AllAccounted(a, b, records, results)
    requires At(b, ObjectFile(id)) != At(a, ObjectFile(id))
    ensures exists j :: 0 <= j < |records| && results[j].Unprotected? && records[j].id == id
  {
    assert Materialized(a, b, records, id);
    var r :| r in records && r.id == id && PlainAt(b, r.path) == StoredAt(a, id);
    var i :| 0 <= i < |records| && records[i] == r;
    assert Accounted(a, b, records, results, i);
  }

  lemma StepKeepsAccount(a: Entries, b: Entries, c: Entries, records: seq<Record>, results: seq<UnprotectResult>,
                         r: Record, result: UnprotectResult, i: nat)
    requires Progress(a, b, records) && RecordStep(b, c, r)
    requires |records| == |results| && i < |records| && Accounted(a, b, records, results, i)
    requires result.NotUnprotected? ==> At(c, ObjectFile(r.id)) == At(b, ObjectFile(r.id))
    ensures Accounted(a, c, records + [r], results + [result], i)
  {
    var rs, out := records + [r], results + [result];
    assert rs[i] == records[i] && out[i] == results[i] && out[|records|] == result && rs[|records|] == r;
    if results[i].NotUnprotected? && At(b, ObjectFile(rs[i].id)) != At(a, ObjectFile(rs[i].id)) {
      var j :| 0 <= j < |records| && results[j].Unprotected? && records[j].id == records[i].id;
      assert out[j] == results[j] && rs[j] == records[j];
    }
  }

  lemma StepAccounts(a: Entries, b: Entries, c: Entries, records: seq<Record>, results: seq<UnprotectResult>,
                     r: Record, result: UnprotectResult)
    requires Progress(a, b, records) && RecordStep(b, c, r) && AllAccounted(a, b, records, results)
    requires result.NotUnprotected? ==> At(c, ObjectFile(r.id)) == At(b, ObjectFile(r.id))
    requires result.Unprotected? ==>
      StoredAt(b, r.id).Some? && PlainAt(c, r.path) == StoredAt(b, r.id) && ObjectFile(r.id) !in c
    ensures AllAccounted(a, c, records + [r], results + [result])
  {
    var rs, out := records + [r], results + [result];
    forall i | 0 <= i < |rs| ensures Accounted(a, c, rs, out, i) {
      if i < |records| {
        StepKeepsAccount(a, b, c, records, results, r, result, i);
      } else if result.NotUnprotected? && At(b, ObjectFile(r.id)) != At(a, ObjectFile(r.id)) {
        LossIsAccounted(a, b, records, results, r.id);
        var j :| 0 <= j < |records| && results[j].Unprotected? && records[j].id == r.id;
        assert out[j] == results[j] && rs[j] == records[j];
      }
    }
  }

  /** The object can be decrypted and its link is in place. */
  predicate Ready(st: Entries, r: Record, limit: nat) {
    StoredAt(st, r.id).Some? && |StoredAt(st, r.id).value| <= limit && LinkAt(st, r)
  }

  ghost predicate AllReady(st: Entries, records: seq<Record>, allowed: set<Parts>, limit: nat) {
    && (forall i | 0 <= i < |records| :: records[i].path in allowed && Ready(st, records[i], limit))
    && (forall i, j | 0 <= i < j < |records| :: records[i].id != records[j].id && records[i].path != records[j].path)
  }

  /** Work on one record leaves the others ready. */
  lemma RestStaysReady(a: Entries, b: Entries, records: seq<Record>, allowed: set<Parts>, limit: nat)
    requires records != [] && AllReady(a, records, allowed, limit) && RecordStep(a, b, records[0])
    ensures AllReady(b, records[1..], allowed, limit)
  {
    forall i | 0 <= i < |records[1..]| ensures Ready(b, records[1..][i], limit) {
      var r := records[1..][i];
      assert r == records[i + 1] && Ready(a, r, limit);
      assert At(b, ObjectFile(r.id)) == At(a, ObjectFile(r.id)) && At(b, Project(r.path)) == At(a, Project(r.path));
    }
  }

  /** The records whose destinations are allowed. */
  function Permitted(records: seq<Record>, allowed: set<Parts>): seq<Record> {
    if records == [] then []
    else
      var r, before := records[|records| - 1], Permitted(records[..|records| - 1], allowed);
      if r.path in allowed then before + [r] else before
  }

  lemma {:induction false} PermittedOnes(records: seq<Record>, allowed: set<Parts>, r: Record)
    ensures r in Permitted(records, allowed) <==> r in records && r.path in allowed
  {
    if records != [] {
      PermittedOnes(records[..|records| - 1], allowed, r);
      assert records == records[..|records| - 1] + [records[|records| - 1]];
    }
  }

  /** Work on permitted records is work on some of the records. */
  lemma PermittedIsProgress(a: Entries, b: Entries, records: seq<Record>, allowed: set<Parts>)
    requires Progress(a, b, Permitted(records, allowed))
    ensures Progress(a, b, records)
  {
    forall r | r in Permitted(records, allowed) ensures r in records { PermittedOnes(records, allowed, r); }
    forall path | Converted(a, b, Permitted(records, allowed), path) ensures Converted(a, b, records, path) {
      var r :| r in Permitted(records, allowed) && r.path == path && LinkAt(a, r) && PlainAt(b, path) == StoredAt(a, r.id);
      assert r in records;
    }
    forall id | Materialized(a, b, Permitted(records, allowed), id) ensures Materialized(a, b, records, id) {
      var r :| r in Permitted(records, allowed) && r.id == id && PlainAt(b, r.path) == StoredAt(a, id);
      assert r in records;
    }
  }

  /** What a run did to the index: the objects it unprotected are forgotten, and those it did not work on
      are as they were. */
  ghost predicate IndexSettled(a: Index, b: Index, records: seq<Record>, results: seq<UnprotectResult>)
    requires |records| == |results|
  {
    && (forall k | (forall i | 0 <= i < |records| :: ObjectKey(records[i].id) != k) :: RowOf(b, k) == RowOf(a, k))
    && (forall i | 0 <= i < |records| && results[i].Unprotected? :: RowOf(b, ObjectKey(records[i].id)) == NO_ROW)
  }

  lemma IndexSettles(a: Index, b: Index, c: Index, records: seq<Record>, results: seq<UnprotectResult>, r: Record, result: UnprotectResult)
    requires |records| == |results| && IndexSettled(a, b, records, results) && OtherRowsKept(b, c, r.id)
    requires result.Unprotected? ==> RowOf(c, ObjectKey(r.id)) == NO_ROW
    requires (exists i :: 0 <= i < |records| && results[i].Unprotected? && records[i].id == r.id) ==> c == b
    ensures IndexSettled(a, c, records + [r], results + [result])
  {
    var rs, out := records + [r], results + [result];
    forall k | forall i | 0 <= i < |rs| :: ObjectKey(rs[i].id) != k ensures RowOf(c, k) == RowOf(a, k) {
      assert rs[|records|] == r;
      assert forall i | 0 <= i < |records| :: rs[i] == records[i];
    }
    forall i | 0 <= i < |rs| && out[i].Unprotected? ensures RowOf(c, ObjectKey(rs[i].id)) == NO_ROW {
      if i < |records| { assert rs[i] == records[i] && out[i] == results[i]; }
    }
  }

  /** If the index and the volume's copy were in order, they are. */
  ghost predicate InclusionKept(stored: Index, memory: Index, nowStored: Index, nowMemory: Index) {
    match Inclusion(stored) && Inclusion(memory)
    case true => Inclusion(nowStored) && Inclusion(nowMemory)
    case false => true
  }

  /** One record of the run: one with a forbidden destination fails, and nothing happens. */
  method UnprotectNext(fs: FileSystem, r: Record, allowed: set<Parts>, limit: nat, now: int) returns (result: UnprotectResult)
    requires fs.Valid() && !fs.busy
    modifies fs`entries, fs`trace, fs`syncs, fs`next, fs`destroyed, fs.index`stored, fs.index`memory
    ensures fs.Valid() && old(fs.trace) <= fs.trace
    ensures RecordDone(old(fs.trace), fs.trace, old(fs.index.stored), fs.index.stored, r, result, allowed)
    ensures RecordStep(old(fs.entries), fs.entries, r)
    ensures r.path !in allowed ==> result.NotUnprotected? && fs.destroyed == old(fs.destroyed)
    ensures InclusionKept(old(fs.index.stored), old(fs.index.memory), fs.index.stored, fs.index.memory)
    ensures fs.Faultless() && r.path in allowed && Ready(old(fs.entries), r, limit) ==> result == Unprotected(false)
  {
    if r.path !in allowed { return NotUnprotected; }
    result := UnprotectFile(fs, r, limit, now);
  }

  lemma PermittedSinceOn(early: seq<Entries>, trace: seq<Entries>, n: nat, a: Entries, b: Entries, records: seq<Record>,
                         allowed: set<Parts>, r: Record)
    requires n <= |early| && ProgressSince(early, n, a, Permitted(records, allowed)) && early <= trace
    requires early != [] && b == early[|early| - 1] && Progress(a, b, Permitted(records, allowed))
    requires RecordStepSince(trace, |early|, b, r) && (r.path !in allowed ==> trace == early)
    ensures ProgressSince(trace, n, a, Permitted(records + [r], allowed))
    ensures Progress(a, trace[|trace| - 1], Permitted(records + [r], allowed))
  {
    assert (records + [r])[..|records|] == records;
    var before := Permitted(records, allowed);
    if r.path in allowed {
      ProgressSinceOn(early, trace, n, a, b, before, r);
      if |trace| > |early| {
        StepKeepsProgress(a, b, trace[|trace| - 1], before, r);
      } else {
        ProgressGrows(a, b, before, r);
      }
    }
  }

  /** `unprotectRecords` over any list of records, with any steps failing.  `allowed` are the
      destinations outside the forbidden roots; other records fail, and leave the disk alone.

      At every moment of the run each object's bytes are stored as ciphertext or present,
      exactly, at the path of one of its records, and no user file was altered; and the
      report is true.  Without faults all records that are ready are unprotected. */
  method UnprotectRecords(fs: FileSystem, records: seq<Record>, allowed: set<Parts>, limit: nat, now: int)
    returns (results: seq<UnprotectResult>)
    requires fs.Valid() && !fs.busy
    modifies fs`entries, fs`trace, fs`syncs, fs`next, fs`destroyed, fs.index`stored, fs.index`memory
    ensures fs.Valid() && old(fs.trace) <= fs.trace
    ensures RunKept(fs.trace, |old(fs.trace)|, old(fs.entries), old(fs.index.stored), fs.index.stored, records, results, allowed)
    ensures InclusionKept(old(fs.index.stored), old(fs.index.memory), fs.index.stored, fs.index.memory)
    ensures fs.Faultless() && AllReady(old(fs.entries), records, allowed, limit) ==>
      forall i | 0 <= i < |results| :: results[i] == Unprotected(false)
  {
    RunBegins(fs.trace, fs.index.stored, records, allowed, fs.Faultless(), limit);
    results := [];
    var i := 0;
    while i < |records|
      invariant 0 <= i <= |records| && fs.Valid() && old(fs.trace) <= fs.trace
      invariant RunKept(fs.trace, |old(fs.trace)|, old(fs.entries), old(fs.index.stored), fs.index.stored, records[..i], results, allowed)
      invariant InclusionKept(old(fs.index.stored), old(fs.index.memory), fs.index.stored, fs.index.memory)
      invariant ReadyKept(fs.Faultless(), old(fs.entries), fs.entries, records, results, allowed, limit, i)
    {
      var result := UnprotectAt(fs, records, i, results, allowed, limit, now, |old(fs.trace)|, old(fs.entries), old(fs.index.stored), old(fs.index.memory));
      i, results := i + 1, results + [result];
    }
    assert records[..i] == records;
  }

  /** The next record of a run that began at `a` with this index and copy. */
  method UnprotectAt(fs: FileSystem, records: seq<Record>, i: nat, ghost results: seq<UnprotectResult>, allowed: set<Parts>, limit: nat, now: int,
                     ghost n: nat, ghost a: Entries, ghost stored: Index, ghost memory: Index)
    returns (result: UnprotectResult)
    requires fs.Valid() && !fs.busy && i < |records|
    requires RunKept(fs.trace, n, a, stored, fs.index.stored, records[..i], results, allowed)
    requires InclusionKept(stored, memory, fs.index.stored, fs.index.memory)
    requires ReadyKept(fs.Faultless(), a, fs.entries, records, results, allowed, limit, i)
    modifies fs`entries, fs`trace, fs`syncs, fs`next, fs`destroyed, fs.index`stored, fs.index`memory
    ensures fs.Valid() && old(fs.trace) <= fs.trace
    ensures RunKept(fs.trace, n, a, stored, fs.index.stored, records[..i + 1], results + [result], allowed)
    ensures InclusionKept(stored, memory, fs.index.stored, fs.index.memory)
    ensures ReadyKept(fs.Faultless(), a, fs.entries, records, results + [result], allowed, limit, i + 1)
  {
    result := UnprotectNext(fs, records[i], allowed, limit, now);
    RunGoesOn(old(fs.trace), fs.trace, n, a, stored, old(fs.index.stored), fs.index.stored, records, results, allowed, i, result);
    RestGoesOn(fs.Faultless(), a, old(fs.entries), fs.entries, records, results, allowed, limit, i, result);
  }

  /** Everything a run over these records has kept and reported. */
  ghost predicate RunKept(trace: seq<Entries>, n: nat, a: Entries, m: Index, now: Index, records: seq<Record>,
                           results: seq<UnprotectResult>, allowed: set<Parts>) {
    match n <= |trace| && trace != []
    case false => false
    case true =>
      && |records| == |results|
      && ProgressSince(trace, n, a, Permitted(records, allowed)) && Progress(a, trace[|trace| - 1], Permitted(records, allowed))
      && AllAccounted(a, trace[|trace| - 1], records, results) && IndexSettled(m, now, records, results)
      && forall i | 0 <= i < |records| && records[i].path !in allowed :: results[i].NotUnprotected?
  }

  predicate AllUnprotected(results: seq<UnprotectResult>) { forall i | 0 <= i < |results| :: results[i] == Unprotected(false) }

  lemma RunBegins(trace: seq<Entries>, m: Index, records: seq<Record>, allowed: set<Parts>, faultless: bool, limit: nat)
    requires trace != []
    ensures RunKept(trace, |trace|, trace[|trace| - 1], m, m, records[..0], [], allowed)
    ensures ReadyKept(faultless, trace[|trace| - 1], trace[|trace| - 1], records, [], allowed, limit, 0)
  {
    assert records[..0] == [] && records[0..] == records;
  }

  lemma RunGoesOn(early: seq<Entries>, trace: seq<Entries>, n: nat, a: Entries, m: Index, before: Index, now: Index,
                  all: seq<Record>, results: seq<UnprotectResult>, allowed: set<Parts>, i: nat, result: UnprotectResult)
    requires i < |all| && RunKept(early, n, a, m, before, all[..i], results, allowed) && early != [] && early <= trace
    requires RecordDone(early, trace, before, now, all[i], result, allowed)
    ensures RunKept(trace, n, a, m, now, all[..i + 1], results + [result], allowed)
  {
    var records, r := all[..i], all[i];
    assert all[..i + 1] == records + [r];
    var b, c := early[|early| - 1], trace[|trace| - 1];
    PermittedIsProgress(a, b, records, allowed);
    StepAccounts(a, b, c, records, results, r, result);
    PermittedSinceOn(early, trace, n, a, b, records, allowed, r);
    UnprotectedIsGone(a, b, records, results, r);
    IndexSettles(m, before, now, records, results, r, result);
  }

  /** What the work on one record did and reported. */
  ghost predicate RecordDone(early: seq<Entries>, trace: seq<Entries>, before: Index, now: Index, r: Record, result: UnprotectResult, allowed: set<Parts>) {
    match early == [] || trace == []
    case true => false
    case false =>
      var b, c := early[|early| - 1], trace[|trace| - 1];
      && RecordStepSince(trace, |early|, b, r) && RecordStep(b, c, r) && Reports(b, c, r, result)
      && (r.path !in allowed ==> result.NotUnprotected? && trace == early)
      && (r.path !in allowed || StoredAt(b, r.id).None? ==> now == before)
      && OtherRowsKept(before, now, r.id) && (result.Unprotected? ==> RowOf(now, ObjectKey(r.id)) == NO_ROW)
  }

  /** The result of one record is true. */
  predicate Reports(b: Entries, c: Entries, r: Record, result: UnprotectResult) {
    && (result.NotUnprotected? ==> At(c, ObjectFile(r.id)) == At(b, ObjectFile(r.id)))
    && (result.Unprotected? ==>
          StoredAt(b, r.id).Some? && PlainAt(c, r.path) == StoredAt(b, r.id) && ObjectFile(r.id) !in c)
  }

  /** If nothing fails and all records were ready, those to come still are, and the others succeeded. */
  ghost predicate ReadyKept(faultless: bool, a: Entries, st: Entries, records: seq<Record>, results: seq<UnprotectResult>,
                            allowed: set<Parts>, limit: nat, i: nat) {
    match faultless && AllReady(a, records, allowed, limit)
    case true => i <= |records| && AllReady(st, records[i..], allowed, limit) && AllUnprotected(results)
    case false => true
  }

  lemma RestGoesOn(faultless: bool, a: Entries, b: Entries, c: Entries, records: seq<Record>, results: seq<UnprotectResult>,
                   allowed: set<Parts>, limit: nat, i: nat, result: UnprotectResult)
    requires i < |records| && RecordStep(b, c, records[i]) && ReadyKept(faultless, a, b, records, results, allowed, limit, i)
    requires faultless && records[i].path in allowed && Ready(b, records[i], limit) ==> result == Unprotected(false)
    ensures ReadyKept(faultless, a, c, records, results + [result], allowed, limit, i + 1)
  {
    assert records[i..][0] == records[i] && records[i..][1..] == records[i + 1..];
    if faultless && AllReady(a, records, allowed, limit) { RestStaysReady(b, c, records[i..], allowed, limit); }
  }

  /** An object that was unprotected is not stored any more. */
  lemma UnprotectedIsGone(a: Entries, b: Entries, records: seq<Record>, results: seq<UnprotectResult>, r: Record)
    requires AllAccounted(a, b, records, results)
    ensures (exists i :: 0 <= i < |records| && results[i].Unprotected? && records[i].id == r.id) ==> StoredAt(b, r.id).None?
  {
    if i :| 0 <= i < |records| && results[i].Unprotected? && records[i].id == r.id {
      assert Accounted(a, b, records, results, i);
    }
  }

  /** The volume lists each object once, and then every failed record still has its ciphertext. */
  lemma FailedRecordsKeepCiphertext(a: Entries, b: Entries, records: seq<Record>, results: seq<UnprotectResult>, i: nat)
    requires AllAccounted(a, b, records, results) && DistinctObjects(records)
    requires i < |records| && results[i].NotUnprotected?
    ensures At(b, ObjectFile(records[i].id)) == At(a, ObjectFile(records[i].id))
  {
    assert Accounted(a, b, records, results, i);
    assert forall j | 0 <= j < |records| :: records[j].id == records[i].id ==> i == j;
  }

  /** No byte is lost: an object stored before is stored or readable at every later moment. */
  lemma BytesAreNeverLost(a: Entries, b: Entries, records: seq<Record>, id: string)
    requires Progress(a, b, records) && StoredAt(a, id).Some?
    ensures StoredAt(b, id) == StoredAt(a, id)
            || exists r :: r in records && r.id == id && PlainAt(b, r.path) == StoredAt(a, id)
  {
  }

  /** Anything but a protected link is exactly as it was: user files are not altered. */
  lemma UserFilesAreUntouched(a: Entries, b: Entries, records: seq<Record>, path: Parts)
    requires Progress(a, b, records)
    requires Project(path) in a ==> !a[Project(path)].Symlink?
    ensures At(b, Project(path)) == At(a, Project(path))
  {
    assert At(b, Project(path)) == At(a, Project(path)) || Converted(a, b, records, path);
  }
}
