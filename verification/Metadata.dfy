/** The vault's metadata index: its operations, its replacement on disk, and its repair
  at start-up.
*/
module Metadata {
  import opened Optional
  import opened DirectoryMoves

  /** A storage path, which is or is not a well-formed object name. */
  datatype Key = ObjectKey(id: string) | ForeignKey(name: string)

  datatype FileMeta = FileMeta(size: nat, mode: nat, mtime: int, atime: int, inode: nat)

  datatype RecoveryState = Trash | Conflict

  datatype RecoveryEntry = RecoveryEntry(path: Parts, state: RecoveryState, reason: string, observed: int)

  /** What a symbolic link points at: an object of some mount, or anything else. */
  datatype Target = ByID(mount: Parts, id: string) | Elsewhere(path: Parts)

  const FORMAT_VERSION := 3
  const NO_LINK := Relative([])

  /** `displaced` is only present in metadata of older versions. */
  datatype Index = Index(
    version: int,
    files: map<Key, FileMeta>,
    links: map<Key, Location>,
    orphaned: map<Key, int>,
    recovery: map<Key, RecoveryEntry>,
    legacy: map<Key, Target>,
    displaced: bool)

  /** A missing entry reads as the empty path. */
  function LinkOf(m: Index, k: Key): Location { if k in m.links then m.links[k] else NO_LINK }

  /** A missing mark reads as zero, and a zero mark is no mark. */
  function MarkOf(m: Index, k: Key): int { if k in m.orphaned then m.orphaned[k] else 0 }

  /** Link, orphan, recovery and legacy entries exist only for indexed objects. */
  predicate Inclusion(m: Index) {
    m.links.Keys <= m.files.Keys && m.orphaned.Keys <= m.files.Keys
    && m.recovery.Keys <= m.files.Keys && m.legacy.Keys <= m.files.Keys
  }

  /** No object is both orphaned and in recovery. */
  predicate Settled(m: Index) { forall k | k in m.recovery :: MarkOf(m, k) == 0 }

  // ------------------------------------------------------------- operations

  datatype Operation =
    | SetFile(key: Key, meta: FileMeta, now: int, freshInode: nat)
    | RemoveFile(key: Key)
    | SetLinkSource(key: Key, source: Parts)
    | MarkOrphan(key: Key, now: int)
    | ClearOrphan(key: Key)
    | MarkRecovery(key: Key, state: RecoveryState, reason: string, now: int)
    | Rebase(move: Move)
    | RestoreLink(key: Key)
    | RestoreUnprotected(key: Key, file: Option<FileMeta>, link: Option<Location>, mark: Option<int>, target: Option<Target>)
    | TouchAccess(times: map<Key, int>)

  function WithFile(m: Index, key: Key, meta: FileMeta, now: int, freshInode: nat): Index {
    var inode :=
      if meta.inode >= 2 then meta.inode
      else if key in m.files && m.files[key].inode >= 2 then m.files[key].inode
      else freshInode;
    m.(files := m.files[key := meta.(mode := meta.mode % 512, inode := inode)],
       orphaned := if key !in m.files && LinkOf(m, key) == NO_LINK then m.orphaned[key := now] else m.orphaned)
  }

  function WithoutFile(m: Index, key: Key): Index {
    m.(files := m.files - {key}, links := m.links - {key}, orphaned := m.orphaned - {key},
       recovery := m.recovery - {key}, legacy := m.legacy - {key})
  }

  /** A link was registered or found again: every doubt about the object is cleared. */
  function WithLink(m: Index, key: Key, source: Parts): Index {
    m.(links := m.links[key := Absolute(source)], orphaned := m.orphaned - {key},
       recovery := m.recovery - {key}, legacy := m.legacy - {key})
  }

  function WithRecovery(m: Index, key: Key, path: Parts, state: RecoveryState, reason: string, now: int): Index {
    m.(recovery := m.recovery[key := RecoveryEntry(path, state, reason, now)],
       orphaned := m.orphaned - {key}, legacy := m.legacy - {key})
  }

  function WithAccess(m: Index, times: map<Key, int>): Index {
    m.(files := map k | k in m.files ::
         if k in times && times[k] > m.files[k].atime then m.files[k].(atime := times[k]) else m.files[k])
  }

  function Put<V>(entries: map<Key, V>, key: Key, value: Option<V>): map<Key, V> {
    if value.Some? then entries[key := value.value] else entries
  }

  /** The closure each operation hands to `updateMetadataLocked`; `None` is its error. */
  function Apply(m: Index, op: Operation): Option<Index> {
    match op
    case SetFile(key, meta, now, freshInode) => Some(WithFile(m, key, meta, now, freshInode))
    case RemoveFile(key) => Some(WithoutFile(m, key))
    case SetLinkSource(key, source) =>
      if key !in m.files then None else Some(WithLink(m, key, source))
    case MarkOrphan(key, now) =>
      if key !in m.files then None
      else if MarkOf(m, key) != 0 then Some(m)
      else Some(m.(orphaned := m.orphaned[key := now]))
    case ClearOrphan(key) =>
      Some(m.(orphaned := m.orphaned - {key}, recovery := m.recovery - {key}, legacy := m.legacy - {key}))
    case MarkRecovery(key, state, reason, now) =>
      if key !in m.files then None
      else
        var path := if key in m.recovery then Absolute(m.recovery[key].path) else LinkOf(m, key);
        if !path.Absolute? then None else Some(WithRecovery(m, key, path.parts, state, reason, now))
    case Rebase(move) => Some(m.(links := RebasedAll(move, m.links)))
    case RestoreLink(key) =>
      if key !in m.recovery then None else Some(WithLink(m, key, m.recovery[key].path))
    case RestoreUnprotected(key, meta, link, mark, target) =>
      Some(m.(files := Put(m.files, key, meta), links := Put(m.links, key, link),
              orphaned := Put(m.orphaned, key, mark), legacy := Put(m.legacy, key, target)))
    case TouchAccess(times) => Some(WithAccess(m, times))
  }

  // ------------------------------------------------- the index as a table

  function Lookup<V>(entries: map<Key, V>, k: Key): Option<V> { if k in entries then Some(entries[k]) else None }

  /** Everything the index holds about one object. */
  datatype Row = Row(file: Option<FileMeta>, link: Option<Location>, mark: Option<int>, recovery: Option<RecoveryEntry>, legacy: Option<Target>)

  function RowOf(m: Index, k: Key): Row {
    Row(Lookup(m.files, k), Lookup(m.links, k), Lookup(m.orphaned, k), Lookup(m.recovery, k), Lookup(m.legacy, k))
  }

  const NO_ROW := Row(None, None, None, None, None)

  /** All operations but two name the object they are about. */
  predicate About(op: Operation, k: Key) { op.Rebase? || op.TouchAccess? || op.key == k }

  /** The record as given, but for permission bits and the inode, which is only replaced if it is missing:
      first by the recorded one. */
  predicate Records(was: Option<FileMeta>, now: FileMeta, meta: FileMeta, freshInode: nat) {
    && now.size == meta.size && now.mode == meta.mode % 512 && now.mtime == meta.mtime && now.atime == meta.atime
    && (meta.inode >= 2 ==> now.inode == meta.inode)
    && (meta.inode < 2 && was.Some? && was.value.inode >= 2 ==> now.inode == was.value.inode)
    && (meta.inode < 2 && (was.None? || was.value.inode < 2) ==> now.inode == freshInode)
  }

  /** An object that is new to the index and has no link. */
  predicate NewAndUnlinked(row: Row) { row.file.None? && (row.link.None? || row.link.value == NO_LINK) }

  /** The path a recovery entry is about: that of an existing entry, or else the registered one. */
  predicate RecoveryPath(row: Row, path: Parts) {
    match row.recovery
    case Some(entry) => entry.path == path
    case None => row.link == Some(Absolute(path))
  }

  /** What an operation means for the row of an object it is about. */
  predicate RowBecomes(was: Row, now: Row, k: Key, op: Operation) {
    match op
    case SetFile(_, meta, time, freshInode) =>
      && now == was.(file := now.file, mark := now.mark)
      && now.file.Some? && Records(was.file, now.file.value, meta, freshInode)
      && now.mark == if NewAndUnlinked(was) then Some(time) else was.mark
    case RemoveFile(_) => now == Row(None, None, None, None, None)
    case SetLinkSource(_, source) => was.file.Some? && now == Row(was.file, Some(Absolute(source)), None, None, None)
    case MarkOrphan(_, time) =>
      was.file.Some? && now == was.(mark := now.mark)
      && now.mark == if was.mark == None || was.mark == Some(0) then Some(time) else was.mark
    case ClearOrphan(_) => now == Row(was.file, was.link, None, None, None)
    case MarkRecovery(_, state, reason, time) =>
      && was.file.Some? && now == Row(was.file, was.link, None, now.recovery, None) && now.recovery.Some?
      && RecoveryPath(was, now.recovery.value.path)
      && now.recovery == Some(RecoveryEntry(now.recovery.value.path, state, reason, time))
    case Rebase(move) =>
      now == was.(link := now.link) && (now.link.Some? <==> was.link.Some?)
      && (was.link.Some? ==> now.link == Some(Rebased(move, was.link.value)))
    case RestoreLink(_) =>
      was.recovery.Some? && now == Row(was.file, Some(Absolute(was.recovery.value.path)), None, None, None)
    case RestoreUnprotected(_, meta, link, mark, target) =>
      && (meta.Some? ==> now.file == meta) && (link.Some? ==> now.link == link)
      && (mark.Some? ==> now.mark == mark) && (target.Some? ==> now.legacy == target)
      && now == was.(file := if meta.Some? then now.file else was.file, link := if link.Some? then now.link else was.link,
                     mark := if mark.Some? then now.mark else was.mark, legacy := if target.Some? then now.legacy else was.legacy)
    case TouchAccess(times) =>
      && now == was.(file := now.file) && (now.file.Some? <==> was.file.Some?)
      && (was.file.Some? ==> AccessRaised(was.file.value, now.file.value, Lookup(times, k)))
  }

  predicate AccessRaised(was: FileMeta, now: FileMeta, time: Option<int>) {
    && now == was.(atime := now.atime) && now.atime >= was.atime
    && (time.Some? ==> now.atime >= time.value) && (now.atime == was.atime || Some(now.atime) == time)
  }

  /** An operation fails exactly on objects that are not indexed, have no absolute path to recover, or
      nothing to restore. */
  ghost predicate Refused(row: Row, op: Operation) {
    match op
    case SetLinkSource(_, _) => row.file.None?
    case MarkOrphan(_, _) => row.file.None?
    case MarkRecovery(_, _, _, _) => row.file.None? || !exists path :: RecoveryPath(row, path)
    case RestoreLink(_) => row.recovery.None?
    case _ => false
  }

  lemma RowsApart(m: Index, op: Operation, k: Key)
    requires Apply(m, op).Some? && !About(op, k)
    ensures RowOf(Apply(m, op).value, k) == RowOf(m, k)
  {
  }

  lemma RowGiven(m: Index, op: Operation, k: Key)
    requires Apply(m, op).Some? && About(op, k) && (op.SetFile? || op.RestoreUnprotected? || op.Rebase? || op.TouchAccess?)
    ensures RowBecomes(RowOf(m, k), RowOf(Apply(m, op).value, k), k, op)
  {
    match op
    case SetFile(_, _, _, _) =>
    case Rebase(_) =>
    case RestoreUnprotected(_, _, _, _, _) =>
    case TouchAccess(_) =>
  }

  lemma RowConcluded(m: Index, op: Operation, k: Key)
    requires Apply(m, op).Some? && About(op, k) && !(op.SetFile? || op.RestoreUnprotected? || op.Rebase? || op.TouchAccess?)
    ensures RowBecomes(RowOf(m, k), RowOf(Apply(m, op).value, k), k, op)
  {
    match op
    case RemoveFile(_) =>
    case SetLinkSource(_, _) =>
    case MarkOrphan(_, _) =>
    case ClearOrphan(_) =>
    case MarkRecovery(_, _, _, _) =>
    case RestoreLink(_) =>
  }

  /** The index is a table: an operation changes the row of the object it is about as it should, and no
      other. */
  lemma OperationMeans(m: Index, op: Operation, k: Key)
    requires Apply(m, op).Some?
    ensures var after := Apply(m, op).value;
            && after.version == m.version && after.displaced == m.displaced
            && if About(op, k) then RowBecomes(RowOf(m, k), RowOf(after, k), k, op) else RowOf(after, k) == RowOf(m, k)
  {
    if !About(op, k) {
      RowsApart(m, op, k);
    } else if op.SetFile? || op.RestoreUnprotected? || op.Rebase? || op.TouchAccess? {
      RowGiven(m, op, k);
    } else {
      RowConcluded(m, op, k);
    }
  }

  lemma OperationRefusedIff(m: Index, op: Operation)
    ensures Apply(m, op).None? <==> !op.Rebase? && !op.TouchAccess? && Refused(RowOf(m, op.key), op)
  {
    if op.MarkRecovery? && Apply(m, op).Some? {
      var path := if op.key in m.recovery then m.recovery[op.key].path else LinkOf(m, op.key).parts;
      assert RecoveryPath(RowOf(m, op.key), path);
    }
  }

  /** What an operation is given: restored entries were read together from one consistent
      index, after recovery entries of the object had been dropped. */
  predicate Meaningful(m: Index, op: Operation) {
    match op
    case RestoreUnprotected(key, meta, link, mark, target) =>
      (meta.None? ==> link.None? && mark.None? && target.None?) && key !in m.recovery
    case _ => true
  }

  /** Every operation keeps link, orphan, recovery and legacy entries within the index. */
  lemma OperationKeepsInclusion(m: Index, op: Operation)
    requires Inclusion(m) && Meaningful(m, op) && Apply(m, op).Some?
    ensures Inclusion(Apply(m, op).value)
  {
  }

  /** No object becomes orphaned and recovering at once, except exactly by marking an
      object as orphaned that is already in recovery. */
  lemma OperationKeepsSettledIff(m: Index, op: Operation)
    requires Inclusion(m) && Settled(m) && Meaningful(m, op) && Apply(m, op).Some?
    ensures Settled(Apply(m, op).value)
            <==> !(op.MarkOrphan? && op.key in m.recovery && op.now != 0)
  {
    var after := Apply(m, op).value;
    if op.MarkOrphan? && op.key in m.recovery {
      assert op.key in after.recovery && MarkOf(after, op.key) == op.now;
      assert forall k | k in after.recovery && k != op.key :: MarkOf(after, k) == MarkOf(m, k);
    } else {
      forall k | k in after.recovery ensures MarkOf(after, k) == 0 {
        assert k in m.recovery ==> MarkOf(m, k) == 0;
      }
    }
  }

  function ApplyAll(m: Index, ops: seq<Operation>): Index {
    if ops == [] then m
    else
      var before := ApplyAll(m, ops[..|ops| - 1]);
      var last := Apply(before, ops[|ops| - 1]);
      if last.None? then before else last.value
  }

  ghost predicate AllMeaningful(m: Index, ops: seq<Operation>) {
    forall i | 0 <= i < |ops| :: Meaningful(ApplyAll(m, ops[..i]), ops[i])
  }

  lemma {:induction false} RunKeepsInclusion(m: Index, ops: seq<Operation>)
    requires Inclusion(m) && AllMeaningful(m, ops)
    ensures Inclusion(ApplyAll(m, ops))
  {
    if ops != [] {
      var n := |ops| - 1;
      forall i | 0 <= i < n ensures Meaningful(ApplyAll(m, ops[..n][..i]), ops[..n][i]) {
        assert ops[..n][..i] == ops[..i];
      }
      RunKeepsInclusion(m, ops[..n]);
      var before := ApplyAll(m, ops[..n]);
      if Apply(before, ops[n]).Some? { OperationKeepsInclusion(before, ops[n]); }
    }
  }

  /** Passes, registrations and repairs of links never drop an indexed object. */
  lemma OnlyRemovalDropsFiles(m: Index, op: Operation)
    requires Apply(m, op).Some? && !op.RemoveFile?
    ensures m.files.Keys <= Apply(m, op).value.files.Keys
  {
  }

  // ------------------------------------------------- replacement on disk

  /** The metadata file and the volume's copy of it. */
  class MetadataStore {
    var stored: Index
    var memory: Index
    const faulty: bool

    constructor (index: Index, faulty: bool)
      ensures stored == index && memory == index && this.faulty == faulty
    {
      stored, memory, this.faulty := index, index, faulty;
    }

    /** `updateMetadataLocked`: the whole replacement is persisted before it is published.
        `WriteFileAtomic` can still report a failure after the rename took effect. */
    method Update(op: Operation) returns (ok: bool)
      modifies this`stored, this`memory
      ensures ok ==> Apply(old(stored), op) == Some(stored) && memory == stored
      ensures !ok ==> memory == old(memory)
      ensures !ok ==> stored == old(stored) || Apply(old(stored), op) == Some(stored)
      ensures !faulty ==> (ok <==> Apply(old(stored), op).Some?)
      ensures Inclusion(old(stored)) && Meaningful(old(stored), op) ==> Inclusion(stored)
    {
      var readable: bool := *;
      if faulty && !readable { return false; }
      var next := Apply(stored, op);
      if next.None? { return false; }
      OperationKeepsInclusionIf(stored, op);
      var renamed: bool := *;
      if faulty && !renamed { return false; }
      stored := next.value;
      var synced: bool := *;
      if faulty && !synced { return false; }
      memory := next.value;
      ok := true;
    }

    lemma OperationKeepsInclusionIf(m: Index, op: Operation)
      requires Apply(m, op).Some?
      ensures Inclusion(m) && Meaningful(m, op) ==> Inclusion(Apply(m, op).value)
    {
      if Inclusion(m) && Meaningful(m, op) { OperationKeepsInclusion(m, op); }
    }

    /** `refreshMetadata`, without pending access times. */
    method Refresh() returns (ok: bool)
      modifies this`memory
      ensures ok ==> memory == stored
      ensures !ok ==> memory == old(memory)
      ensures !faulty ==> ok
    {
      ok := *;
      ok := ok || !faulty;
      if ok { memory := stored; }
    }
  }

  // ----------------------------------------------------------------- repair

  /** What start-up found in the object directory: a fallback record per ciphertext. */
  predicate ScanResult(actual: map<Key, FileMeta>) {
    forall k | k in actual :: k.ObjectKey? && actual[k].inode >= 2
  }

  predicate Kept(actual: map<Key, FileMeta>, k: Key) { k in actual || k.ObjectKey? }

  function RepairedMeta(actual: map<Key, FileMeta>, k: Key, meta: FileMeta): FileMeta {
    if k in actual && meta.inode < 2 then meta.(inode := actual[k].inode) else meta
  }

  function RepairedFiles(m: Index, actual: map<Key, FileMeta>): map<Key, FileMeta> {
    map k | k in m.files.Keys + actual.Keys && Kept(actual, k) ::
      if k in m.files then RepairedMeta(actual, k, m.files[k]) else actual[k]
  }

  function Restricted<V>(entries: map<Key, V>, keys: set<Key>): map<Key, V> {
    map k | k in entries && k in keys :: entries[k]
  }

  /** An object's mark after repair: new objects are marked, recovering ones are not. */
  function MarkAfter(m: Index, actual: map<Key, FileMeta>, now: int, k: Key): Option<int> {
    var mark :=
      if k in actual && k !in m.files then Some(now)
      else if k in m.orphaned && k in m.files && Kept(actual, k) then Some(m.orphaned[k])
      else None;
    if mark.Some? && mark.value != 0 && k in m.recovery then None else mark
  }

  function RepairedMarks(m: Index, actual: map<Key, FileMeta>, now: int): map<Key, int> {
    map k | k in m.orphaned.Keys + actual.Keys && MarkAfter(m, actual, now, k).Some? ::
      MarkAfter(m, actual, now, k).value
  }

  /** `reconcileMetadata` in closed form. */
  function Repaired(m: Index, actual: map<Key, FileMeta>, now: int): Index {
    var files := RepairedFiles(m, actual);
    Index(FORMAT_VERSION, files, Restricted(m.links, files.Keys), RepairedMarks(m, actual, now),
          Restricted(m.recovery, files.Keys), Restricted(m.legacy, files.Keys), false)
  }

  /** From arbitrary metadata, repair establishes the index invariant, indexes every stored
      ciphertext and separates marks from recovery. */
  lemma RepairEstablishesIndex(m: Index, actual: map<Key, FileMeta>, now: int)
    requires ScanResult(actual)
    ensures var r := Repaired(m, actual, now);
            Inclusion(r) && Settled(r) && actual.Keys <= r.files.Keys && !r.displaced
            && forall k | k in r.files :: k.ObjectKey?
  {
  }

  /** An object is in both maps after a repair exactly when it was in both before, with a mark
      of zero: such a mark counts as none, and is kept. */
  lemma BothMapsIffZeroMark(m: Index, actual: map<Key, FileMeta>, now: int, k: Key)
    requires ScanResult(actual) && now != 0
    ensures var r := Repaired(m, actual, now);
            (k in r.orphaned && k in r.recovery)
            <==> (k in m.files && Kept(actual, k) && k in m.recovery && k in m.orphaned && m.orphaned[k] == 0)
  {
    var r := Repaired(m, actual, now);
    assert k in r.orphaned <==> MarkAfter(m, actual, now, k).Some?;
  }

  /** It happens. */
  lemma ZeroMarkStaysBesideRecovery()
    ensures var k := ObjectKey("x");
            var m := Index(FORMAT_VERSION, map[k := FileMeta(0, 384, 1, 1, 2)], map[], map[k := 0],
                           map[k := RecoveryEntry(["p"], Trash, "", 1)], map[], false);
            k in Repaired(m, map[], 1).orphaned && k in Repaired(m, map[], 1).recovery
  {
    var k := ObjectKey("x");
    var m := Index(FORMAT_VERSION, map[k := FileMeta(0, 384, 1, 1, 2)], map[], map[k := 0],
                   map[k := RecoveryEntry(["p"], Trash, "", 1)], map[], false);
    BothMapsIffZeroMark(m, map[], 1, k);
  }

  /** Repair drops no record of a valid object id, whether or not its ciphertext is there. */
  lemma RepairKeepsRecords(m: Index, actual: map<Key, FileMeta>, now: int, k: Key)
    requires ScanResult(actual) && k.ObjectKey? && k in m.files
    ensures var r := Repaired(m, actual, now);
            && k in r.files && r.files[k] == m.files[k].(inode := r.files[k].inode)
            && (m.files[k].inode >= 2 ==> r.files[k] == m.files[k])
            && (k in r.links <==> k in m.links) && (k in m.links ==> r.links[k] == m.links[k])
            && (k in r.recovery <==> k in m.recovery) && (k in m.recovery ==> r.recovery[k] == m.recovery[k])
            && (k in r.legacy <==> k in m.legacy) && (k in m.legacy ==> r.legacy[k] == m.legacy[k])
            && (k !in m.recovery ==> MarkOf(r, k) == MarkOf(m, k))
  {
  }

  /** A ciphertext that was not indexed gets the record of the scan and, unless it is in recovery, a
      mark of this moment; nothing is left about any other unindexed object. */
  lemma NewObjectsAreMarked(m: Index, actual: map<Key, FileMeta>, now: int, k: Key)
    requires ScanResult(actual) && k !in m.files && now != 0
    ensures RowOf(Repaired(m, actual, now), k) ==
            if k in actual then RowOf(m, k).(file := Some(actual[k]), mark := if k in m.recovery then None else Some(now)) else NO_ROW
  {
    var r := Repaired(m, actual, now);
    assert k in r.files <==> k in actual;
    assert k in r.orphaned <==> MarkAfter(m, actual, now, k).Some?;
  }

  /** A record without a number takes that of the scan. */
  lemma NumbersComeFromScan(m: Index, actual: map<Key, FileMeta>, now: int, k: Key)
    requires ScanResult(actual) && k in m.files && k.ObjectKey?
    ensures var r := Repaired(m, actual, now);
            k in r.files && r.files[k].inode == if k in actual && m.files[k].inode < 2 then actual[k].inode else m.files[k].inode
  {
  }

  lemma FilesStayRepaired(m: Index, actual: map<Key, FileMeta>, now: int)
    requires ScanResult(actual)
    ensures RepairedFiles(Repaired(m, actual, now), actual) == RepairedFiles(m, actual)
  {
  }

  lemma MarkStaysRepaired(m: Index, actual: map<Key, FileMeta>, now: int, later: int, k: Key)
    requires ScanResult(actual)
    ensures MarkAfter(Repaired(m, actual, now), actual, later, k) == MarkAfter(m, actual, now, k)
  {
    var r := Repaired(m, actual, now);
    assert k in r.files <==> k in m.files.Keys + actual.Keys && Kept(actual, k);
    assert k in r.orphaned <==> MarkAfter(m, actual, now, k).Some?;
    assert k in r.recovery <==> k in m.recovery && k in r.files;
  }

  lemma MarksStayRepaired(m: Index, actual: map<Key, FileMeta>, now: int, later: int)
    requires ScanResult(actual)
    ensures RepairedMarks(Repaired(m, actual, now), actual, later) == RepairedMarks(m, actual, now)
  {
    var r := Repaired(m, actual, now);
    var twice, once := RepairedMarks(r, actual, later), RepairedMarks(m, actual, now);
    forall k ensures (k in twice <==> k in once) && (k in once ==> twice[k] == once[k]) {
      MarkStaysRepaired(m, actual, now, later, k);
    }
  }

  /** A second run over the same objects changes nothing. */
  lemma RepairIsIdempotent(m: Index, actual: map<Key, FileMeta>, now: int, later: int)
    requires ScanResult(actual)
    ensures Repaired(Repaired(m, actual, now), actual, later) == Repaired(m, actual, now)
  {
    FilesStayRepaired(m, actual, now);
    MarksStayRepaired(m, actual, now, later);
    var r := Repaired(m, actual, now);
    assert Restricted(r.links, r.files.Keys) == r.links;
    assert Restricted(r.recovery, r.files.Keys) == r.recovery;
    assert Restricted(r.legacy, r.files.Keys) == r.legacy;
  }

  function Unmarked(marks: map<Key, int>, recovering: set<Key>): map<Key, int> {
    map k | k in marks && !(k in recovering && marks[k] != 0) :: marks[k]
  }

  /** Deleting foreign entries first and unindexed ones later is deleting unindexed ones. */
  lemma DropForeignThenUnindexed<V>(entries: map<Key, V>, removed: set<Key>, keys: set<Key>)
    requires removed !! keys
    ensures Restricted(entries - removed, keys) == Restricted(entries, keys)
  {
  }

  lemma MarksAsEdited(m: Index, actual: map<Key, FileMeta>, now: int, removed: set<Key>,
                      keys: set<Key>, marks: map<Key, int>)
    requires removed == set k | k in m.files && !Kept(actual, k)
    requires keys == RepairedFiles(m, actual).Keys
    requires marks == m.orphaned - removed + (map k | k in actual.Keys - m.files.Keys :: now)
    ensures Unmarked(Restricted(marks, keys), Restricted(m.recovery, keys).Keys) == RepairedMarks(m, actual, now)
  {
    var edited := Unmarked(Restricted(marks, keys), Restricted(m.recovery, keys).Keys);
    var closed := RepairedMarks(m, actual, now);
    forall k ensures (k in edited <==> k in closed) && (k in closed ==> edited[k] == closed[k]) {
      assert k in keys <==> k in m.files.Keys + actual.Keys && Kept(actual, k);
      assert k in marks <==> (k in m.orphaned && k !in removed) || (k in actual && k !in m.files);
    }
  }

  /** `reconcileMetadata` as it runs: the maps are edited in place loop after loop, and
      `changed` tells whether anything has to be saved. */
  method ReconcileMetadata(m: Index, actual: map<Key, FileMeta>, now: int) returns (r: Index, changed: bool)
    requires ScanResult(actual)
    ensures r == Repaired(m, actual, now)
    ensures changed <==> r != m
  {
    changed := m.version != FORMAT_VERSION || m.displaced;
    var files, removed, added, edited := RepairObjectFiles(m, actual);
    var orphaned, unmarked := RepairMarks(m, actual, now, removed, added, files.Keys);
    var links, links' := DropEntries(m.links, removed, files.Keys);
    var recovery, recovery' := DropEntries(m.recovery, removed, files.Keys);
    var legacy, legacy' := DropEntries(m.legacy, removed, files.Keys);
    r := Index(FORMAT_VERSION, files, links, orphaned, recovery, legacy, false);
    changed := changed || edited || unmarked || links' || recovery' || legacy';
  }

  /** The two loops over object records. */
  method RepairObjectFiles(m: Index, actual: map<Key, FileMeta>)
    returns (files: map<Key, FileMeta>, removed: set<Key>, added: set<Key>, edited: bool)
    requires ScanResult(actual)
    ensures files == RepairedFiles(m, actual)
    ensures removed == set k | k in m.files && !Kept(actual, k)
    ensures added == actual.Keys - m.files.Keys
    ensures edited <==> files != m.files
    ensures !edited ==> removed == {} && added == {}
  {
    var fixed;
    files, removed, fixed := RepairFiles(m.files, actual);
    added := actual.Keys - files.Keys;
    files := files + (map k | k in added :: actual[k]);
    assert files == RepairedFiles(m, actual);
    assert added == actual.Keys - m.files.Keys;
    edited := removed != {} || fixed || added != {};
    ChangedOnlyIfEdited(m, actual, removed, fixed, added, files);
  }

  /** Marks: foreign ones go, new objects get one, then unindexed and recovering ones lose theirs. */
  method RepairMarks(m: Index, actual: map<Key, FileMeta>, now: int, removed: set<Key>, added: set<Key>, keys: set<Key>)
    returns (orphaned: map<Key, int>, changed: bool)
    requires removed == set k | k in m.files && !Kept(actual, k)
    requires added == actual.Keys - m.files.Keys && keys == RepairedFiles(m, actual).Keys
    ensures orphaned == RepairedMarks(m, actual, now)
    ensures removed == {} && added == {} ==> (changed <==> orphaned != m.orphaned)
  {
    orphaned := m.orphaned - removed + (map k | k in added :: now);
    MarksAsEdited(m, actual, now, removed, keys, orphaned);
    assert removed == {} && added == {} ==> orphaned == m.orphaned;
    var recovering := set k | k in m.recovery && k in keys;
    assert recovering == Restricted(m.recovery, keys).Keys;
    var unindexed, unmarked;
    ghost var start := orphaned;
    orphaned, unindexed := DropUnindexed(orphaned, keys);
    ghost var middle := orphaned;
    orphaned, unmarked := DropMarks(orphaned, recovering);
    changed := unindexed || unmarked;
    assert orphaned.Keys <= middle.Keys <= start.Keys;
    if unindexed {
      assert middle.Keys != start.Keys by {
        assert middle.Keys == start.Keys ==> middle == start;
      }
    }
  }

  method DropEntries<V(==)>(entries: map<Key, V>, removed: set<Key>, keys: set<Key>) returns (after: map<Key, V>, dropped: bool)
    requires removed !! keys
    ensures after == Restricted(entries, keys)
    ensures removed == {} ==> (dropped <==> after != entries)
  {
    DropForeignThenUnindexed(entries, removed, keys);
    assert removed == {} ==> entries - removed == entries;
    after, dropped := DropUnindexed(entries - removed, keys);
  }

  lemma ChangedOnlyIfEdited(m: Index, actual: map<Key, FileMeta>, removed: set<Key>, fixed: bool,
                            added: set<Key>, files: map<Key, FileMeta>)
    requires files == RepairedFiles(m, actual) && added == actual.Keys - m.files.Keys && ScanResult(actual)
    requires removed == set k | k in m.files && !Kept(actual, k)
    requires fixed <==> exists k :: k in m.files && Kept(actual, k) && RepairedMeta(actual, k, m.files[k]) != m.files[k]
    ensures files != m.files <==> removed != {} || fixed || added != {}
  {
    if removed != {} { var k :| k in removed; assert k in m.files && k !in files; }
    if added != {} { var k :| k in added; assert k !in m.files && k in files; }
    if fixed {
      var k :| k in m.files && Kept(actual, k) && RepairedMeta(actual, k, m.files[k]) != m.files[k];
      assert files[k] != m.files[k];
    }
    if removed == {} && added == {} && !fixed {
      forall k | k in m.files ensures k in files && files[k] == m.files[k] {
        assert k !in removed;
      }
      forall k | k in files ensures k in m.files {
        assert k !in added;
      }
    }
  }

  /** The loop over indexed files: foreign names without ciphertext go, small inodes are fixed. */
  method RepairFiles(before: map<Key, FileMeta>, actual: map<Key, FileMeta>)
    returns (files: map<Key, FileMeta>, removed: set<Key>, fixed: bool)
    requires ScanResult(actual)
    ensures removed == set k | k in before && !Kept(actual, k)
    ensures files == map k | k in before && Kept(actual, k) :: RepairedMeta(actual, k, before[k])
    ensures fixed <==> exists k :: k in before && Kept(actual, k) && RepairedMeta(actual, k, before[k]) != before[k]
  {
    files, removed, fixed := before, {}, false;
    var todo := before.Keys;
    while todo != {}
      invariant todo <= before.Keys
      invariant removed == set k | k in before && k !in todo && !Kept(actual, k)
      invariant files.Keys == before.Keys - removed
      invariant forall k | k in files ::
        files[k] == if k in todo then before[k] else RepairedMeta(actual, k, before[k])
      invariant fixed <==> exists k :: k in files && files[k] != before[k]
      decreases todo
    {
      var key :| key in todo;
      todo := todo - {key};
      ghost var prior := files;
      if key !in actual {
        if !key.ObjectKey? {
          files := files - {key};
          removed := removed + {key};
          assert forall k | k in files :: files[k] == prior[k];
          assert fixed ==> exists k :: k in files && files[k] != before[k] by {
            if fixed {
              var k :| k in prior && prior[k] != before[k];
              assert k in files;
            }
          }
        }
      } else if files[key].inode < 2 {
        files := files[key := files[key].(inode := actual[key].inode)];
        fixed := true;
        assert files[key] != before[key];
      }
    }
  }

  method DropUnindexed<V(==)>(before: map<Key, V>, keys: set<Key>) returns (after: map<Key, V>, dropped: bool)
    ensures after == Restricted(before, keys)
    ensures dropped <==> after != before
  {
    after, dropped := before, false;
    var todo := before.Keys;
    while todo != {}
      invariant todo <= before.Keys && after.Keys <= before.Keys
      invariant forall k | k in before :: k in after <==> k in todo || k in keys
      invariant forall k | k in after :: after[k] == before[k]
      invariant dropped <==> after.Keys != before.Keys
      decreases todo
    {
      var key :| key in todo;
      todo := todo - {key};
      if key !in keys {
        after, dropped := after - {key}, true;
        assert key in before.Keys && key !in after.Keys;
      }
    }
    assert !dropped ==> after == before;
  }

  /** Recovering objects lose their non-zero marks. */
  method DropMarks(before: map<Key, int>, recovering: set<Key>) returns (after: map<Key, int>, dropped: bool)
    ensures after == Unmarked(before, recovering)
    ensures dropped <==> after != before
  {
    after, dropped := before, false;
    var todo := recovering;
    while todo != {}
      invariant todo <= recovering && after.Keys <= before.Keys
      invariant forall k | k in before :: k in after <==> !(k in recovering && k !in todo && before[k] != 0)
      invariant forall k | k in after :: after[k] == before[k]
      invariant dropped <==> after.Keys != before.Keys
      decreases todo
    {
      var key :| key in todo;
      todo := todo - {key};
      if key in after && after[key] != 0 {
        after, dropped := after - {key}, true;
        assert key in before.Keys && key !in after.Keys;
      }
    }
    assert !dropped ==> after == before;
  }
}
