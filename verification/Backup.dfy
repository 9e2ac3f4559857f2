/** Backing up, verifying and restoring a vault.

  Digests are injective.  A directory tree maps relative paths to nodes; a published
  directory is a vault, with a manifest beside it if it is a backup.
*/
module Backup {
  import opened Optional
  import opened DirectoryMoves
  import opened Metadata
  import opened Storage

  datatype Data =
    | PublicConfig(volumeID: string)
    | IdentityBlob(blob: seq<int>)
    | MetadataJSON(index: Index)
    | Ciphertext(content: Content)
    | OtherData(bytes: seq<int>)

  /** Relative paths of a vault.  Unsafe ones leave it. */
  datatype RelPath =
    | InternalDir | ObjectsDir
    | PublicFile | IdentityFile | MetadataFile | LockFile
    | ObjectAt(id: string)
    | StrayObject(name: string)
    | Stray(name: string)
    | Unsafe(name: string)

  datatype Node = File(data: Data) | Dir | OtherNode

  type Tree = map<RelPath, Node>

  datatype Digest = Digest(of: Data)

  datatype BackupFile = BackupFile(path: RelPath, size: nat, digest: Digest)

  datatype Manifest = Manifest(volumeID: string, files: seq<BackupFile>)

  datatype Published = Published(manifest: Option<Manifest>, vault: Tree)

  datatype Place = At(path: Parts) | Temp(n: nat)

  type Places = map<Place, Published>

  // ------------------------------------------------------------- consistency

  predicate IsFile(t: Tree, p: RelPath) { p in t && t[p].File? }

  predicate InObjects(p: RelPath) { p.ObjectAt? || p.StrayObject? }

  function IndexOf(t: Tree): Option<Index> {
    if IsFile(t, MetadataFile) && t[MetadataFile].data.MetadataJSON? then Some(t[MetadataFile].data.index) else None
  }

  /** Nothing but regular object files in the object directory. */
  predicate CleanObjects(t: Tree) {
    ObjectsDir in t && t[ObjectsDir].Dir? && forall p | p in t && InObjects(p) :: p.ObjectAt? && t[p].File?
  }

  /** Index records and stored objects are in bijection. */
  predicate Bijection(t: Tree, m: Index) {
    && (forall k | k in m.files :: k.ObjectKey? && ObjectAt(k.id) in t)
    && (forall p | p in t && p.ObjectAt? :: ObjectKey(p.id) in m.files)
  }

  /** Links are of indexed objects, absolute, and claim no path twice. */
  predicate SoundLinks(m: Index) {
    && (forall k | k in m.links :: k in m.files && m.links[k].Absolute?)
    && (forall k, l | k in m.links && l in m.links && m.links[k] == m.links[l] :: k == l)
  }

  predicate SoundIndex(m: Index) { SoundLinks(m) && forall k | k in m.recovery :: k in m.files }

  const PREVIOUS_VERSION := 2

  /** What `vaultIndexForVerification` demands. */
  predicate Consistent(t: Tree) {
    && IndexOf(t).Some? && (IndexOf(t).value.version == PREVIOUS_VERSION || IndexOf(t).value.version == FORMAT_VERSION)
    && CleanObjects(t) && Bijection(t, IndexOf(t).value) && SoundIndex(IndexOf(t).value)
  }

  /** The scan of the object directory, which refuses anything but object files. */
  method ScanObjects(t: Tree) returns (ok: bool, actual: set<Key>)
    ensures ok <==> CleanObjects(t)
    ensures ok ==> forall k :: k in actual <==> k.ObjectKey? && ObjectAt(k.id) in t
  {
    ok, actual := false, {};
    if ObjectsDir !in t || !t[ObjectsDir].Dir? { return; }
    var entries := set p | p in t && InObjects(p);
    var todo := entries;
    while todo != {}
      invariant todo <= entries
      invariant forall p | p in entries - todo :: p.ObjectAt? && t[p].File?
      invariant forall k :: k in actual <==> k.ObjectKey? && ObjectAt(k.id) in entries - todo
      decreases |todo|
    {
      var p :| p in todo;
      if !p.ObjectAt? || !t[p].File? { return; }
      todo := todo - {p};
      actual := actual + {ObjectKey(p.id)};
    }
    ok := true;
    forall k ensures k in actual <==> k.ObjectKey? && ObjectAt(k.id) in t {
      if k.ObjectKey? { assert InObjects(ObjectAt(k.id)); }
    }
  }

  /** Each record has its object, and each object its record. */
  method CheckRecords(m: Index, actual: set<Key>) returns (ok: bool)
    ensures ok <==> (forall k | k in m.files :: k.ObjectKey? && k in actual) && actual <= m.files.Keys
  {
    var todo := m.files.Keys;
    while todo != {}
      invariant todo <= m.files.Keys && forall k | k in m.files && k !in todo :: k.ObjectKey? && k in actual
      decreases |todo|
    {
      var k :| k in todo;
      if !k.ObjectKey? || k !in actual { return false; }
      todo := todo - {k};
    }
    todo := actual;
    while todo != {}
      invariant todo <= actual && forall k | k in actual && k !in todo :: k in m.files
      decreases |todo|
    {
      var k :| k in todo;
      if k !in m.files { return false; }
      todo := todo - {k};
    }
    ok := true;
  }

  /** The loop over the links remembers which object claims which path. */
  method CheckLinks(m: Index) returns (ok: bool)
    ensures ok <==> SoundLinks(m)
  {
    var claims: map<Location, Key> := map[];
    var todo := m.links.Keys;
    while todo != {}
      invariant todo <= m.links.Keys
      invariant forall k | k in m.links && k !in todo ::
        k in m.files && m.links[k].Absolute? && m.links[k] in claims && claims[m.links[k]] == k
      invariant forall path | path in claims :: claims[path] in m.links && claims[path] !in todo && m.links[claims[path]] == path
      decreases |todo|
    {
      var k :| k in todo;
      if k !in m.files || !m.links[k].Absolute? { return false; }
      if m.links[k] in claims {
        assert m.links[claims[m.links[k]]] == m.links[k];
        return false;
      }
      claims, todo := claims[m.links[k] := k], todo - {k};
    }
    ok := true;
  }

  method CheckRecovery(m: Index) returns (ok: bool)
    ensures ok <==> forall k | k in m.recovery :: k in m.files
  {
    var todo := m.recovery.Keys;
    while todo != {}
      invariant todo <= m.recovery.Keys && forall k | k in m.recovery && k !in todo :: k in m.files
      decreases |todo|
    {
      var k :| k in todo;
      if k !in m.files { return false; }
      todo := todo - {k};
    }
    ok := true;
  }

  /** The checks of `vaultIndexForVerification`, one after the other: together they demand that the
      vault is consistent. */
  method CheckConsistent(t: Tree) returns (ok: bool)
    ensures ok <==> Consistent(t)
  {
    var index := IndexOf(t);
    if index.None? { return false; }
    var m := index.value;
    if m.version != PREVIOUS_VERSION && m.version != FORMAT_VERSION { return false; }
    var clean, actual := ScanObjects(t);
    if !clean { return false; }
    var recorded := CheckRecords(m, actual);
    assert recorded <==> Bijection(t, m) by {
      forall p | p in t && p.ObjectAt? ensures ObjectKey(p.id) in actual { assert ObjectAt(ObjectKey(p.id).id) == p; }
    }
    if !recorded { return false; }
    ok := CheckLinks(m);
    if ok { ok := CheckRecovery(m); }
  }

  function VolumeID(t: Tree): Option<string> {
    if IsFile(t, PublicFile) && t[PublicFile].data.PublicConfig? then Some(t[PublicFile].data.volumeID) else None
  }

  /** Consistent, with its configuration and identity: a vault that can be backed up or opened. */
  predicate Sound(t: Tree) { Consistent(t) && VolumeID(t).Some? && IsFile(t, IdentityFile) }

  predicate HasObject(t: Tree) { exists p | p in t :: p.ObjectAt? && t[p].File? }

  /** The scan of the object directory at start-up. */
  function ActualOf(t: Tree, now: int): map<Key, FileMeta> {
    map p | p in t && p.ObjectAt? && t[p].File? :: ObjectKey(p.id) := FileMeta(0, 384, now, now, 2)
  }

  /** What loading the volume makes of the index. */
  function LoadedIndex(t: Tree, now: int): Index
    requires IndexOf(t).Some?
  {
    Repaired(IndexOf(t).value, ActualOf(t, now), now)
  }

  /** Loading leaves the metadata file as it is. */
  predicate RepairIsIdle(t: Tree, now: int) { IndexOf(t).Some? && LoadedIndex(t, now) == IndexOf(t).value }

  // ---------------------------------------------------------------- contents

  /** The documented vault files. */
  predicate Backed(p: RelPath) { p.PublicFile? || p.IdentityFile? || p.MetadataFile? || p.ObjectAt? }

  function FilesOf(t: Tree): map<RelPath, Data> { map p | p in t && t[p].File? :: t[p].data }

  /** What a backup of the vault must hold, byte for byte. */
  function BackupSet(t: Tree): map<RelPath, Data> { map p | p in t && t[p].File? && Backed(p) :: t[p].data }

  function DirOf(p: RelPath): Option<RelPath> {
    match p
    case PublicFile => Some(InternalDir)
    case IdentityFile => Some(InternalDir)
    case MetadataFile => Some(InternalDir)
    case LockFile => Some(InternalDir)
    case ObjectAt(_) => Some(ObjectsDir)
    case StrayObject(_) => Some(ObjectsDir)
    case _ => None
  }

  /** `MkdirAll` of the parent, then the file. */
  function Adding(t: Tree, p: RelPath, d: Data): Tree {
    (if DirOf(p).Some? then t[DirOf(p).value := Dir] else t)[p := File(d)]
  }

  /** The manifest lists exactly the files of the tree, each once, with size and digest. */
  ghost predicate Lists(files: seq<BackupFile>, contents: map<RelPath, Data>, sizeOf: Data -> nat) {
    && (forall i, j | 0 <= i < j < |files| :: files[i].path != files[j].path)
    && (forall i | 0 <= i < |files| ::
          && files[i].path in contents
          && files[i].digest == Digest(contents[files[i].path]) && files[i].size == sizeOf(contents[files[i].path]))
    && (forall p | p in contents :: exists i :: 0 <= i < |files| && files[i].path == p)
  }

  /** A complete backup of `source`. */
  ghost predicate CompleteBackup(b: Published, source: Tree, sizeOf: Data -> nat) {
    && b.manifest.Some? && VolumeID(source) == Some(b.manifest.value.volumeID)
    && FilesOf(b.vault) == BackupSet(source) && Lists(b.manifest.value.files, BackupSet(source), sizeOf)
    && Copied(b.vault) && (HasObject(source) ==> ObjectsDir in b.vault)
  }

  lemma AddingAddsFile(t: Tree, p: RelPath, d: Data)
    requires DirOf(p).Some? ==> (DirOf(p).value in t ==> t[DirOf(p).value].Dir?)
    ensures FilesOf(Adding(t, p, d)) == FilesOf(t)[p := d]
  {
    var after := Adding(t, p, d);
    assert DirOf(p).Some? ==> DirOf(p).value != p;
    forall q ensures q in FilesOf(after) <==> q in FilesOf(t)[p := d] {
    }
  }

  // ------------------------------------------------------------- copying

  /** A tree built by copying: files, and the two directories they need. */
  predicate Copied(t: Tree) {
    && (forall p | p in t ::
          if p == InternalDir || p == ObjectsDir then t[p].Dir? else t[p].File? && (DirOf(p).Some? ==> DirOf(p).value in t))
    && (ObjectsDir in t ==> exists p | p in t :: InObjects(p))
  }

  lemma CopyKeepsTree(t: Tree, p: RelPath, d: Data)
    requires Copied(t) && p != InternalDir && p != ObjectsDir
    ensures Copied(Adding(t, p, d)) && FilesOf(Adding(t, p, d)) == FilesOf(t)[p := d]
  {
    AddingAddsFile(t, p, d);
  }

  lemma ListsOneMore(files: seq<BackupFile>, contents: map<RelPath, Data>, sizeOf: Data -> nat, p: RelPath, d: Data)
    requires Lists(files, contents, sizeOf) && p !in contents
    ensures Lists(files + [BackupFile(p, sizeOf(d), Digest(d))], contents[p := d], sizeOf)
  {
    var more, longer := files + [BackupFile(p, sizeOf(d), Digest(d))], contents[p := d];
    forall q | q in longer ensures exists i :: 0 <= i < |more| && more[i].path == q {
      if q == p {
        assert more[|files|].path == p;
      } else {
        var i :| 0 <= i < |files| && files[i].path == q;
        assert more[i].path == q;
      }
    }
  }

  /** The listed files were copied, and nothing else. */
  ghost predicate CopiedFrom(t: Tree, files: seq<BackupFile>, source: Tree, sizeOf: Data -> nat) {
    && Copied(t) && Lists(files, FilesOf(t), sizeOf)
    && forall p | p in FilesOf(t) :: IsFile(source, p) && FilesOf(t)[p] == source[p].data
  }

  lemma CopyOneMore(t: Tree, files: seq<BackupFile>, source: Tree, sizeOf: Data -> nat, p: RelPath)
    requires CopiedFrom(t, files, source, sizeOf) && IsFile(source, p) && p !in FilesOf(t) && p != InternalDir && p != ObjectsDir
    ensures var d := source[p].data;
            CopiedFrom(Adding(t, p, d), files + [BackupFile(p, sizeOf(d), Digest(d))], source, sizeOf)
    ensures FilesOf(Adding(t, p, source[p].data)).Keys == FilesOf(t).Keys + {p}
  {
    CopyKeepsTree(t, p, source[p].data);
    ListsOneMore(files, FilesOf(t), sizeOf, p, source[p].data);
  }

  /** `vaultBackupPaths`, with the objects in any order. */
  method VaultBackupPaths(t: Tree) returns (paths: seq<RelPath>)
    ensures forall i, j | 0 <= i < j < |paths| :: paths[i] != paths[j]
    ensures forall p :: p in paths <==> p.PublicFile? || p.IdentityFile? || p.MetadataFile? || (p.ObjectAt? && IsFile(t, p))
  {
    paths := [PublicFile, IdentityFile, MetadataFile];
    var todo := set p | p in t && p.ObjectAt? && t[p].File?;
    ghost var all := todo;
    while todo != {}
      invariant todo <= all && forall i, j | 0 <= i < j < |paths| :: paths[i] != paths[j]
      invariant forall p :: p in paths <==> p.PublicFile? || p.IdentityFile? || p.MetadataFile? || p in all - todo
      decreases |todo|
    {
      var p :| p in todo;
      assert p !in paths;
      todo := todo - {p};
      paths := paths + [p];
    }
  }

  /** What was at the path is still there, unchanged; if nothing was, whatever is there now is a complete
      backup of `source`. */
  ghost predicate BackupOrNot(before: Places, st: Places, dest: Parts, source: Tree, sizeOf: Data -> nat) {
    if At(dest) in before then At(dest) in st && st[At(dest)] == before[At(dest)]
    else At(dest) in st ==> CompleteBackup(st[At(dest)], source, sizeOf)
  }

  /** Nothing changed but staging directories and what was published. */
  ghost predicate OnlyPublishes(a: Places, b: Places, dest: Parts) {
    forall p: Place | p.At? && p != At(dest) :: (p in b <==> p in a) && (p in b ==> b[p] == a[p])
  }

  /** Each listed file is there as listed, once, under a safe name. */
  ghost predicate ListedFiles(files: seq<BackupFile>, t: Tree, sizeOf: Data -> nat) {
    && (forall i, j | 0 <= i < j < |files| :: files[i].path != files[j].path)
    && (forall i | 0 <= i < |files| ::
          && !files[i].path.Unsafe? && IsFile(t, files[i].path)
          && files[i].digest == Digest(t[files[i].path].data) && files[i].size == sizeOf(t[files[i].path].data))
  }

  ghost predicate Listed(files: seq<BackupFile>, t: Tree, sizeOf: Data -> nat) {
    ListedFiles(files, t, sizeOf) && forall i | 0 <= i < |files| :: files[i].path != InternalDir && files[i].path != ObjectsDir
  }

  ghost predicate Restorable(b: Published, sizeOf: Data -> nat) {
    && b.manifest.Some? && b.manifest.value.volumeID != "" && Listed(b.manifest.value.files, b.vault, sizeOf)
    && (exists i :: 0 <= i < |b.manifest.value.files| && DirOf(b.manifest.value.files[i].path) == Some(InternalDir))
    && (exists i :: 0 <= i < |b.manifest.value.files| && DirOf(b.manifest.value.files[i].path) == Some(ObjectsDir))
  }

  /** What was at the path is still there, unchanged; if nothing was, whatever is there now is a vault
      with exactly the listed files of the backup. */
  ghost predicate RestoreOrNot(before: Places, st: Places, dest: Parts, b: Published, sizeOf: Data -> nat) {
    if At(dest) in before then At(dest) in st && st[At(dest)] == before[At(dest)]
    else At(dest) in st ==>
      b.manifest.Some? && st[At(dest)].manifest.None? && CopiedFrom(st[At(dest)].vault, b.manifest.value.files, b.vault, sizeOf)
  }

  lemma NotYetCopied(t: Tree, files: seq<BackupFile>, i: nat, source: Tree, sizeOf: Data -> nat)
    requires i < |files| && CopiedFrom(t, files[..i], source, sizeOf) && Listed(files, source, sizeOf)
    ensures files[i].path !in FilesOf(t)
  {
    var done := files[..i];
    assert forall j | 0 <= j < |done| :: done[j] == files[j] && files[j].path != files[i].path;
  }

  lemma RestoredDirectories(b: Published, tree: Tree, sizeOf: Data -> nat)
    requires Restorable(b, sizeOf) && CopiedFrom(tree, b.manifest.value.files, b.vault, sizeOf)
    ensures InternalDir in tree && ObjectsDir in tree
  {
    var files := b.manifest.value.files;
    var i :| 0 <= i < |files| && DirOf(files[i].path) == Some(InternalDir);
    assert files[i].path in FilesOf(tree);
    var j :| 0 <= j < |files| && DirOf(files[j].path) == Some(ObjectsDir);
    assert files[j].path in FilesOf(tree);
  }

  /** Copying the documented files of a sound vault gives a complete backup. */
  lemma CopyIsComplete(source: Tree, paths: seq<RelPath>, tree: Tree, files: seq<BackupFile>, sizeOf: Data -> nat, id: string)
    requires forall p :: p in paths <==> p.PublicFile? || p.IdentityFile? || p.MetadataFile? || (p.ObjectAt? && IsFile(source, p))
    requires CopiedFrom(tree, files, source, sizeOf) && FilesOf(tree).Keys == (set p | p in paths) && VolumeID(source) == Some(id)
    ensures CompleteBackup(Published(Some(Manifest(id, files)), tree), source, sizeOf)
    ensures InternalDir in tree && (ObjectsDir in tree <==> HasObject(source))
  {
    CopyHoldsBackupSet(source, paths, tree);
    CopyHasDirectories(source, paths, tree);
  }

  lemma CopyHoldsBackupSet(source: Tree, paths: seq<RelPath>, tree: Tree)
    requires forall p :: p in paths <==> p.PublicFile? || p.IdentityFile? || p.MetadataFile? || (p.ObjectAt? && IsFile(source, p))
    requires forall p | p in FilesOf(tree) :: IsFile(source, p) && FilesOf(tree)[p] == source[p].data
    requires FilesOf(tree).Keys == set p | p in paths
    ensures FilesOf(tree) == BackupSet(source)
  {
    forall p ensures p in FilesOf(tree) <==> p in BackupSet(source) {
      assert p in FilesOf(tree) <==> p in paths;
    }
  }

  lemma CopyHasDirectories(source: Tree, paths: seq<RelPath>, tree: Tree)
    requires forall p :: p in paths <==> p.PublicFile? || p.IdentityFile? || p.MetadataFile? || (p.ObjectAt? && IsFile(source, p))
    requires Copied(tree) && FilesOf(tree).Keys == set p | p in paths
    ensures InternalDir in tree && (ObjectsDir in tree <==> HasObject(source))
  {
    assert PublicFile in FilesOf(tree).Keys;
    if ObjectsDir in tree {
      var p :| p in tree && InObjects(p);
      assert p in FilesOf(tree).Keys;
    }
    if HasObject(source) {
      var p :| p in source && p.ObjectAt? && source[p].File?;
      assert p in FilesOf(tree).Keys;
    }
  }

  class BackupDisk {
    var places: Places
    var next: nat
    const faulty: bool
    const sizeOf: Data -> nat
    ghost var trace: seq<Places>

    ghost predicate Valid()
      reads this
    {
      forall p | p in places && p.Temp? :: p.n < next
    }

    constructor (places: Places, next: nat, faulty: bool, sizeOf: Data -> nat)
      requires forall p | p in places && p.Temp? :: p.n < next
      ensures Valid() && this.places == places && this.faulty == faulty && this.sizeOf == sizeOf && trace == [places]
    {
      this.places, this.next, this.faulty, this.sizeOf, trace := places, next, faulty, sizeOf, [places];
    }

    method Fault() returns (failed: bool)
      ensures failed ==> faulty
    {
      failed := *;
      failed := failed && faulty;
    }

    /** `MkdirTemp`. */
    method MakeTemp() returns (ok: bool, n: nat)
      requires Valid()
      modifies this`places, this`next, this`trace
      ensures Valid() && Temp(n) !in old(places) && trace == old(trace) + [places] && n < next
      ensures places == if ok then old(places)[Temp(n) := Published(None, map[])] else old(places)
      ensures !faulty ==> ok
    {
      n, next := next, next + 1;
      var failed := Fault();
      ok := !failed;
      if ok { places := places[Temp(n) := Published(None, map[])]; }
      trace := trace + [places];
    }

    /** Changes what is in the staging directory; a failure may leave anything there. */
    method Write(n: nat, value: Published) returns (ok: bool)
      requires Valid() && n < next
      modifies this`places, this`trace
      ensures Valid() && trace == old(trace) + [places]
      ensures Temp(n) in places && places == old(places)[Temp(n) := places[Temp(n)]]
      ensures ok ==> places[Temp(n)] == value
      ensures !faulty ==> ok
    {
      var failed := Fault();
      ok := !failed;
      var partial: Published := *;
      places := places[Temp(n) := if ok then value else partial];
      trace := trace + [places];
    }

    /** `renameNoReplace` of the staging directory. */
    method Publish(n: nat, dest: Parts) returns (ok: bool)
      requires Valid() && Temp(n) in places
      modifies this`places, this`trace
      ensures Valid() && trace == old(trace) + [places]
      ensures ok ==> At(dest) !in old(places) && places == (old(places) - {Temp(n)})[At(dest) := old(places)[Temp(n)]]
      ensures !ok ==> places == old(places)
      ensures !faulty && At(dest) !in old(places) ==> ok
    {
      var failed := Fault();
      ok := !failed && At(dest) !in places;
      if ok { places := (places - {Temp(n)})[At(dest) := places[Temp(n)]]; }
      trace := trace + [places];
    }

    /** `RemoveAll`, whose failure is ignored. */
    method Discard(n: nat)
      requires Valid()
      modifies this`places, this`trace
      ensures Valid() && trace == old(trace) + [places]
      ensures forall p | p != Temp(n) :: (p in places <==> p in old(places)) && (p in places ==> places[p] == old(places)[p])
    {
      var failed := Fault();
      if !failed { places := places - {Temp(n)}; }
      trace := trace + [places];
    }

    /** `copyBackupFile` into the staging directory. */
    method CopyBackupFile(source: Tree, p: RelPath, n: nat, tree: Tree, ghost files: seq<BackupFile>)
      returns (ok: bool, after: Tree, entry: BackupFile)
      requires Valid() && n < next && CopiedFrom(tree, files, source, sizeOf) && p != InternalDir && p != ObjectsDir
      modifies this`places, this`trace
      ensures Valid() && OnlyTemp(old(places), places, n) && (trace == old(trace) || trace == old(trace) + [places])
      ensures ok ==>
        && IsFile(source, p) && p !in FilesOf(tree) && Temp(n) in places && places[Temp(n)] == Published(None, after)
        && entry == BackupFile(p, sizeOf(source[p].data), Digest(source[p].data))
        && CopiedFrom(after, files + [entry], source, sizeOf) && FilesOf(after).Keys == FilesOf(tree).Keys + {p}
      ensures !faulty && IsFile(source, p) && p !in FilesOf(tree) ==> ok
    {
      after, entry := tree, BackupFile(p, 0, Digest(OtherData([])));
      if !IsFile(source, p) || IsFile(tree, p) { return false, after, entry; }
      var d := source[p].data;
      CopyOneMore(tree, files, source, sizeOf, p);
      after, entry := Adding(tree, p, d), BackupFile(p, sizeOf(d), Digest(d));
      ok := Write(n, Published(None, after));
    }

    /** The copying loop of a backup, which builds the manifest. */
    method CopyOut(source: Tree, paths: seq<RelPath>, n: nat) returns (ok: bool, tree: Tree, files: seq<BackupFile>)
      requires Valid() && n < next && Temp(n) in places && places[Temp(n)] == Published(None, map[])
      requires forall i, j | 0 <= i < j < |paths| :: paths[i] != paths[j]
      requires forall p | p in paths :: Backed(p)
      modifies this`places, this`trace
      ensures Valid() && OnlyTempSince(trace, |old(trace)|, old(places), places, n) && old(trace) <= trace
      ensures ok ==> Temp(n) in places && places[Temp(n)] == Published(None, tree) && CopiedFrom(tree, files, source, sizeOf)
      ensures ok ==> FilesOf(tree).Keys == set p | p in paths
      ensures !faulty ==> (ok <==> forall p | p in paths :: IsFile(source, p))
    {
      tree, files := map[], [];
      ok := true;
      var i := 0;
      while i < |paths|
        invariant 0 <= i <= |paths| && Valid()
        invariant OnlyTempSince(trace, |old(trace)|, old(places), places, n) && old(trace) <= trace
        invariant Temp(n) in places && places[Temp(n)] == Published(None, tree)
        invariant CopiedFrom(tree, files, source, sizeOf)
        invariant FilesOf(tree).Keys == set p | p in paths[..i]
      {
        var p := paths[i];
        assert p in paths && paths[..i + 1] == paths[..i] + [p];
        ghost var t1, e1 := trace, places;
        var entry;
        ok, tree, entry := CopyBackupFile(source, p, n, tree, files);
        OnlyTempOn(t1, trace, |old(trace)|, old(places), e1, places, n);
        if !ok { return; }
        files := files + [entry];
        i := i + 1;
      }
      assert paths[..i] == paths;
    }

    /** Stages the files and the manifest, and publishes the directory at once. */
    method StageBackup(source: Tree, id: string, n: nat, dest: Parts) returns (r: Option<Manifest>)
      requires Valid() && n < next && Temp(n) in places && places[Temp(n)] == Published(None, map[])
      requires VolumeID(source) == Some(id) && At(dest) !in places
      modifies this`places, this`trace
      ensures Valid() && old(trace) <= trace && OnlyPublishes(old(places), places, dest)
      ensures BackupOrNot(old(places), places, dest, source, sizeOf)
      ensures forall i | |old(trace)| <= i < |trace| :: BackupOrNot(old(places), trace[i], dest, source, sizeOf)
      ensures r.Some? ==> At(dest) in places && places[At(dest)].manifest == r
      ensures !faulty ==> (r.Some? <==> IsFile(source, IdentityFile) && IsFile(source, MetadataFile) && HasObject(source))
    {
      var paths := VaultBackupPaths(source);
      var ok, tree, files := CopyOut(source, paths, n);
      if !ok {
        Discard(n);
        return None;
      }
      CopyIsComplete(source, paths, tree, files, sizeOf, id);
      r := SealBackup(source, Manifest(id, files), tree, n, dest);
    }

    /** Writes the manifest, syncs the directories, which must exist, and renames. */
    method SealBackup(ghost source: Tree, manifest: Manifest, tree: Tree, n: nat, dest: Parts) returns (r: Option<Manifest>)
      requires Valid() && n < next && Temp(n) in places && At(dest) !in places
      requires CompleteBackup(Published(Some(manifest), tree), source, sizeOf)
      modifies this`places, this`trace
      ensures Valid() && old(trace) <= trace && OnlyPublishes(old(places), places, dest)
      ensures BackupOrNot(old(places), places, dest, source, sizeOf)
      ensures forall i | |old(trace)| <= i < |trace| :: BackupOrNot(old(places), trace[i], dest, source, sizeOf)
      ensures r.Some? ==> At(dest) in places && places[At(dest)].manifest == r
      ensures !faulty ==> (r.Some? <==> InternalDir in tree && ObjectsDir in tree)
    {
      var ok := Write(n, Published(Some(manifest), tree));
      var failed := Fault();
      if !ok || failed || InternalDir !in tree || ObjectsDir !in tree {
        Discard(n);
        return None;
      }
      ok := Publish(n, dest);
      if !ok {
        Discard(n);
        return None;
      }
      failed := Fault();
      r := if failed then None else Some(manifest);
    }

    /** `vaultIndexForVerification`: takes the metadata lock, whose file it leaves behind. */
    method VaultIndex(place: Parts) returns (ok: bool)
      requires Valid() && At(place) in places
      modifies this`places, this`trace
      ensures Valid() && At(place) in places && (trace == old(trace) || trace == old(trace) + [places])
      ensures places == old(places) || places == old(places)[At(place) := old(places)[At(place)].(vault := Locked(old(places)[At(place)].vault))]
      ensures ok ==> places[At(place)].vault == Locked(old(places)[At(place)].vault)
      ensures ok ==> Consistent(old(places)[At(place)].vault)
      ensures !faulty ==> (ok <==> Consistent(old(places)[At(place)].vault))
    {
      var failed := Fault();
      if failed { return false; }
      var t := places[At(place)].vault;
      LockIsHarmless(t);
      places := places[At(place) := places[At(place)].(vault := Locked(t))];
      trace := trace + [places];
      failed := Fault();
      ok := false;
      if !failed { ok := CheckConsistent(t); }
    }

    /** `CreateBackup`: at every moment the destination is untouched or a complete backup, and
        without faults a backup is made exactly of a sound vault with at least one object. */
    method CreateBackup(vault: Parts, dest: Parts) returns (r: Option<Manifest>)
      requires Valid() && At(vault) in places
      modifies this`places, this`next, this`trace
      ensures Valid() && old(trace) <= trace
      ensures forall i | |old(trace)| <= i < |trace| ::
        BackupOrNot(old(places), trace[i], dest, old(places)[At(vault)].vault, sizeOf)
      ensures BackupOrNot(old(places), places, dest, old(places)[At(vault)].vault, sizeOf)
      ensures r.Some? ==>
        && At(dest) in places && places[At(dest)].manifest == r
        && CompleteBackup(places[At(dest)], old(places)[At(vault)].vault, sizeOf)
      ensures forall p: Place | p.At? && p != At(dest) && p != At(vault) ::
        (p in places <==> p in old(places)) && (p in places ==> places[p] == old(places)[p])
      ensures At(vault) in places
      ensures places[At(vault)].vault == old(places)[At(vault)].vault || places[At(vault)].vault == Locked(old(places)[At(vault)].vault)
      ensures !faulty ==>
        (r.Some? <==>
          && At(dest) !in old(places) && !(vault <= dest)
          && Sound(old(places)[At(vault)].vault) && HasObject(old(places)[At(vault)].vault))
    {
      var t := places[At(vault)].vault;
      var failed := Fault();
      if failed || At(dest) in places || vault <= dest || VolumeID(t).None? { return None; }
      var ok := VaultIndex(vault);
      LockIsHarmless(t);
      if !ok { return None; }
      r := CopyVault(Locked(t), VolumeID(t).value, dest);
      SameBackup(t, sizeOf);
    }

    /** The part of `CreateBackup` that writes. */
    method CopyVault(source: Tree, id: string, dest: Parts) returns (r: Option<Manifest>)
      requires Valid() && VolumeID(source) == Some(id) && At(dest) !in places
      modifies this`places, this`next, this`trace
      ensures Valid() && old(trace) <= trace && OnlyPublishes(old(places), places, dest)
      ensures BackupOrNot(old(places), places, dest, source, sizeOf)
      ensures forall i | |old(trace)| <= i < |trace| :: BackupOrNot(old(places), trace[i], dest, source, sizeOf)
      ensures r.Some? ==> At(dest) in places && places[At(dest)].manifest == r
      ensures !faulty ==> (r.Some? <==> IsFile(source, IdentityFile) && IsFile(source, MetadataFile) && HasObject(source))
    {
      var ok, n := MakeTemp();
      if !ok { return None; }
      r := StageBackup(source, id, n, dest);
    }

    // -------------------------------------------------------------- restoring

    /** One entry of the manifest: a safe path, and the file exactly as listed. */
    method CopyListed(source: Tree, files: seq<BackupFile>, i: nat, n: nat, tree: Tree) returns (ok: bool, after: Tree)
      requires Valid() && n < next && i < |files| && CopiedFrom(tree, files[..i], source, sizeOf)
      modifies this`places, this`trace
      ensures Valid() && OnlyTemp(old(places), places, n) && (trace == old(trace) || trace == old(trace) + [places])
      ensures ok ==>
        && !files[i].path.Unsafe? && Temp(n) in places && places[Temp(n)] == Published(None, after)
        && CopiedFrom(after, files[..i] + [files[i]], source, sizeOf)
      ensures !faulty && Listed(files, source, sizeOf) ==> ok
    {
      var p := files[i].path;
      after := tree;
      if p.Unsafe? || p.InternalDir? || p.ObjectsDir? { return false, after; }
      if Listed(files, source, sizeOf) { NotYetCopied(tree, files, i, source, sizeOf); }
      var entry;
      ok, after, entry := CopyBackupFile(source, p, n, tree, files[..i]);
      ok := ok && entry == files[i];
    }

    /** The copying loop of a restore, which checks each file against the manifest. */
    method CopyIn(source: Tree, files: seq<BackupFile>, n: nat) returns (ok: bool, tree: Tree)
      requires Valid() && n < next && Temp(n) in places && places[Temp(n)] == Published(None, map[])
      modifies this`places, this`trace
      ensures Valid() && OnlyTempSince(trace, |old(trace)|, old(places), places, n) && old(trace) <= trace
      ensures ok ==> Temp(n) in places && places[Temp(n)] == Published(None, tree) && CopiedFrom(tree, files, source, sizeOf)
      ensures ok ==> forall i | 0 <= i < |files| :: !files[i].path.Unsafe?
      ensures !faulty && Listed(files, source, sizeOf) ==> ok
    {
      tree := map[];
      ok := true;
      var i := 0;
      while i < |files|
        invariant 0 <= i <= |files| && Valid()
        invariant OnlyTempSince(trace, |old(trace)|, old(places), places, n) && old(trace) <= trace
        invariant Temp(n) in places && places[Temp(n)] == Published(None, tree)
        invariant CopiedFrom(tree, files[..i], source, sizeOf)
        invariant forall j | 0 <= j < i :: !files[j].path.Unsafe?
      {
        ghost var t1, e1 := trace, places;
        assert files[..i + 1] == files[..i] + [files[i]];
        ok, tree := CopyListed(source, files, i, n, tree);
        OnlyTempOn(t1, trace, |old(trace)|, old(places), e1, places, n);
        if !ok { return; }
        i := i + 1;
      }
      assert files[..i] == files;
    }

    /** `RestoreBackup`: at every moment the destination is untouched or a vault with exactly the
        listed files, each as listed. */
    method RestoreBackup(backup: Parts, dest: Parts) returns (r: Option<Manifest>)
      requires Valid() && At(backup) in places
      modifies this`places, this`next, this`trace
      ensures Valid() && old(trace) <= trace && OnlyPublishes(old(places), places, dest)
      ensures forall i | |old(trace)| <= i < |trace| :: RestoreOrNot(old(places), trace[i], dest, old(places)[At(backup)], sizeOf)
      ensures RestoreOrNot(old(places), places, dest, old(places)[At(backup)], sizeOf)
      ensures r.Some? ==> r == old(places)[At(backup)].manifest && At(dest) in places && At(dest) !in old(places)
      ensures !faulty && At(dest) !in old(places) && !(backup <= dest) && Restorable(old(places)[At(backup)], sizeOf) ==> r.Some?
    {
      var b := places[At(backup)];
      var failed := Fault();
      if failed || b.manifest.None? || b.manifest.value.volumeID == "" || backup <= dest || At(dest) in places {
        return None;
      }
      var ok, n := MakeTemp();
      if !ok { return None; }
      r := StageRestore(b, n, dest);
    }

    method StageRestore(b: Published, n: nat, dest: Parts) returns (r: Option<Manifest>)
      requires Valid() && n < next && Temp(n) in places && places[Temp(n)] == Published(None, map[])
      requires At(dest) !in places && b.manifest.Some?
      modifies this`places, this`trace
      ensures Valid() && old(trace) <= trace && OnlyPublishes(old(places), places, dest)
      ensures forall i | |old(trace)| <= i < |trace| :: RestoreOrNot(old(places), trace[i], dest, b, sizeOf)
      ensures RestoreOrNot(old(places), places, dest, b, sizeOf)
      ensures r.Some? ==> r == b.manifest && At(dest) in places
      ensures !faulty && Restorable(b, sizeOf) ==> r.Some?
    {
      var ok, tree := CopyIn(b.vault, b.manifest.value.files, n);
      var failed := Fault();
      if ok && Restorable(b, sizeOf) { RestoredDirectories(b, tree, sizeOf); }
      if !ok || failed || InternalDir !in tree || ObjectsDir !in tree {
        Discard(n);
        return None;
      }
      ok := Publish(n, dest);
      if !ok {
        Discard(n);
        return None;
      }
      failed := Fault();
      r := if failed then None else b.manifest;
    }

    /** Without faults, backing up a sound vault with an object and restoring it reproduces the
        three internal files and every object, byte for byte, and nothing else. */
    method CreateThenRestore(vault: Parts, backup: Parts, dest: Parts)
      requires Valid() && !faulty && At(vault) in places && At(backup) !in places && At(dest) !in places
      requires !(vault <= backup) && !(backup <= dest) && dest != backup
      requires Sound(places[At(vault)].vault) && HasObject(places[At(vault)].vault)
      requires VolumeID(places[At(vault)].vault) != Some("")
      modifies this`places, this`next, this`trace
      ensures At(dest) in places && FilesOf(places[At(dest)].vault) == BackupSet(old(places)[At(vault)].vault)
    {
      ghost var source := places[At(vault)].vault;
      var made := CreateBackup(vault, backup);
      ghost var b := places[At(backup)];
      BackupIsRestorable(b, source, sizeOf);
      var restored := RestoreBackup(backup, dest);
      SameListing(b.manifest.value.files, FilesOf(places[At(dest)].vault), BackupSet(source), sizeOf);
    }

    // -------------------------------------------------------------- verifying

    /** The digest loop of `VerifyBackup`. */
    method CheckListed(files: seq<BackupFile>, t: Tree) returns (ok: bool, seen: set<RelPath>)
      ensures ok ==> ListedFiles(files, t, sizeOf) && seen == set i | 0 <= i < |files| :: files[i].path
      ensures !faulty ==> (ok <==> ListedFiles(files, t, sizeOf))
    {
      seen := {};
      for i := 0 to |files|
        invariant seen == set j | 0 <= j < i :: files[j].path
        invariant ListedFiles(files[..i], t, sizeOf)
      {
        assert files[..i + 1] == files[..i] + [files[i]];
        var p := files[i].path;
        var failed := Fault();
        if failed || p.Unsafe? || p in seen || !IsFile(t, p) { return false, seen; }
        var d := t[p].data;
        if files[i].size != sizeOf(d) || files[i].digest != Digest(d) { return false, seen; }
        seen := seen + {p};
      }
      assert files[..|files|] == files;
      ok := true;
    }

    /** `validateBackupTree`, visiting the nodes in any order. */
    method ValidateBackupTree(t: Tree, expected: set<RelPath>) returns (ok: bool)
      ensures ok ==> CleanTree(t, expected)
      ensures !faulty ==> (ok <==> CleanTree(t, expected))
    {
      var todo := t.Keys;
      while todo != {}
        invariant todo <= t.Keys && forall p | p in t.Keys - todo :: NodeOk(t, p, expected)
        decreases |todo|
      {
        var p :| p in todo;
        var failed := Fault();
        if failed || t[p].OtherNode? { return false; }
        if t[p].Dir? && p != InternalDir && p != ObjectsDir { return false; }
        if t[p].File? && p !in expected { return false; }
        todo := todo - {p};
      }
      ok := true;
    }

    /** The decryption loop of `VerifyVault`. */
    method DecryptAll(t: Tree, m: Index, limit: nat) returns (ok: bool)
      ensures ok ==> forall k | k in m.files :: Decrypts(t, m, k, limit)
      ensures !faulty ==> (ok <==> forall k | k in m.files :: Decrypts(t, m, k, limit))
    {
      var todo := m.files.Keys;
      while todo != {}
        invariant todo <= m.files.Keys && forall k | k in m.files.Keys - todo :: Decrypts(t, m, k, limit)
        decreases |todo|
      {
        var k :| k in todo;
        var failed := Fault();
        if failed || !Decrypts(t, m, k, limit) { return false; }
        todo := todo - {k};
      }
      ok := true;
    }

    /** `loadMetadata` of the volume, which saves a repaired index. */
    method LoadMetadata(place: Parts, now: int) returns (ok: bool)
      requires Valid() && At(place) in places && IndexOf(places[At(place)].vault).Some?
      modifies this`places, this`trace
      ensures Valid() && At(place) in places && old(trace) <= trace
      ensures places == old(places) ||
        places == old(places)[At(place) := old(places)[At(place)].(vault := Saved(old(places)[At(place)].vault, now))]
      ensures ok ==> places[At(place)].vault == Saved(old(places)[At(place)].vault, now)
      ensures !faulty ==> ok
    {
      var t := places[At(place)].vault;
      var failed := Fault();
      if failed { return false; }
      var repaired, changed := ReconcileMetadata(IndexOf(t).value, ActualOf(t, now), now);
      if changed {
        failed := Fault();
        if failed { return false; }
        places := places[At(place) := places[At(place)].(vault := t[MetadataFile := File(MetadataJSON(repaired))])];
        trace := trace + [places];
      }
      failed := Fault();
      ok := !failed;
    }

    /** `VerifyVault`: the volume is loaded on the way, which may rewrite the metadata file. */
    method VerifyVault(place: Parts, limit: nat, now: int) returns (ok: bool)
      requires Valid() && At(place) in places
      modifies this`places, this`trace
      ensures Valid() && At(place) in places && old(trace) <= trace
      ensures ok ==> places[At(place)] == old(places)[At(place)].(vault := Loaded(old(places)[At(place)].vault, now))
      ensures ok ==> VaultOk(old(places)[At(place)].vault, limit)
      ensures !faulty ==> (ok <==> VaultOk(old(places)[At(place)].vault, limit))
    {
      var t := places[At(place)].vault;
      ok := VaultIndex(place);
      if !ok { return; }
      LockKeepsRepair(t, now);
      var failed := Fault();
      if failed || VolumeID(t).None? { return false; }
      ok := LoadMetadata(place, now);
      if !ok { return; }
      failed := Fault();
      if failed || !IsFile(t, IdentityFile) { return false; }
      ok := DecryptAll(t, IndexOf(t).value, limit);
    }

    /** `VerifyBackup`: without faults it accepts exactly the acceptable backups; an accepted
        backup is left with a lock file in it, and with a repaired index. */
    method VerifyBackup(backup: Parts, limit: nat, now: int) returns (ok: bool)
      requires Valid() && At(backup) in places
      modifies this`places, this`trace
      ensures Valid() && At(backup) in places
      ensures ok ==> Acceptable(old(places)[At(backup)], limit, sizeOf)
      ensures ok ==> places[At(backup)] == old(places)[At(backup)].(vault := Loaded(old(places)[At(backup)].vault, now))
      ensures !faulty ==> (ok <==> Acceptable(old(places)[At(backup)], limit, sizeOf))
    {
      var b := places[At(backup)];
      var failed := Fault();
      if failed || b.manifest.None? || b.manifest.value.volumeID == "" { return false; }
      var seen;
      ok, seen := CheckListed(b.manifest.value.files, b.vault);
      if !ok { return; }
      ok := ValidateBackupTree(b.vault, seen);
      if !ok { return; }
      ok := VerifyVault(backup, limit, now);
      ok := ok && VolumeID(b.vault) == Some(b.manifest.value.volumeID);
    }
  }

  /** The metadata file holds the repaired index. */
  function Saved(t: Tree, now: int): Tree
    requires IndexOf(t).Some?
  {
    if RepairIsIdle(t, now) then t else t[MetadataFile := File(MetadataJSON(LoadedIndex(t, now)))]
  }

  /** What a verification leaves behind. */
  function Loaded(t: Tree, now: int): Tree {
    if IndexOf(t).None? then Locked(t) else Saved(Locked(t), now)
  }

  lemma LockKeepsRepair(t: Tree, now: int)
    ensures IndexOf(Locked(t)) == IndexOf(t) && ActualOf(Locked(t), now) == ActualOf(t, now)
    ensures RepairIsIdle(Locked(t), now) <==> RepairIsIdle(t, now)
  {
    var l := Locked(t);
    assert forall p | p != LockFile :: (p in l <==> p in t) && (p in l ==> l[p] == t[p]);
  }

  function Locked(t: Tree): Tree { if LockFile in t then t else t[LockFile := File(OtherData([]))] }

  /** The lock file changes nothing that matters to a backup. */
  lemma LockIsHarmless(t: Tree)
    ensures BackupSet(Locked(t)) == BackupSet(t) && VolumeID(Locked(t)) == VolumeID(t) && (Sound(Locked(t)) <==> Sound(t))
    ensures HasObject(Locked(t)) <==> HasObject(t)
  {
    var l := Locked(t);
    assert forall p | p != LockFile :: (p in l <==> p in t) && (p in l ==> l[p] == t[p]);
    assert IndexOf(l) == IndexOf(t);
    assert CleanObjects(l) <==> CleanObjects(t);
    if IndexOf(t).Some? { assert Bijection(l, IndexOf(t).value) <==> Bijection(t, IndexOf(t).value); }
    if HasObject(t) {
      var p :| p in t && p.ObjectAt? && t[p].File?;
      assert p in l && l[p].File?;
    }
  }

  /** A backup of the locked vault is a backup of the vault. */
  lemma SameBackup(t: Tree, sizeOf: Data -> nat)
    ensures forall b :: CompleteBackup(b, Locked(t), sizeOf) <==> CompleteBackup(b, t, sizeOf)
  {
    LockIsHarmless(t);
  }

  // ------------------------------------------------------------ acceptance

  predicate Decrypts(t: Tree, m: Index, k: Key, limit: nat) {
    && k in m.files && k.ObjectKey? && IsFile(t, ObjectAt(k.id)) && t[ObjectAt(k.id)].data.Ciphertext?
    && t[ObjectAt(k.id)].data.content.Sealed?
    && |t[ObjectAt(k.id)].data.content.plaintext| == m.files[k].size && m.files[k].size <= limit
  }

  /** The vault opens, and every object decrypts to its recorded size. */
  ghost predicate VaultOk(t: Tree, limit: nat) {
    Sound(t) && forall k | k in IndexOf(t).value.files :: Decrypts(t, IndexOf(t).value, k, limit)
  }

  predicate NodeOk(t: Tree, p: RelPath, expected: set<RelPath>) {
    p in t && match t[p]
              case OtherNode => false
              case Dir => p == InternalDir || p == ObjectsDir
              case File(_) => p in expected
  }

  predicate CleanTree(t: Tree, expected: set<RelPath>) { forall p | p in t.Keys :: NodeOk(t, p, expected) }

  ghost predicate Acceptable(b: Published, limit: nat, sizeOf: Data -> nat) {
    && b.manifest.Some? && b.manifest.value.volumeID != ""
    && ListedFiles(b.manifest.value.files, b.vault, sizeOf)
    && CleanTree(b.vault, ExpectedBy(b))
    && VaultOk(b.vault, limit) && VolumeID(b.vault) == Some(b.manifest.value.volumeID)
  }

  /** The size of the plaintext that an object file decrypts to. */
  function PlainSize(node: Node): Option<nat> {
    match node
    case File(Ciphertext(Sealed(plaintext, _))) => Some(|plaintext|)
    case _ => None
  }

  /** A sound vault verifies exactly if each object in it decrypts to its recorded size, within the limit. */
  lemma VaultOkMeans(t: Tree, limit: nat)
    requires Sound(t)
    ensures VaultOk(t, limit) <==>
      forall id | ObjectAt(id) in t ::
        var size := IndexOf(t).value.files[ObjectKey(id)].size; PlainSize(t[ObjectAt(id)]) == Some(size) && size <= limit
  {
    var m := IndexOf(t).value;
    assert Bijection(t, m);
    forall id | ObjectAt(id) in t ensures ObjectKey(id) in m.files { assert ObjectAt(id).ObjectAt? && ObjectAt(id).id == id; }
  }

  /** Acceptance means: the files of the tree are exactly the files of the manifest, records and
      objects are in bijection, and each object decrypts to its recorded size. */
  lemma AcceptedMeans(b: Published, limit: nat, sizeOf: Data -> nat)
    requires Acceptable(b, limit, sizeOf)
    ensures Lists(b.manifest.value.files, FilesOf(b.vault), sizeOf)
    ensures Bijection(b.vault, IndexOf(b.vault).value)
    ensures forall id | ObjectAt(id) in b.vault ::
      ObjectKey(id) in IndexOf(b.vault).value.files
      && PlainSize(b.vault[ObjectAt(id)]) == Some(IndexOf(b.vault).value.files[ObjectKey(id)].size)
  {
    VaultOkMeans(b.vault, limit);
    forall id | ObjectAt(id) in b.vault ensures ObjectKey(id) in IndexOf(b.vault).value.files { assert ObjectAt(id).id == id; }
    var files, contents := b.manifest.value.files, FilesOf(b.vault);
    forall p | p in contents ensures exists i :: 0 <= i < |files| && files[i].path == p {
      assert NodeOk(b.vault, p, ExpectedBy(b));
    }
  }

  /** A second verification accepts if and only if the manifest happens to list the lock file, which
      the first one left behind if it was not there, and loading the volume left the index as it
      was: version, displaced links, inodes, stray entries and doubled marks had nothing to repair. */
  lemma SecondVerificationAcceptsIff(b: Published, limit: nat, sizeOf: Data -> nat, now: int)
    requires Acceptable(b, limit, sizeOf)
    ensures Acceptable(b.(vault := Loaded(b.vault, now)), limit, sizeOf)
            <==> RepairIsIdle(b.vault, now)
                 && exists i :: 0 <= i < |b.manifest.value.files| && b.manifest.value.files[i].path == LockFile
  {
    var files, expected := b.manifest.value.files, ExpectedBy(b);
    var after := Loaded(b.vault, now);
    LockKeepsRepair(b.vault, now);
    if LockFile !in expected {
      assert LockFile in after && !NodeOk(after, LockFile, expected);
    } else {
      assert Locked(b.vault) == b.vault;
      if !RepairIsIdle(b.vault, now) { RewrittenIndexIsNoticed(b, sizeOf, now); }
    }
  }

  function ExpectedBy(b: Published): set<RelPath>
    requires b.manifest.Some?
  {
    set i | 0 <= i < |b.manifest.value.files| :: b.manifest.value.files[i].path
  }

  /** The digest of the metadata file no longer matches. */
  lemma RewrittenIndexIsNoticed(b: Published, sizeOf: Data -> nat, now: int)
    requires b.manifest.Some? && ListedFiles(b.manifest.value.files, b.vault, sizeOf) && IndexOf(b.vault).Some?
    requires CleanTree(b.vault, ExpectedBy(b)) && !RepairIsIdle(b.vault, now)
    ensures !ListedFiles(b.manifest.value.files, Saved(b.vault, now), sizeOf)
  {
    var files := b.manifest.value.files;
    assert NodeOk(b.vault, MetadataFile, ExpectedBy(b));
    var i :| 0 <= i < |files| && files[i].path == MetadataFile;
    assert Saved(b.vault, now)[files[i].path].data != b.vault[files[i].path].data;
  }

  /** A complete backup of a vault that opens is accepted. */
  lemma CompleteBackupIsAccepted(b: Published, source: Tree, limit: nat, sizeOf: Data -> nat)
    requires CompleteBackup(b, source, sizeOf) && VaultOk(source, limit) && HasObject(source) && VolumeID(source) != Some("")
    ensures Acceptable(b, limit, sizeOf)
  {
    var files := b.manifest.value.files;
    SameVault(b.vault, source);
    forall p | p in b.vault.Keys ensures NodeOk(b.vault, p, ExpectedBy(b)) {
      if b.vault[p].File? { assert p in FilesOf(b.vault); }
    }
    forall i | 0 <= i < |files| ensures IsFile(b.vault, files[i].path) && b.vault[files[i].path].data == BackupSet(source)[files[i].path] {
      assert files[i].path in FilesOf(b.vault);
    }
    forall k | k in IndexOf(source).value.files ensures Decrypts(b.vault, IndexOf(source).value, k, limit) {
      assert Decrypts(source, IndexOf(source).value, k, limit);
      SameFile(b.vault, source, ObjectAt(k.id));
    }
  }

  lemma SameFile(t: Tree, source: Tree, p: RelPath)
    requires FilesOf(t) == BackupSet(source) && Backed(p)
    ensures IsFile(t, p) <==> IsFile(source, p)
    ensures IsFile(t, p) ==> t[p] == source[p]
  {
    assert p in FilesOf(t) <==> p in BackupSet(source);
    if p in FilesOf(t) { assert FilesOf(t)[p] == BackupSet(source)[p]; }
  }

  lemma SameVault(t: Tree, source: Tree)
    requires FilesOf(t) == BackupSet(source) && Copied(t) && ObjectsDir in t && Sound(source)
    ensures Sound(t) && IndexOf(t) == IndexOf(source) && VolumeID(t) == VolumeID(source)
  {
    SameFile(t, source, MetadataFile);
    SameFile(t, source, PublicFile);
    SameFile(t, source, IdentityFile);
    forall p | p in t && InObjects(p) ensures p.ObjectAt? && t[p].File? {
      assert p in FilesOf(t);
    }
    forall id ensures ObjectAt(id) in t <==> ObjectAt(id) in source { SameFile(t, source, ObjectAt(id)); }
    assert Bijection(t, IndexOf(source).value);
  }

  /** A small backup, of an empty vault with the given index version. */
  function SampleVault(version: int, locked: bool): Tree {
    var t := map[InternalDir := Dir, ObjectsDir := Dir, PublicFile := File(PublicConfig("v")), IdentityFile := File(IdentityBlob([])),
                 MetadataFile := File(MetadataJSON(Index(version, map[], map[], map[], map[], map[], false)))];
    if locked then t[LockFile := File(OtherData([]))] else t
  }

  function ListingOf(t: Tree, p: RelPath, sizeOf: Data -> nat): BackupFile
    requires IsFile(t, p)
  {
    BackupFile(p, sizeOf(t[p].data), Digest(t[p].data))
  }

  function SampleBackup(version: int, locked: bool, sizeOf: Data -> nat): Published {
    var t := SampleVault(version, locked);
    var files := [ListingOf(t, PublicFile, sizeOf), ListingOf(t, IdentityFile, sizeOf), ListingOf(t, MetadataFile, sizeOf)];
    Published(Some(Manifest("v", if locked then files + [ListingOf(t, LockFile, sizeOf)] else files)), t)
  }

  lemma SampleIsListed(version: int, locked: bool, sizeOf: Data -> nat)
    ensures var b := SampleBackup(version, locked, sizeOf);
            && ListedFiles(b.manifest.value.files, b.vault, sizeOf)
            && ExpectedBy(b) == {PublicFile, IdentityFile, MetadataFile} + (if locked then {LockFile} else {})
            && (locked ==> exists i :: 0 <= i < |b.manifest.value.files| && b.manifest.value.files[i].path == LockFile)
  {
    var b := SampleBackup(version, locked, sizeOf);
    var files := b.manifest.value.files;
    assert files[0].path == PublicFile && files[1].path == IdentityFile && files[2].path == MetadataFile;
    assert locked ==> files[3].path == LockFile;
  }

  lemma SampleIsSound(version: int, locked: bool, limit: nat)
    requires version == PREVIOUS_VERSION || version == FORMAT_VERSION
    ensures VaultOk(SampleVault(version, locked), limit) && VolumeID(SampleVault(version, locked)) == Some("v")
    ensures CleanTree(SampleVault(version, locked), {PublicFile, IdentityFile, MetadataFile} + (if locked then {LockFile} else {}))
  {
  }

  lemma SampleIsAcceptable(version: int, locked: bool, limit: nat, sizeOf: Data -> nat)
    requires version == PREVIOUS_VERSION || version == FORMAT_VERSION
    ensures Acceptable(SampleBackup(version, locked, sizeOf), limit, sizeOf)
  {
    SampleIsListed(version, locked, sizeOf);
    SampleIsSound(version, locked, limit);
  }

  /** The lock file alone is enough to make the second verification fail ... */
  lemma LockFileSpoilsBackup(limit: nat, sizeOf: Data -> nat, now: int)
    ensures var b := SampleBackup(FORMAT_VERSION, false, sizeOf);
            Acceptable(b, limit, sizeOf) && RepairIsIdle(b.vault, now) && !Acceptable(b.(vault := Loaded(b.vault, now)), limit, sizeOf)
  {
    var b := SampleBackup(FORMAT_VERSION, false, sizeOf);
    SampleIsAcceptable(FORMAT_VERSION, false, limit, sizeOf);
    SampleRepair(FORMAT_VERSION, false, now);
    SecondVerificationAcceptsIff(b, limit, sizeOf, now);
  }

  /** ... and so is an index of the previous format version, even if the manifest lists the lock file. */
  lemma RepairSpoilsBackup(limit: nat, sizeOf: Data -> nat, now: int)
    ensures var b := SampleBackup(PREVIOUS_VERSION, true, sizeOf);
            && Acceptable(b, limit, sizeOf) && LockFile in ExpectedBy(b)
            && !Acceptable(b.(vault := Loaded(b.vault, now)), limit, sizeOf)
  {
    var b := SampleBackup(PREVIOUS_VERSION, true, sizeOf);
    SampleIsAcceptable(PREVIOUS_VERSION, true, limit, sizeOf);
    SampleRepair(PREVIOUS_VERSION, true, now);
    SampleIsListed(PREVIOUS_VERSION, true, sizeOf);
    SecondVerificationAcceptsIff(b, limit, sizeOf, now);
  }

  lemma SampleRepair(version: int, locked: bool, now: int)
    ensures RepairIsIdle(SampleVault(version, locked), now) <==> version == FORMAT_VERSION
  {
    var t := SampleVault(version, locked);
    assert ActualOf(t, now) == map[];
    var m := IndexOf(t).value;
    assert m == Index(version, map[], map[], map[], map[], map[], false);
    assert Repaired(m, map[], now) == m.(version := FORMAT_VERSION);
  }

  // ------------------------------------------------------------- round trip

  /** Two contents with the same listing are the same: digests are injective. */
  lemma SameListing(files: seq<BackupFile>, a: map<RelPath, Data>, b: map<RelPath, Data>, sizeOf: Data -> nat)
    requires Lists(files, a, sizeOf) && Lists(files, b, sizeOf)
    ensures a == b
  {
    forall p ensures (p in a <==> p in b) && (p in a ==> a[p] == b[p]) {
      if p in a {
        var i :| 0 <= i < |files| && files[i].path == p;
        assert files[i].digest == Digest(b[p]);
      }
      if p in b {
        var i :| 0 <= i < |files| && files[i].path == p;
      }
    }
  }

  lemma BackupIsListed(b: Published, source: Tree, sizeOf: Data -> nat)
    requires CompleteBackup(b, source, sizeOf)
    ensures Listed(b.manifest.value.files, b.vault, sizeOf)
  {
    var files := b.manifest.value.files;
    forall i | 0 <= i < |files|
      ensures IsFile(b.vault, files[i].path) && b.vault[files[i].path].data == BackupSet(source)[files[i].path] && Backed(files[i].path)
    {
      assert files[i].path in FilesOf(b.vault);
    }
  }

  lemma BackupIsRestorable(b: Published, source: Tree, sizeOf: Data -> nat)
    requires CompleteBackup(b, source, sizeOf) && HasObject(source) && VolumeID(source) != Some("")
    ensures Restorable(b, sizeOf)
  {
    BackupIsListed(b, source, sizeOf);
    var files, contents := b.manifest.value.files, BackupSet(source);
    assert PublicFile in contents;
    var i :| 0 <= i < |files| && files[i].path == PublicFile;
    assert DirOf(files[i].path) == Some(InternalDir);
    var p :| p in source && p.ObjectAt? && source[p].File?;
    assert p in contents;
    var j :| 0 <= j < |files| && files[j].path == p;
    assert DirOf(files[j].path) == Some(ObjectsDir);
  }

  /** Nothing but this staging directory changed. */
  ghost predicate OnlyTemp(a: Places, b: Places, n: nat) {
    forall p | p != Temp(n) :: (p in b <==> p in a) && (p in b ==> b[p] == a[p])
  }

  /** ... not at any moment since, and not now. */
  ghost predicate OnlyTempSince(trace: seq<Places>, k: nat, a: Places, b: Places, n: nat) {
    OnlyTemp(a, b, n) && forall i | k <= i < |trace| :: OnlyTemp(a, trace[i], n)
  }

  lemma OnlyTempOn(early: seq<Places>, trace: seq<Places>, k: nat, a: Places, b: Places, c: Places, n: nat)
    requires OnlyTempSince(early, k, a, b, n) && OnlyTemp(b, c, n)
    requires trace == early || trace == early + [c]
    ensures OnlyTempSince(trace, k, a, c, n)
  {
  }
}
