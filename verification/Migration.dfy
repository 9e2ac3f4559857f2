/** Moving ciphertexts from the path-named layout of the first format to object names.

  Ciphertexts are files that may have several names; migrating renames them and drops
  duplicate names, never writes them.  Every step may fail, and a failed or interrupted
  migration is simply tried again.
*/
module Migration {
  import opened Optional
  import opened DirectoryMoves
  import opened Metadata

  datatype VaultName = V1(key: string) | Object(id: string)

  datatype Node = Ciphertext(inode: nat) | Irregular

  type Names = map<VaultName, Node>

  /** A number for a record that has none. */
  type Stable = n: nat | n >= 2 witness 2

  /** A rename, or the removal of one of two names of a file. */
  datatype Step = Renamed(source: VaultName, target: VaultName) | Dropped(name: VaultName, survivor: VaultName)

  predicate Linked(links: map<string, Parts>, key: string) { key in links && links[key] != [] }

  /** A rename goes to the free object name of the key.  A dropped name had another name for
      the same file: a name that is linked, or the object name of the key. */
  predicate Legit(a: Names, step: Step, b: Names, links: map<string, Parts>, ids: string -> string) {
    match step
    case Renamed(x, y) =>
      && x.V1? && y == Object(ids(x.key)) && x in a && a[x].Ciphertext? && y !in a && b == (a - {x})[y := a[x]]
    case Dropped(x, y) =>
      && x.V1? && x != y && x in a && y in a && a[x].Ciphertext? && a[y] == a[x] && b == a - {x}
      && (y == Object(ids(x.key)) || (y.V1? && y.key in links && links[y.key] != []))
  }

  ghost predicate Reachable(names: Names, inode: nat) {
    exists name :: name in names && names[name] == Ciphertext(inode)
  }

  lemma StepConserves(a: Names, step: Step, b: Names, links: map<string, Parts>, ids: string -> string, inode: nat)
    requires Legit(a, step, b, links, ids)
    ensures Reachable(a, inode) <==> Reachable(b, inode)
  {
    if Reachable(a, inode) {
      var name :| name in a && a[name] == Ciphertext(inode);
      match step
      case Renamed(x, y) => assert b[if name == x then y else name] == Ciphertext(inode);
      case Dropped(x, y) => assert b[if name == x then y else name] == Ciphertext(inode);
    }
    if Reachable(b, inode) {
      var name :| name in b && b[name] == Ciphertext(inode);
      match step
      case Renamed(x, y) => assert a[if name == y then x else name] == Ciphertext(inode);
      case Dropped(x, y) => assert a[name] == Ciphertext(inode);
    }
  }

  ghost predicate History(trace: seq<Names>, steps: seq<Step>, links: map<string, Parts>, ids: string -> string) {
    |trace| == |steps| + 1 && forall i: nat | i < |steps| :: LegitAt(trace, steps, links, ids, i)
  }

  predicate LegitAt(trace: seq<Names>, steps: seq<Step>, links: map<string, Parts>, ids: string -> string, i: nat) {
    i < |steps| && i + 1 < |trace| && Legit(trace[i], steps[i], trace[i + 1], links, ids)
  }

  /** Between any two moments of any number of attempts, exactly the same ciphertexts are reachable. */
  lemma {:induction false} CiphertextsAreConserved(
      trace: seq<Names>, steps: seq<Step>, links: map<string, Parts>, ids: string -> string, i: nat, j: nat, inode: nat)
    requires History(trace, steps, links, ids) && i <= j < |trace|
    ensures Reachable(trace[i], inode) <==> Reachable(trace[j], inode)
    decreases j
  {
    if i < j {
      CiphertextsAreConserved(trace, steps, links, ids, i, j - 1, inode);
      assert LegitAt(trace, steps, links, ids, j - 1);
      StepConserves(trace[j - 1], steps[j - 1], trace[j], links, ids, inode);
    }
  }

  /** No object name is ever overwritten or lost: what is there stays there. */
  lemma {:induction false} ObjectsStay(
      trace: seq<Names>, steps: seq<Step>, links: map<string, Parts>, ids: string -> string, i: nat, j: nat, id: string)
    requires History(trace, steps, links, ids) && i <= j < |trace| && Object(id) in trace[i]
    ensures Object(id) in trace[j] && trace[j][Object(id)] == trace[i][Object(id)]
    decreases j
  {
    if i < j {
      ObjectsStay(trace, steps, links, ids, i, j - 1, id);
      assert LegitAt(trace, steps, links, ids, j - 1);
    }
  }

  lemma HistoryGrows(trace: seq<Names>, steps: seq<Step>, links: map<string, Parts>, ids: string -> string, step: Step, b: Names)
    requires History(trace, steps, links, ids) && Legit(trace[|trace| - 1], step, b, links, ids)
    ensures History(trace + [b], steps + [step], links, ids)
  {
    forall i: nat | i < |steps| + 1 ensures LegitAt(trace + [b], steps + [step], links, ids, i) {
      if i < |steps| { assert LegitAt(trace, steps, links, ids, i); }
    }
  }

  class LegacyVault {
    const files: map<string, FileMeta>
    const links: map<string, Parts>
    const origins: map<string, Parts>
    const ids: string -> string
    const stable: VaultName -> Stable
    const written: nat -> int
    const faulty: bool
    var names: Names
    var migrated: Option<Index>
    ghost var trace: seq<Names>
    ghost var steps: seq<Step>

    ghost predicate Valid()
      reads this
    {
      History(trace, steps, links, ids) && trace[|trace| - 1] == names
    }

    /** `stable` numbers names, and `written` tells when each file was last written. */
    constructor (files: map<string, FileMeta>, links: map<string, Parts>, origins: map<string, Parts>, ids: string -> string,
                 stable: VaultName -> Stable, written: nat -> int, faulty: bool, names: Names)
      ensures Valid() && this.names == names && migrated == None && trace == [names]
      ensures this.files == files && this.links == links && this.origins == origins && this.ids == ids && this.faulty == faulty
      ensures this.stable == stable && this.written == written
    {
      this.files, this.links, this.origins, this.ids := files, links, origins, ids;
      this.stable, this.written, this.faulty, this.names := stable, written, faulty, names;
      migrated, trace, steps := None, [names], [];
    }

    predicate HasCiphertext(key: string)
      reads this
    {
      V1(key) in names && names[V1(key)].Ciphertext?
    }

    method Fault() returns (failed: bool)
      ensures failed ==> faulty
    {
      failed := *;
      failed := failed && faulty;
    }

    method Drop(name: VaultName, ghost survivor: VaultName) returns (ok: bool)
      requires Valid() && name in names && Legit(names, Dropped(name, survivor), names - {name}, links, ids)
      modifies this`names, this`trace, this`steps
      ensures Valid() && old(trace) <= trace
      ensures names == if ok then old(names) - {name} else old(names)
      ensures !faulty ==> ok
    {
      var failed := Fault();
      ok := !failed;
      if ok {
        HistoryGrows(trace, steps, links, ids, Dropped(name, survivor), names - {name});
        names := names - {name};
        trace, steps := trace + [names], steps + [Dropped(name, survivor)];
      }
    }

    method RenameNoReplace(key: string) returns (ok: bool)
      requires Valid() && HasCiphertext(key)
      modifies this`names, this`trace, this`steps
      ensures Valid() && old(trace) <= trace
      ensures ok ==>
        && Object(ids(key)) !in old(names)
        && names == (old(names) - {V1(key)})[Object(ids(key)) := old(names)[V1(key)]]
      ensures !ok ==> names == old(names)
      ensures !faulty && Object(ids(key)) !in old(names) ==> ok
    {
      var failed := Fault();
      var target := Object(ids(key));
      ok := !failed && target !in names;
      if ok {
        var after := (names - {V1(key)})[target := names[V1(key)]];
        HistoryGrows(trace, steps, links, ids, Renamed(V1(key), target), after);
        names := after;
        trace, steps := trace + [names], steps + [Renamed(V1(key), target)];
      }
    }

    /** `moveLegacyCiphertext`: success leaves the ciphertext under its object name only. */
    method MoveLegacyCiphertext(key: string) returns (ok: bool)
      requires Valid()
      modifies this`names, this`trace, this`steps
      ensures Valid() && old(trace) <= trace
      ensures ok ==> V1(key) !in names && Object(ids(key)) in names && names[Object(ids(key))].Ciphertext?
      ensures ok && V1(key) in old(names) ==> names[Object(ids(key))] == old(names)[V1(key)]
      ensures Object(ids(key)) in old(names) ==>
        Object(ids(key)) in names && names[Object(ids(key))] == old(names)[Object(ids(key))]
      ensures forall name | name != V1(key) && name != Object(ids(key)) ::
        (name in names <==> name in old(names)) && (name in names ==> names[name] == old(names)[name])
      ensures !faulty && HasMove(old(names), key) ==> ok
    {
      var failed := Fault();
      if failed { return false; }
      var source, target := V1(key), Object(ids(key));
      if source in names && names[source].Irregular? { return false; }
      if target in names && names[target].Irregular? { return false; }
      if source in names && target in names {
        if names[source] != names[target] { return false; }
        ok := Drop(source, target);
      } else if source in names {
        ok := RenameNoReplace(key);
      } else {
        return target in names;
      }
      failed := Fault();
      ok := ok && !failed;
    }

    /** The move can succeed: the object name is free or already this very file. */
    predicate HasMove(st: Names, key: string) {
      V1(key) in st && st[V1(key)].Ciphertext? && (Object(ids(key)) in st ==> st[Object(ids(key))] == st[V1(key)])
    }
  
    predicate Duplicate(st: Names, key: string, other: string) {
      V1(key) in st && st[V1(key)].Ciphertext? && V1(other) in st && st[V1(other)] == st[V1(key)]
      && other in links && links[other] != [] && (key in links ==> links[key] == [])
    }

    function Keys(st: Names): set<string> {
      set name | name in st && name.V1? && st[name].Ciphertext? :: name.key
    }

    lemma KeyOf(st: Names, key: string)
      ensures key in Keys(st) <==> V1(key) in st && st[V1(key)].Ciphertext?
    {
    }

    /** The metadata the rest of the migration works on: one record per ciphertext found. */
    function Repaired(st: Names): map<string, FileMeta> {
      map key | key in Keys(st) ::
        if key in files then (if files[key].inode < 2 then files[key].(inode := stable(V1(key))) else files[key])
        else FileMeta(0, 384, written(st[V1(key)].inode), written(st[V1(key)].inode), stable(V1(key)))
    }

    /** A retry works without the record of a ciphertext that was already moved: metadata need
        not converge, only ciphertexts are conserved. */
    lemma RetryForgetsMoved(st: Names, key: string)
      ensures key in Repaired(st) <==> V1(key) in st && st[V1(key)].Ciphertext?
    {
      KeyOf(st, key);
    }

    /** The record of a ciphertext: what was recorded, with a number if it had none; or, if nothing
        was, an empty private file as old as the ciphertext. */
    predicate Recalls(record: FileMeta, key: string, inode: nat) {
      if key in files then
        && record.size == files[key].size && record.mode == files[key].mode
        && record.mtime == files[key].mtime && record.atime == files[key].atime
        && (files[key].inode >= 2 ==> record.inode == files[key].inode)
        && (files[key].inode < 2 ==> record.inode == stable(V1(key)))
      else record.size == 0 && record.mode == 384 && record.mtime == record.atime == written(inode) && record.inode == stable(V1(key))
    }

    lemma RepairRecalls(st: Names, key: string)
      requires V1(key) in st && st[V1(key)].Ciphertext?
      ensures key in Repaired(st) && Recalls(Repaired(st)[key], key, st[V1(key)].inode) && Repaired(st)[key].inode >= 2
    {
      KeyOf(st, key);
    }

    /** Only a duplicate name may go. */
    ghost predicate OnlyDuplicatesDropped(a: Names, b: Names) {
      && b.Keys <= a.Keys && (forall name | name in b :: b[name] == a[name])
      && (forall name | name in a && name.Object? :: name in b) && forall key :: DropIsJustified(a, b, key)
    }

    ghost predicate DropIsJustified(a: Names, b: Names, key: string) {
      V1(key) in a && V1(key) !in b ==> HasDuplicate(a, key)
    }

    ghost predicate HasDuplicate(st: Names, key: string) { exists other :: Duplicate(st, key, other) }

    lemma LinkedIsNoDuplicate(st: Names, key: string)
      requires key in links && links[key] != []
      ensures !HasDuplicate(st, key)
    {
    }

    /** `reconcileLegacyMetadata`: drops every unlinked name of a linked file, and nothing else;
        forgets records whose ciphertext is gone; adds records for unrecorded ciphertexts. */
    method ReconcileLegacy() returns (ok: bool, result: map<string, FileMeta>)
      requires Valid()
      modifies this`names, this`trace, this`steps
      ensures Valid() && old(trace) <= trace
      ensures OnlyDuplicatesDropped(old(names), names)
      ensures ok ==> result == Repaired(names) && result.Keys == Keys(names)
      ensures ok ==> forall key, other :: !Duplicate(names, key, other)
      ensures !faulty ==> ok
    {
      result := map[];
      ok := false;
      var failed := Fault();
      if failed { return; }
      var found := Keys(names);
      ok := DropDuplicates(found);
      if !ok { return; }
      result := Repaired(names);
    }

    method DropDuplicates(found: set<string>) returns (ok: bool)
      requires Valid() && found == Keys(names)
      modifies this`names, this`trace, this`steps
      ensures Valid() && old(trace) <= trace
      ensures OnlyDuplicatesDropped(old(names), names)
      ensures ok ==> forall key, other :: !Duplicate(names, key, other)
      ensures !faulty ==> ok
    {
      ok := true;
      var linkedFiles := set key | key in found && Linked(links, key) :: names[V1(key)];
      var todo := found;
      while todo != {}
        invariant todo <= found && Valid() && old(trace) <= trace
        invariant OnlyDuplicatesDropped(old(names), names)
        invariant forall key | key in todo :: V1(key) in names
        invariant forall key, other | Duplicate(names, key, other) :: key in todo
        decreases |todo|
      {
        var key :| key in todo;
        ghost var before := names;
        if !Linked(links, key) && names[V1(key)] in linkedFiles {
          ghost var other :| other in found && Linked(links, other) && old(names)[V1(other)] == names[V1(key)];
          LinkedIsNoDuplicate(old(names), other);
          assert DropIsJustified(old(names), names, other);
          assert Duplicate(names, key, other) && Duplicate(old(names), key, other);
          ok := Drop(V1(key), V1(other));
          if !ok { return; }
        } else {
          forall other ensures !Duplicate(names, key, other) { KeyOf(old(names), other); }
        }
        forall k ensures DropIsJustified(old(names), names, k) { assert DropIsJustified(old(names), before, k); }
        forall k, other | Duplicate(names, k, other) ensures k in todo - {key} {
          assert Duplicate(before, k, other);
        }
        todo := todo - {key};
      }
    }

    /** Every ciphertext, but for duplicate names, is under its object name, indexed and described there. */
    ghost predicate CarriesOver(start: Names, st: Names, m: Index) { forall key :: CarriedOver(start, st, m, key) }

    /** No ciphertext is left under an old name, and the index is in order. */
    ghost predicate Completed(start: Names, st: Names, migrated: Option<Index>) {
      match migrated
      case None => false
      case Some(m) =>
        && Keys(st) == {} && OnlyStoredIndexed(st, m) && CarriesOver(start, st, m)
        && Inclusion(m) && Settled(m) && m.version == FORMAT_VERSION
    }

    ghost predicate CarriedOver(start: Names, st: Names, m: Index, key: string) {
      V1(key) in start && start[V1(key)].Ciphertext? && !HasDuplicate(start, key) ==>
        && ObjectKey(ids(key)) in m.files && Object(ids(key)) in st && st[Object(ids(key))] == start[V1(key)]
        && (DistinctIds() ==> Described(m, key) && Recalls(m.files[ObjectKey(ids(key))], key, start[V1(key)].inode))
    }

    predicate OnlyStoredIndexed(st: Names, m: Index) {
      forall k | k in m.files :: k.ObjectKey? && Object(k.id) in st && st[Object(k.id)].Ciphertext?
    }

    lemma MigrationCarriesOver(start: Names, middle: Names, st: Names, legacy: map<string, FileMeta>, m: Index)
      requires OnlyDuplicatesDropped(start, middle) && legacy == Repaired(middle)
      requires MovedSoFar(middle, st, legacy.Keys, {}) && RecordsSoFar(m, legacy, {})
      ensures CarriesOver(start, st, m) && OnlyStoredIndexed(st, m)
    {
      forall key ensures CarriedOver(start, st, m, key) {
        if V1(key) in start && start[V1(key)].Ciphertext? && !HasDuplicate(start, key) {
          assert DropIsJustified(start, middle, key);
          RepairRecalls(middle, key);
          assert key in legacy.Keys - {};
        }
      }
    }

    /** `migrateLegacyMetadata`.  If it succeeds, every ciphertext is under an object name that
        the new metadata records, with its record and its link; whether it does or not, no
        ciphertext was lost. */
    method Migrate(now: int) returns (ok: bool)
      requires Valid()
      modifies this`names, this`trace, this`steps, this`migrated
      ensures Valid() && old(trace) <= trace
      ensures if ok then Completed(old(names), names, migrated) else migrated == old(migrated) || Completed(old(names), names, migrated)
      ensures !faulty && Movable(old(names)) ==> ok
    {
      var done;
      ok, done := MoveToObjects(now);
      if !ok { return; }
      ok := Store(done);
    }

    /** All but the last step: everything is moved, and the new metadata is ready. */
    method MoveToObjects(now: int) returns (ok: bool, done: Index)
      requires Valid()
      modifies this`names, this`trace, this`steps
      ensures Valid() && old(trace) <= trace && (ok ==> Completed(old(names), names, Some(done)))
      ensures !faulty && Movable(old(names)) ==> ok
    {
      var legacy;
      ok, legacy := ReconcileLegacy();
      if !ok { return false, Index(FORMAT_VERSION, map[], map[], map[], map[], map[], false); }
      ok, done := MoveReconciled(legacy, now, old(names));
    }

    /** `saveMetadata`, which may take effect although it fails. */
    method Store(done: Index) returns (ok: bool)
      modifies this`migrated
      ensures if ok then migrated == Some(done) else migrated == old(migrated) || migrated == Some(done)
      ensures !faulty ==> ok
    {
      var failed := Fault();
      if failed { return false; }
      migrated := Some(done);
      failed := Fault();
      ok := !failed;
    }

    method MoveReconciled(legacy: map<string, FileMeta>, now: int, ghost start: Names) returns (ok: bool, done: Index)
      requires Valid() && OnlyDuplicatesDropped(start, names) && legacy == Repaired(names) && legacy.Keys == Keys(names)
      modifies this`names, this`trace, this`steps
      ensures Valid() && old(trace) <= trace
      ensures ok ==>
        Completed(start, names, Some(done))
      ensures !faulty && Movable(start) ==> ok
    {
      StillMovable(start, names);
      ok, done := MoveAll(legacy, now);
      if ok { MigrationCarriesOver(start, old(names), names, legacy, done); }
    }

    /** Every ciphertext has its own object name, free or already the very file. */
    ghost predicate Movable(st: Names) {
      DistinctIds() && forall key | key in Keys(st) :: HasMove(st, key)
    }

    ghost predicate DistinctIds() { forall a, b :: ids(a) == ids(b) ==> a == b }

    // ------------------------------------------------------- the new metadata

    /** Where the object's link belongs and where it used to point, if both are known. */
    function Known(key: string): Option<(Parts, Parts)> {
      if key in origins && Linked(links, key) then Some((origins[key], links[key])) else None
    }

    /** What the new metadata says about a migrated object: an object whose link is unknown is
        orphaned; otherwise its path is registered, and if the link was not found with its new
        target, the object is orphaned and the old target is kept. */
    ghost predicate Described(m: Index, key: string) {
      var k := ObjectKey(ids(key));
      && k in m.files && k !in m.recovery
      && if key in origins && key in links && links[key] != [] then
           && k in m.links && m.links[k] == Absolute(origins[key])
           && (k in m.orphaned <==> k in m.legacy) && (k in m.legacy ==> m.legacy[k] == Elsewhere(links[key]))
           && (k !in m.legacy ==> exists mount :: links[key] == mount + origins[key])
         else k in m.orphaned && k !in m.links && k !in m.legacy
    }

    function Recorded(m: Index, key: string, meta: FileMeta, found: bool, now: int): Index {
      var k := ObjectKey(ids(key));
      var filed := m.(files := m.files[k := if meta.inode < 2 then meta.(inode := stable(Object(ids(key)))) else meta]);
      match Known(key)
      case None => filed.(orphaned := filed.orphaned[k := now])
      case Some((source, target)) =>
        var registered := filed.(links := filed.links[k := Absolute(source)]);
        if found then registered
        else registered.(orphaned := registered.orphaned[k := now], legacy := registered.legacy[k := Elsewhere(target)])
    }

    lemma RecordedStaysInOrder(m: Index, key: string, meta: FileMeta, found: bool, now: int)
      requires Inclusion(m) && m.recovery == map[]
      ensures Inclusion(Recorded(m, key, meta, found, now)) && Recorded(m, key, meta, found, now).recovery == map[]
      ensures Recorded(m, key, meta, found, now).files.Keys == m.files.Keys + {ObjectKey(ids(key))}
      ensures Recorded(m, key, meta, found, now).version == m.version
    {
    }

    lemma RecordedIsDescribed(m: Index, key: string, meta: FileMeta, found: bool, now: int, other: string)
      requires Inclusion(m) && m.recovery == map[] && DistinctIds() && ObjectKey(ids(key)) !in m.files
      requires found ==> Reaches(key)
      ensures Described(Recorded(m, key, meta, found, now), key)
      ensures other != key && Described(m, other) ==> Described(Recorded(m, key, meta, found, now), other)
    {
    }

    /** The link is known, and its old target was below a mount point. */
    ghost predicate Reaches(key: string) {
      Known(key).Some? && exists mount :: Known(key).value.1 == mount + Known(key).value.0
    }

    /** `legacyMountPoint`: the target is the source path below some mount point. */
    function MountOf(source: Parts, target: Parts): (r: Option<Parts>)
      ensures r.Some? ==> target == r.value + source
      ensures r.None? ==> forall mount :: target != mount + source
    {
      if |source| <= |target| && target[|target| - |source|..] == source then Some(target[..|target| - |source|])
      else
        assert forall mount: Parts :: (mount + source)[|mount|..] == source;
        None
    }

    /** Looks for the link and retargets it.  Its state is up to whoever used the project meanwhile. */
    method RetargetLink(key: string) returns (ok: bool, found: bool)
      ensures found ==> ok && Reaches(key)
      ensures !faulty ==> ok
    {
      if Known(key).None? || MountOf(Known(key).value.0, Known(key).value.1).None? { return true, false; }
      var failed := Fault();
      if failed { return false, false; }
      var current: bool, legacy: bool := *, *;
      if current { return true, true; }
      if !legacy { return true, false; }
      failed := Fault();
      return !failed, !failed;
    }

    lemma StillMovable(a: Names, b: Names)
      requires OnlyDuplicatesDropped(a, b)
      ensures Movable(a) ==> Movable(b)
    {
      if Movable(a) {
        forall key | key in Keys(b) ensures HasMove(b, key) {
          KeyOf(b, key);
          KeyOf(a, key);
          assert HasMove(a, key);
        }
      }
    }

    /** The keys in `todo` are still to be moved, the others were. */
    ghost predicate MovedSoFar(start: Names, st: Names, all: set<string>, todo: set<string>) {
      && todo <= all && Keys(st) == todo && (forall key | key in all :: V1(key) in start && start[V1(key)].Ciphertext?)
      && (forall key | key in todo :: V1(key) in st && st[V1(key)] == start[V1(key)])
      && (forall key | key in all - todo ::
            Object(ids(key)) in st && st[Object(ids(key))] == start[V1(key)])
    }

    /** At most the key's own two names changed. */
    ghost predicate MovesOne(a: Names, b: Names, key: string) {
      && V1(key) in a && V1(key) !in b && Object(ids(key)) in b && b[Object(ids(key))] == a[V1(key)]
      && (Object(ids(key)) in a ==> b[Object(ids(key))] == a[Object(ids(key))])
      && forall name | name != V1(key) && name != Object(ids(key)) ::
           (name in b <==> name in a) && (name in b ==> b[name] == a[name])
    }

    lemma MoveStep(start: Names, a: Names, b: Names, all: set<string>, todo: set<string>, key: string)
      requires MovedSoFar(start, a, all, todo) && key in todo && MovesOne(a, b, key)
      ensures MovedSoFar(start, b, all, todo - {key})
    {
      forall k ensures k in Keys(b) <==> k in todo - {key} {
        KeyOf(a, k);
        KeyOf(b, k);
      }
    }

    lemma StaysMovable(start: Names, a: Names, b: Names, todo: set<string>, key: string)
      requires Movable(start) && key in todo && MovesOne(a, b, key)
      requires forall k | k in todo :: HasMove(a, k)
      ensures forall k | k in todo - {key} :: HasMove(b, k)
    {
      forall k | k in todo - {key} ensures HasMove(b, k) {
        assert HasMove(a, k) && ids(k) != ids(key);
      }
    }

    /** The new record is the old one. */
    predicate Carried(m: Index, key: string, meta: FileMeta) {
      ObjectKey(ids(key)) in m.files && (meta.inode >= 2 ==> m.files[ObjectKey(ids(key))] == meta)
    }

    ghost predicate RecordsSoFar(m: Index, legacy: map<string, FileMeta>, todo: set<string>) {
      && Inclusion(m) && m.recovery == map[] && m.version == FORMAT_VERSION
      && m.files.Keys == (set key | key in legacy.Keys - todo :: ObjectKey(ids(key)))
      && (DistinctIds() ==> forall key | key in legacy.Keys - todo :: Described(m, key) && Carried(m, key, legacy[key]))
    }

    lemma RecordStep(m: Index, legacy: map<string, FileMeta>, todo: set<string>, key: string, found: bool, now: int)
      requires RecordsSoFar(m, legacy, todo) && key in todo && todo <= legacy.Keys && (found ==> Reaches(key))
      ensures RecordsSoFar(Recorded(m, key, legacy[key], found, now), legacy, todo - {key})
    {
      RecordedStaysInOrder(m, key, legacy[key], found, now);
      assert legacy.Keys - (todo - {key}) == legacy.Keys - todo + {key};
      if DistinctIds() { StayDescribed(m, legacy, todo, key, found, now); }
    }

    lemma StayDescribed(m: Index, legacy: map<string, FileMeta>, todo: set<string>, key: string, found: bool, now: int)
      requires RecordsSoFar(m, legacy, todo) && DistinctIds() && key in todo && todo <= legacy.Keys && (found ==> Reaches(key))
      ensures var after := Recorded(m, key, legacy[key], found, now);
              forall other | other in legacy.Keys - todo + {key} :: Described(after, other) && Carried(after, other, legacy[other])
    {
      assert ObjectKey(ids(key)) !in m.files;
      var after := Recorded(m, key, legacy[key], found, now);
      forall other | other in legacy.Keys - todo + {key} ensures Described(after, other) && Carried(after, other, legacy[other]) {
        RecordedIsDescribed(m, key, legacy[key], found, now, other);
        assert other != key ==> Carried(m, other, legacy[other]);
      }
    }

    /** The loop over the legacy records. */
    method MoveAll(legacy: map<string, FileMeta>, now: int) returns (ok: bool, result: Index)
      requires Valid() && legacy.Keys == Keys(names)
      modifies this`names, this`trace, this`steps
      ensures Valid() && old(trace) <= trace
      ensures ok ==> MovedSoFar(old(names), names, legacy.Keys, {})
      ensures ok ==> RecordsSoFar(result, legacy, {})
      ensures !faulty && Movable(old(names)) ==> ok
    {
      result := Index(FORMAT_VERSION, map[], map[], map[], map[], map[], false);
      var todo := legacy.Keys;
      forall key ensures key in todo <==> V1(key) in names && names[V1(key)].Ciphertext? { KeyOf(names, key); }
      assert legacy.Keys - todo == {};
      while todo != {}
        invariant todo <= legacy.Keys && Valid() && old(trace) <= trace
        invariant MovedSoFar(old(names), names, legacy.Keys, todo)
        invariant RecordsSoFar(result, legacy, todo)
        invariant !faulty && Movable(old(names)) ==> forall key | key in todo :: HasMove(names, key)
        decreases |todo|
      {
        var key :| key in todo;
        ok, result := MoveRecord(key, legacy[key], result, now, old(names), legacy, todo);
        if !ok { return; }
        todo := todo - {key};
      }
      ok := true;
    }

    /** One legacy record: its ciphertext, its link, its new metadata. */
    method MoveRecord(key: string, meta: FileMeta, m: Index, now: int,
                      ghost start: Names, ghost legacy: map<string, FileMeta>, ghost todo: set<string>)
      returns (ok: bool, after: Index)
      requires Valid() && MovedSoFar(start, names, legacy.Keys, todo) && RecordsSoFar(m, legacy, todo)
      requires key in todo && todo <= legacy.Keys && legacy[key] == meta
      modifies this`names, this`trace, this`steps
      ensures Valid() && old(trace) <= trace
      ensures ok ==> MovedSoFar(start, names, legacy.Keys, todo - {key}) && RecordsSoFar(after, legacy, todo - {key})
      ensures !faulty && Movable(start) && (forall k | k in todo :: HasMove(old(names), k)) ==>
        ok && forall k | k in todo - {key} :: HasMove(names, k)
    {
      after := m;
      ok := MoveLegacyCiphertext(key);
      if !ok { return; }
      var found;
      ok, found := RetargetLink(key);
      if !ok { return; }
      MoveStep(start, old(names), names, legacy.Keys, todo, key);
      RecordStep(m, legacy, todo, key, found, now);
      if Movable(start) && (forall k | k in todo :: HasMove(old(names), k)) { StaysMovable(start, old(names), names, todo, key); }
      after := Recorded(m, key, meta, found, now);
    }

    /** Any number of attempts, until one stores the new metadata. */
    method Attempts(n: nat, now: int)
      requires Valid()
      modifies this`names, this`trace, this`steps, this`migrated
      ensures Valid() && old(trace) <= trace
      ensures forall inode | Reachable(old(names), inode) :: Reachable(names, inode)
    {
      var i := 0;
      while i < n && migrated.None?
        invariant Valid() && old(trace) <= trace
      {
        var ok := Migrate(now);
        i := i + 1;
      }
      forall inode | Reachable(old(names), inode) ensures Reachable(names, inode) {
        CiphertextsAreConserved(trace, steps, links, ids, |old(trace)| - 1, |trace| - 1, inode);
      }
    }
  }
}
