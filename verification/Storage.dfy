/** The disk as a map from names to entries, and the primitives that change it.

  Every primitive may fail: those in the vault if `vaultFaulty`, all others if
  `projectFaulty`; and between the steps of a transaction an environment may rearrange
  the user's project paths if `busy`.  Ghost logs watch the disk: `trace` holds every
  state it went through, `foreign` the positions in it where the environment acted, and
  `destroyed` every entry outside the vault that a primitive made unreachable.
*/
module Storage {
  import opened Metadata

  type Bytes = seq<int>

  /** File contents.  Encryption is injective: a sealed content determines its plaintext,
      and an unfinished one decrypts to nothing. */
  datatype Content = Plain(bytes: Bytes) | Sealed(plaintext: Bytes, nonce: nat) | Fragment

  datatype Entry =
    | Regular(inode: nat, content: Content, mode: nat, mtime: int)
    | Symlink(target: Target)
    | Directory
    | Special

  /** Object ciphertexts and vault temporaries lie in the vault.  A staging directory is a
      private directory beside a project path with one slot in it. */
  datatype Name =
    | Project(path: seq<string>)
    | ObjectFile(id: string)
    | VaultTemp(n: nat)
    | StagingDir(n: nat)
    | Staged(n: nat)

  type Entries = map<Name, Entry>

  datatype Outcome = Done | NotExist | Failed

  /** A successful sync of this name, when the disk had gone through so many states. */
  datatype SyncOf = SyncOf(name: Name, at: nat)

  predicate HeldWhenSynced(sync: SyncOf, trace: seq<Entries>, n: nat, name: Name, e: Entry) {
    && sync.name == name && n <= sync.at <= |trace| && sync.at > 0
    && name in trace[sync.at - 1] && trace[sync.at - 1][name] == e
  }

  /** After the first `k` syncs and `n` states, the name was synced while it held this entry. */
  ghost predicate SyncedSince(syncs: seq<SyncOf>, k: nat, trace: seq<Entries>, n: nat, name: Name, e: Entry) {
    exists i :: k <= i < |syncs| && HeldWhenSynced(syncs[i], trace, n, name, e)
  }

  lemma SyncedLater(a: seq<SyncOf>, b: seq<SyncOf>, j: nat, k: nat, s: seq<Entries>, t: seq<Entries>, m: nat, n: nat, name: Name, e: Entry)
    requires SyncedSince(a, k, s, n, name, e) && a <= b && s <= t && j <= k && m <= n
    ensures SyncedSince(b, j, t, m, name, e)
  {
    var i :| k <= i < |a| && HeldWhenSynced(a[i], s, n, name, e);
    assert HeldWhenSynced(b[i], t, m, name, e);
  }

  lemma SyncedNow(syncs: seq<SyncOf>, k: nat, trace: seq<Entries>, n: nat, name: Name, e: Entry)
    requires k < |syncs| && syncs[|syncs| - 1] == SyncOf(name, |trace|) && trace != [] && n <= |trace|
    requires name in trace[|trace| - 1] && trace[|trace| - 1][name] == e
    ensures SyncedSince(syncs, k, trace, n, name, e)
  {
    assert HeldWhenSynced(syncs[|syncs| - 1], trace, n, name, e);
  }

  predicate Temporary(name: Name) { name.VaultTemp? || name.StagingDir? || name.Staged? }

  /** The vault and the project may lie on different disks. */
  predicate InVault(name: Name) { name.ObjectFile? || name.VaultTemp? }

  class FileSystem {
    var entries: Entries
    var next: nat
    const vaultFaulty: bool
    const projectFaulty: bool
    const busy: bool
    const index: MetadataStore
    ghost var trace: seq<Entries>
    ghost var foreign: set<nat>
    ghost var destroyed: seq<Entry>
    ghost var syncs: seq<SyncOf>

    /** The log is up to date, and temporary names and inodes are allocated from `next`. */
    ghost predicate Valid()
      reads this
    {
      && trace != [] && trace[|trace| - 1] == entries
      && (forall name | name in entries && Temporary(name) :: name.n < next)
      && (forall name | name in entries && entries[name].Regular? :: entries[name].inode < next)
    }

    constructor (entries: Entries, next: nat, vaultFaulty: bool, projectFaulty: bool, busy: bool, index: MetadataStore)
      requires forall name | name in entries && Temporary(name) :: name.n < next
      requires forall name | name in entries && entries[name].Regular? :: entries[name].inode < next
      ensures Valid()
      ensures this.entries == entries && this.next == next && this.index == index
      ensures this.vaultFaulty == vaultFaulty && this.projectFaulty == projectFaulty && this.busy == busy
      ensures trace == [entries] && destroyed == [] && foreign == {} && syncs == []
    {
      this.entries, this.next, this.index := entries, next, index;
      this.vaultFaulty, this.projectFaulty, this.busy := vaultFaulty, projectFaulty, busy;
      this.trace, this.destroyed, this.foreign, this.syncs := [entries], [], {}, [];
    }

    predicate Faultless() { !vaultFaulty && !projectFaulty && !index.faulty }

    predicate Faulty(name: Name) { if InVault(name) then vaultFaulty else projectFaulty }

    /** Whether a step on `name` fails this time. */
    method Fault(name: Name) returns (failed: bool)
      ensures failed ==> Faulty(name)
    {
      failed := *;
      failed := failed && Faulty(name);
    }

    /** The environment: other programs may do anything to project paths. */
    method Interfere()
      requires Valid()
      modifies this`entries, this`trace, this`next, this`foreign
      ensures Valid() && foreign == old(foreign) + {|old(trace)|}
      ensures !busy ==> entries == old(entries)
      ensures forall name: Name | !name.Project? ::
        (name in entries <==> name in old(entries)) && (name in entries ==> entries[name] == old(entries)[name])
      ensures trace == old(trace) + [entries] && next >= old(next)
    {
      if busy {
        var world: map<seq<string>, Entry> := *;
        var limit: nat := *;
        var project := map path | path in world &&
          (world[path].Regular? ==> world[path].inode < limit) :: world[path];
        if limit > next { next := limit; }
        entries := (map name | name in entries && !name.Project? :: entries[name])
                   + (map path | path in project :: Project(path) := project[path]);
      }
      foreign := foreign + {|trace|};
      trace := trace + [entries];
    }

    /** `O_CREATE|O_EXCL`, `Symlink` and `Mkdir`: never replaces anything. */
    method Create(name: Name, entry: Entry) returns (r: Outcome)
      requires Valid() && (Temporary(name) ==> name.n < next) && (entry.Regular? ==> entry.inode < next)
      modifies this`entries, this`trace
      ensures Valid() && trace == old(trace) + [entries]
      ensures r == Done ==> name !in old(entries) && entries == old(entries)[name := entry]
      ensures r != Done ==> entries == old(entries)
      ensures !Faulty(name) && name !in old(entries) ==> r == Done
    {
      var failed := Fault(name);
      if failed || name in entries {
        r := Failed;
      } else {
        entries := entries[name := entry];
        r := Done;
      }
      trace := trace + [entries];
    }

    /** Writes through a descriptor of a file we just created. */
    method Rewrite(name: Name, entry: Entry) returns (r: Outcome)
      requires Valid() && name in entries && entry.Regular? && entry.inode < next
      requires Temporary(name)
      modifies this`entries, this`trace
      ensures Valid() && trace == old(trace) + [entries]
      ensures r == Done ==> entries == old(entries)[name := entry]
      ensures r != Done ==> entries == old(entries)
      ensures !Faulty(name) ==> r == Done
    {
      var failed := Fault(name);
      if failed {
        r := Failed;
      } else {
        entries := entries[name := entry];
        r := Done;
      }
      trace := trace + [entries];
    }

    /** `RENAME_EXCHANGE`. */
    method Exchange(a: Name, b: Name) returns (r: Outcome)
      requires Valid() && a != b
      modifies this`entries, this`trace
      ensures Valid() && trace == old(trace) + [entries]
      ensures r == Done ==>
        && a in old(entries) && b in old(entries)
        && entries == old(entries)[a := old(entries)[b]][b := old(entries)[a]]
      ensures r != Done ==> entries == old(entries)
      ensures !Faulty(a) && a in old(entries) && b in old(entries) ==> r == Done
    {
      var failed := Fault(a);
      if failed {
        r := Failed;
      } else if a !in entries || b !in entries {
        r := NotExist;
      } else {
        entries := entries[a := entries[b]][b := entries[a]];
        r := Done;
      }
      trace := trace + [entries];
    }

    /** `RENAME_NOREPLACE`; onto a fresh private name, plain `rename` does the same. */
    method RenameNoReplace(a: Name, b: Name) returns (r: Outcome)
      requires Valid() && a != b && (Temporary(b) ==> b.n < next)
      modifies this`entries, this`trace
      ensures Valid() && trace == old(trace) + [entries]
      ensures r == Done ==>
        && a in old(entries) && b !in old(entries)
        && entries == (old(entries) - {a})[b := old(entries)[a]]
      ensures r == NotExist ==> a !in old(entries)
      ensures r != Done ==> entries == old(entries)
      ensures !Faulty(a) && a in old(entries) && b !in old(entries) ==> r == Done
    {
      var failed := Fault(a);
      if failed {
        r := Failed;
      } else if a !in entries {
        r := NotExist;
      } else if b in entries {
        r := Failed;
      } else {
        var entry := entries[a];
        entries := (entries - {a})[b := entry];
        r := Done;
      }
      trace := trace + [entries];
    }

    /** `os.Remove` of a file or link. */
    method Remove(name: Name) returns (r: Outcome)
      requires Valid()
      modifies this`entries, this`trace, this`destroyed
      ensures Valid() && trace == old(trace) + [entries]
      ensures r == Done ==>
        && name in old(entries) && entries == old(entries) - {name}
        && destroyed == old(destroyed) + if InVault(name) then [] else [old(entries)[name]]
      ensures r != Done ==> entries == old(entries) && destroyed == old(destroyed)
      ensures r == NotExist ==> name !in old(entries)
      ensures r == Failed ==> Faulty(name)
    {
      var failed := Fault(name);
      if failed {
        r := Failed;
      } else if name !in entries {
        r := NotExist;
      } else {
        if !InVault(name) { destroyed := destroyed + [entries[name]]; }
        entries := entries - {name};
        r := Done;
      }
      trace := trace + [entries];
    }

    /** `fsync` of a file or directory. */
    method Sync(name: Name) returns (r: Outcome)
      modifies this`syncs
      ensures r == Done || (r == Failed && Faulty(name))
      ensures syncs == old(syncs) + if r == Done then [SyncOf(name, |trace|)] else []
    {
      var failed := Fault(name);
      r := if failed then Failed else Done;
      if r == Done { syncs := syncs + [SyncOf(name, |trace|)]; }
    }

    /** `os.MkdirTemp`: a fresh private directory with a fresh slot in it. */
    method MakeStaging() returns (r: Outcome, n: nat)
      requires Valid()
      modifies this`entries, this`trace, this`next
      ensures Valid() && trace == old(trace) + [entries]
      ensures n >= old(next) && next == n + 1
      ensures StagingDir(n) !in old(entries) && Staged(n) !in old(entries)
      ensures r == Done ==> entries == old(entries)[StagingDir(n) := Directory]
      ensures r != Done ==> entries == old(entries)
      ensures !Faulty(StagingDir(n)) ==> r == Done
    {
      n := next;
      next := next + 1;
      r := Create(StagingDir(n), Directory);
    }

    /** `os.Remove` of the staging directory, which fails while its slot is taken. */
    method RemoveStagingDir(n: nat) returns (r: Outcome)
      requires Valid()
      modifies this`entries, this`trace
      ensures Valid() && trace == old(trace) + [entries]
      ensures r == Done ==> Staged(n) !in old(entries) && entries == old(entries) - {StagingDir(n)}
      ensures r != Done ==> entries == old(entries)
      ensures !Faulty(StagingDir(n)) && Staged(n) !in old(entries) ==> r == Done
    {
      var failed := Fault(StagingDir(n));
      if failed || Staged(n) in entries {
        r := Failed;
      } else {
        entries := entries - {StagingDir(n)};
        r := Done;
      }
      trace := trace + [entries];
    }

    /** `os.RemoveAll` of the staging directory: whatever is in the slot goes too. */
    method RemoveStaging(n: nat)
      requires Valid()
      modifies this`entries, this`trace, this`destroyed
      ensures Valid() && trace == old(trace) + [entries]
      ensures
        || (entries == old(entries) && destroyed == old(destroyed) && Faulty(StagingDir(n)))
        || (&& entries == old(entries) - {StagingDir(n), Staged(n)}
            && destroyed == old(destroyed) +
               if Staged(n) in old(entries) then [old(entries)[Staged(n)]] else [])
    {
      var failed := Fault(StagingDir(n));
      if !failed {
        if Staged(n) in entries { destroyed := destroyed + [entries[Staged(n)]]; }
        entries := entries - {StagingDir(n), Staged(n)};
      }
      trace := trace + [entries];
    }
  }
}
