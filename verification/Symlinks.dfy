/** Replacing and retiring project-side links while other programs may act on the same
  paths.  The environment interferes before every step; the ghost results report what
  it left at the path at the decisive moments.
*/
module Symlinks {
  import opened Optional
  import opened DirectoryMoves
  import opened Metadata
  import opened Storage
  import opened Persistence

  /** What the displaced entry must be for the exchange to stand. */
  datatype Expectation = ExpectLink(target: Target) | ExpectFile(file: Entry)

  /** An unchanged link, or the very file that was read: same inode, contents, mode and time. */
  predicate Accepts(expected: Expectation, e: Entry) {
    match expected
    case ExpectLink(target) => e == Symlink(target)
    case ExpectFile(file) => e.Regular? && e == file
  }

  datatype ExchangeResult =
    | NotInstalled       // the path was never touched
    | SwappedBack         // exchanged, rejected, exchanged back
    | Preserved          // exchanged, rejected, and the rollback failed
    | Installed
    | InstalledUncleanly // installed, but cleaning up failed

  /** The step after state `i` took `name` from `x` to `y`. */
  ghost predicate Steps(trace: seq<Entries>, i: nat, name: Name, x: Option<Entry>, y: Option<Entry>) {
    i < |trace| - 1 && At(trace[i], name) == x && At(trace[i + 1], name) == y
  }

  /** Somewhere after the first `n` states, one step took `name` from `x` to `y`. */
  ghost predicate WentFrom(trace: seq<Entries>, n: nat, name: Name, x: Option<Entry>, y: Option<Entry>) {
    exists i :: n <= i && Steps(trace, i, name, x, y)
  }

  /** What was witnessed stays witnessed as the log grows. */
  lemma WitnessStays(trace: seq<Entries>, longer: seq<Entries>, m: nat, n: nat, name: Name, x: Option<Entry>, y: Option<Entry>)
    requires WentFrom(trace, m, name, x, y) && trace <= longer && n <= m
    ensures WentFrom(longer, n, name, x, y)
  {
    var i :| m <= i && Steps(trace, i, name, x, y);
    assert Steps(longer, i, name, x, y);
  }

  lemma WitnessAt(trace: seq<Entries>, i: nat, n: nat, name: Name)
    requires n <= i < |trace| - 1
    ensures WentFrom(trace, n, name, At(trace[i], name), At(trace[i + 1], name))
  {
    assert Steps(trace, i, name, At(trace[i], name), At(trace[i + 1], name));
  }

  /** Nothing is left of what was staged there. */
  predicate NothingStaged(st: Entries, slot: nat) { StagingDir(slot) !in st && Staged(slot) !in st }

  /** Of everything outside the project, at most this staging directory changed. */
  ghost predicate SameApartFrom(a: Entries, b: Entries, slot: nat) {
    forall name: Name | !name.Project? && name != StagingDir(slot) && name != Staged(slot) :: At(b, name) == At(a, name)
  }

  /** Of the project, at most this path changed. */
  ghost predicate SameProjects(a: Entries, b: Entries, path: seq<string>) {
    forall name: Name | name.Project? && name != Project(path) :: At(b, name) == At(a, name)
  }

  ghost predicate SameButSlot(a: Entries, b: Entries, slot: nat) {
    forall name: Name | name != StagingDir(slot) && name != Staged(slot) :: At(b, name) == At(a, name)
  }

  /** At every moment only the staging directory and, if nobody else acts, this path changed. */
  ghost predicate ConfinedSince(trace: seq<Entries>, n: nat, a: Entries, path: seq<string>, slot: nat, quiet: bool) {
    forall i | n <= i < |trace| :: SameApartFrom(a, trace[i], slot) && (quiet ==> SameProjects(a, trace[i], path))
  }

  lemma ConfinedOn(early: seq<Entries>, trace: seq<Entries>, n: nat, a: Entries, b: Entries, path: seq<string>, slot: nat, quiet: bool)
    requires ConfinedSince(early, n, a, path, slot, quiet) && early <= trace
    requires SameApartFrom(a, b, slot) && (quiet ==> SameProjects(a, b, path))
    requires ConfinedSince(trace, |early|, b, path, slot, quiet)
    ensures ConfinedSince(trace, n, a, path, slot, quiet)
  {
    forall i | n <= i < |trace| ensures SameApartFrom(a, trace[i], slot) && (quiet ==> SameProjects(a, trace[i], path)) {
      if i < |early| { assert trace[i] == early[i]; }
    }
  }

  /** First a step put `link` in the place of `d`, and later a step put `d` back in the place of `e`. */
  ghost predicate SwappedOut(trace: seq<Entries>, n: nat, name: Name, d: Option<Entry>, link: Entry, e: Option<Entry>) {
    d.Some? && exists i, j :: n <= i < j && Steps(trace, i, name, d, Some(link)) && Steps(trace, j, name, e, d)
  }

  lemma WitnessesInOrder(middle: seq<Entries>, trace: seq<Entries>, n: nat, name: Name, d: Option<Entry>, link: Entry, e: Option<Entry>)
    requires d.Some? && WentFrom(middle, n, name, d, Some(link)) && middle <= trace && WentFrom(trace, |middle|, name, e, d)
    ensures SwappedOut(trace, n, name, d, link, e)
  {
    var i :| n <= i && Steps(middle, i, name, d, Some(link));
    var j :| |middle| <= j && Steps(trace, j, name, e, d);
    assert Steps(trace, i, name, d, Some(link));
  }

  lemma SwappedOutEarlier(trace: seq<Entries>, longer: seq<Entries>, m: nat, n: nat, name: Name, d: Option<Entry>, link: Entry, e: Option<Entry>)
    requires SwappedOut(trace, m, name, d, link, e) && trace <= longer && n <= m
    ensures SwappedOut(longer, n, name, d, link, e)
  {
    var i, j :| m <= i < j && Steps(trace, i, name, d, Some(link)) && Steps(trace, j, name, e, d);
    assert Steps(longer, i, name, d, Some(link)) && Steps(longer, j, name, e, d);
  }

  /** The source's boolean result. */
  predicate LinkInstalled(r: ExchangeResult) { r.Preserved? || r.Installed? || r.InstalledUncleanly? }

  /** `exchangePathWithSymlink`.

      `displaced` is the entry the exchange took away, `late` the entry that stood at the
      path when a rollback swapped it out.  Whatever the environment does:
      - an entry is destroyed for the new link only after it was accepted;
      - a rejected entry goes back to the path, or stays in the staging slot;
      - a rollback destroys exactly what stood at the path by then, which is our own link
        unless something replaced it between the two exchanges. */
  method ExchangePathWithSymlink(fs: FileSystem, path: seq<string>, target: Target, expected: Expectation)
    returns (result: ExchangeResult, slot: nat, ghost displaced: Option<Entry>, ghost late: Option<Entry>)
    requires fs.Valid()
    modifies fs`entries, fs`trace, fs`syncs, fs`next, fs`foreign, fs`destroyed
    ensures fs.Valid() && slot >= old(fs.next)
    ensures SameApartFrom(old(fs.entries), fs.entries, slot)
    ensures displaced.Some? <==> !result.NotInstalled?
    ensures late.Some? <==> result.SwappedBack?
    ensures old(fs.trace) <= fs.trace
    ensures displaced.Some? ==>
      WentFrom(fs.trace, |old(fs.trace)|, Project(path), displaced, Some(Symlink(target)))
    ensures late.Some? ==> SwappedOut(fs.trace, |old(fs.trace)|, Project(path), displaced, Symlink(target), late)
    ensures result.NotInstalled? ==>
      fs.destroyed == old(fs.destroyed) || fs.destroyed == old(fs.destroyed) + [Symlink(target)]
    ensures result.Installed? || result.InstalledUncleanly? ==>
      Accepts(expected, displaced.value) && fs.destroyed == old(fs.destroyed) + [displaced.value]
    ensures result.SwappedBack? ==>
      fs.destroyed == old(fs.destroyed) + [late.value] || (fs.destroyed == old(fs.destroyed) && fs.projectFaulty)
    ensures result.Preserved? ==>
      fs.destroyed == old(fs.destroyed) && At(fs.entries, Staged(slot)) == displaced
    // Without interference the outcome is exact.
    ensures !fs.busy ==>
      && (displaced.Some? ==> displaced == At(old(fs.entries), Project(path)))
      && (late.Some? ==> late == Some(Symlink(target)))
      && SameProjects(old(fs.entries), fs.entries, path)
      && (LinkInstalled(result) ==> At(fs.entries, Project(path)) == Some(Symlink(target)))
      && (!LinkInstalled(result) ==> At(fs.entries, Project(path)) == At(old(fs.entries), Project(path)))
      && (!fs.projectFaulty && Project(path) in old(fs.entries) ==>
            if Accepts(expected, old(fs.entries)[Project(path)]) then result.Installed? else result.SwappedBack?)
    ensures ConfinedSince(fs.trace, |old(fs.trace)|, old(fs.entries), path, slot, !fs.busy)
    ensures old(fs.foreign) <= fs.foreign
    ensures result.Installed? || (!fs.projectFaulty && !result.Preserved?) ==> NothingStaged(fs.entries, slot)
    ensures old(fs.syncs) <= fs.syncs
    ensures result.Installed? ==> fs.syncs != [] && fs.syncs[|fs.syncs| - 1] == SyncOf(StagingDir(slot), |fs.trace|)
  {
    var exchanged;
    exchanged, slot, displaced := SwapInLink(fs, path, target);
    if !exchanged { return NotInstalled, slot, None, None; }
    ghost var middle, exchangedEntries := fs.trace, fs.entries;
    result, late := SettleExchange(fs, path, expected, slot);
    ConfinedOn(middle, fs.trace, |old(fs.trace)|, old(fs.entries), exchangedEntries, path, slot, !fs.busy);
    if late.Some? { WitnessesInOrder(middle, fs.trace, |old(fs.trace)|, Project(path), displaced, Symlink(target), late); }
    WitnessStays(middle, fs.trace, |old(fs.trace)|, |old(fs.trace)|, Project(path), displaced, Some(Symlink(target)));
  }

  /** Creates the link in a new staging directory. */
  method StageLink(fs: FileSystem, target: Target) returns (staged: bool, slot: nat)
    requires fs.Valid()
    modifies fs`entries, fs`trace, fs`syncs, fs`next, fs`destroyed
    ensures fs.Valid() && old(fs.next) <= slot < fs.next && old(fs.trace) <= fs.trace
    ensures StagingDir(slot) !in old(fs.entries) && Staged(slot) !in old(fs.entries)
    ensures staged ==> fs.entries == old(fs.entries)[StagingDir(slot) := Directory][Staged(slot) := Symlink(target)]
    ensures !staged ==>
      fs.projectFaulty && (fs.entries == old(fs.entries) || fs.entries == old(fs.entries)[StagingDir(slot) := Directory])
    ensures fs.destroyed == old(fs.destroyed)
    ensures forall i | |old(fs.trace)| <= i < |fs.trace| :: SameButSlot(old(fs.entries), fs.trace[i], slot)
    ensures old(fs.syncs) <= fs.syncs
  {
    staged := false;
    var made;
    made, slot := fs.MakeStaging();
    if made != Done { return; }
    var created := fs.Create(Staged(slot), Symlink(target));
    staged := created == Done;
    if !staged { fs.RemoveStaging(slot); }
  }

  /** Creates the link and exchanges it with the path. */
  method SwapInLink(fs: FileSystem, path: seq<string>, target: Target)
    returns (exchanged: bool, slot: nat, ghost displaced: Option<Entry>)
    requires fs.Valid()
    modifies fs`entries, fs`trace, fs`syncs, fs`next, fs`foreign, fs`destroyed
    ensures fs.Valid() && old(fs.next) <= slot < fs.next
    ensures SameApartFrom(old(fs.entries), fs.entries, slot)
    ensures displaced.Some? <==> exchanged
    ensures exchanged ==>
      && StagingDir(slot) in fs.entries && At(fs.entries, Staged(slot)) == displaced
      && At(fs.entries, Project(path)) == Some(Symlink(target))
      && fs.destroyed == old(fs.destroyed)
    ensures exchanged ==>
      WentFrom(fs.trace, |old(fs.trace)|, Project(path), displaced, Some(Symlink(target)))
    ensures old(fs.trace) <= fs.trace
    ensures !exchanged ==>
      fs.destroyed == old(fs.destroyed) || fs.destroyed == old(fs.destroyed) + [Symlink(target)]
    ensures !fs.busy ==>
      && (exchanged ==> displaced == At(old(fs.entries), Project(path)))
      && (!exchanged ==> At(fs.entries, Project(path)) == At(old(fs.entries), Project(path)))
      && SameProjects(old(fs.entries), fs.entries, path)
      && (!fs.projectFaulty && Project(path) in old(fs.entries) ==> exchanged)
    ensures ConfinedSince(fs.trace, |old(fs.trace)|, old(fs.entries), path, slot, !fs.busy)
    ensures old(fs.foreign) <= fs.foreign
    ensures !exchanged && !fs.projectFaulty ==> NothingStaged(fs.entries, slot)
    ensures old(fs.syncs) <= fs.syncs
  {
    exchanged, displaced := false, None;
    var staged;
    staged, slot := StageLink(fs, target);
    if !staged { return; }
    ghost var t1, e1 := fs.trace, fs.entries;
    exchanged, displaced := SwapContended(fs, path, target, slot);
    ConfinedOn(t1, fs.trace, |old(fs.trace)|, old(fs.entries), e1, path, slot, !fs.busy);
    if exchanged { WitnessStays(fs.trace, fs.trace, |t1|, |old(fs.trace)|, Project(path), displaced, Some(Symlink(target))); }
  }

  /** Others may act once more before the exchange. */
  method SwapContended(fs: FileSystem, path: seq<string>, target: Target, slot: nat)
    returns (exchanged: bool, ghost displaced: Option<Entry>)
    requires fs.Valid() && slot < fs.next && StagingDir(slot) in fs.entries && At(fs.entries, Staged(slot)) == Some(Symlink(target))
    modifies fs`entries, fs`trace, fs`syncs, fs`next, fs`foreign, fs`destroyed
    ensures fs.Valid() && slot < fs.next && SameApartFrom(old(fs.entries), fs.entries, slot)
    ensures displaced.Some? <==> exchanged
    ensures exchanged ==>
      && StagingDir(slot) in fs.entries && At(fs.entries, Staged(slot)) == displaced
      && At(fs.entries, Project(path)) == Some(Symlink(target))
      && fs.destroyed == old(fs.destroyed)
    ensures exchanged ==>
      WentFrom(fs.trace, |old(fs.trace)|, Project(path), displaced, Some(Symlink(target)))
    ensures old(fs.trace) <= fs.trace && old(fs.foreign) <= fs.foreign
    ensures !exchanged ==>
      fs.destroyed == old(fs.destroyed) || fs.destroyed == old(fs.destroyed) + [Symlink(target)]
    ensures !fs.busy ==>
      && (exchanged ==> displaced == At(old(fs.entries), Project(path)))
      && (!exchanged ==> At(fs.entries, Project(path)) == At(old(fs.entries), Project(path)))
      && SameProjects(old(fs.entries), fs.entries, path)
      && (!fs.projectFaulty && Project(path) in old(fs.entries) ==> exchanged)
    ensures ConfinedSince(fs.trace, |old(fs.trace)|, old(fs.entries), path, slot, !fs.busy)
    ensures !exchanged && !fs.projectFaulty ==> NothingStaged(fs.entries, slot)
    ensures old(fs.syncs) <= fs.syncs
  {
    fs.Interfere();
    exchanged, displaced := SwapStaged(fs, path, target, slot);
    if exchanged { WitnessAt(fs.trace, |fs.trace| - 2, |old(fs.trace)|, Project(path)); }
  }

  /** The first exchange; on failure the staging directory is removed with the link in it. */
  method SwapStaged(fs: FileSystem, path: seq<string>, target: Target, slot: nat)
    returns (exchanged: bool, ghost displaced: Option<Entry>)
    requires fs.Valid() && slot < fs.next && At(fs.entries, Staged(slot)) == Some(Symlink(target))
    modifies fs`entries, fs`trace, fs`syncs, fs`destroyed
    ensures fs.Valid() && SameApartFrom(old(fs.entries), fs.entries, slot)
    ensures SameProjects(old(fs.entries), fs.entries, path)
    ensures displaced == if exchanged then At(old(fs.entries), Project(path)) else None
    ensures displaced.Some? <==> exchanged
    ensures exchanged ==>
      && fs.entries == old(fs.entries)[Staged(slot) := displaced.value][Project(path) := Symlink(target)]
      && fs.destroyed == old(fs.destroyed) && fs.trace == old(fs.trace) + [fs.entries]
    ensures !exchanged ==>
      && At(fs.entries, Project(path)) == At(old(fs.entries), Project(path))
      && (fs.destroyed == old(fs.destroyed) || fs.destroyed == old(fs.destroyed) + [Symlink(target)])
    ensures old(fs.trace) <= fs.trace
    ensures !fs.projectFaulty && Project(path) in old(fs.entries) ==> exchanged
    ensures ConfinedSince(fs.trace, |old(fs.trace)|, old(fs.entries), path, slot, !fs.busy)
    ensures !exchanged && !fs.projectFaulty ==> NothingStaged(fs.entries, slot)
    ensures old(fs.syncs) <= fs.syncs
  {
    displaced := At(fs.entries, Project(path));
    var swapped := fs.Exchange(Staged(slot), Project(path));
    exchanged := swapped == Done;
    if !exchanged {
      displaced := None;
      fs.RemoveStaging(slot);
    }
  }

  /** After the exchange: others may act, then the displaced entry is judged. */
  method SettleExchange(fs: FileSystem, path: seq<string>, expected: Expectation, slot: nat)
    returns (result: ExchangeResult, ghost late: Option<Entry>)
    requires fs.Valid() && Staged(slot) in fs.entries && StagingDir(slot) in fs.entries && slot < fs.next
    requires Project(path) in fs.entries
    modifies fs`entries, fs`trace, fs`syncs, fs`next, fs`foreign, fs`destroyed
    ensures fs.Valid() && !result.NotInstalled? && old(fs.trace) <= fs.trace
    ensures late.Some? ==>
      WentFrom(fs.trace, |old(fs.trace)|, Project(path), late, At(old(fs.entries), Staged(slot)))
    ensures SameApartFrom(old(fs.entries), fs.entries, slot)
    ensures late.Some? <==> result.SwappedBack?
    ensures result.Installed? || result.InstalledUncleanly? ==>
      && Accepts(expected, old(fs.entries)[Staged(slot)])
      && fs.destroyed == old(fs.destroyed) + [old(fs.entries)[Staged(slot)]]
    ensures result.SwappedBack? ==>
      fs.destroyed == old(fs.destroyed) + [late.value] || (fs.destroyed == old(fs.destroyed) && fs.projectFaulty)
    ensures result.Preserved? ==>
      fs.destroyed == old(fs.destroyed) && At(fs.entries, Staged(slot)) == At(old(fs.entries), Staged(slot))
    ensures !fs.busy ==>
      && (late.Some? ==> late == At(old(fs.entries), Project(path)))
      && SameProjects(old(fs.entries), fs.entries, path)
      && At(fs.entries, Project(path)) ==
         At(old(fs.entries), if result.SwappedBack? then Staged(slot) else Project(path))
      && (!fs.projectFaulty ==>
            if Accepts(expected, old(fs.entries)[Staged(slot)]) then result.Installed? else result.SwappedBack?)
    ensures ConfinedSince(fs.trace, |old(fs.trace)|, old(fs.entries), path, slot, !fs.busy)
    ensures old(fs.foreign) <= fs.foreign
    ensures result.Installed? || (!fs.projectFaulty && !result.Preserved?) ==> NothingStaged(fs.entries, slot)
    ensures old(fs.syncs) <= fs.syncs
    ensures result.Installed? ==> fs.syncs != [] && fs.syncs[|fs.syncs| - 1] == SyncOf(StagingDir(slot), |fs.trace|)
  {
    fs.Interfere();
    ghost var t1, e1 := fs.trace, fs.entries;
    result, late := JudgeDisplaced(fs, path, expected, slot);
    ConfinedOn(t1, fs.trace, |old(fs.trace)|, old(fs.entries), e1, path, slot, !fs.busy);
    if late.Some? { WitnessStays(fs.trace, fs.trace, |t1|, |old(fs.trace)|, Project(path), late, At(e1, Staged(slot))); }
  }

  /** Validates the displaced entry, then deletes it or swaps it back. */
  method JudgeDisplaced(fs: FileSystem, path: seq<string>, expected: Expectation, slot: nat)
    returns (result: ExchangeResult, ghost late: Option<Entry>)
    requires fs.Valid() && Staged(slot) in fs.entries && StagingDir(slot) in fs.entries && slot < fs.next
    requires !fs.busy ==> Project(path) in fs.entries
    modifies fs`entries, fs`trace, fs`syncs, fs`next, fs`foreign, fs`destroyed
    ensures fs.Valid() && !result.NotInstalled? && old(fs.trace) <= fs.trace
    ensures late.Some? ==>
      WentFrom(fs.trace, |old(fs.trace)|, Project(path), late, At(old(fs.entries), Staged(slot)))
    ensures SameApartFrom(old(fs.entries), fs.entries, slot)
    ensures late.Some? <==> result.SwappedBack?
    ensures result.Installed? || result.InstalledUncleanly? ==>
      && Accepts(expected, old(fs.entries)[Staged(slot)])
      && fs.destroyed == old(fs.destroyed) + [old(fs.entries)[Staged(slot)]]
    ensures result.SwappedBack? ==>
      fs.destroyed == old(fs.destroyed) + [late.value] || (fs.destroyed == old(fs.destroyed) && fs.projectFaulty)
    ensures result.Preserved? ==>
      fs.destroyed == old(fs.destroyed) && At(fs.entries, Staged(slot)) == At(old(fs.entries), Staged(slot))
    ensures !fs.busy ==>
      && (late.Some? ==> late == At(old(fs.entries), Project(path)))
      && SameProjects(old(fs.entries), fs.entries, path)
      && At(fs.entries, Project(path)) ==
         At(old(fs.entries), if result.SwappedBack? then Staged(slot) else Project(path))
      && (!fs.projectFaulty ==>
            if Accepts(expected, old(fs.entries)[Staged(slot)]) then result.Installed? else result.SwappedBack?)
    ensures ConfinedSince(fs.trace, |old(fs.trace)|, old(fs.entries), path, slot, !fs.busy)
    ensures old(fs.foreign) <= fs.foreign
    ensures result.Installed? || (!fs.projectFaulty && !result.Preserved?) ==> NothingStaged(fs.entries, slot)
    ensures old(fs.syncs) <= fs.syncs
    ensures result.Installed? ==> fs.syncs != [] && fs.syncs[|fs.syncs| - 1] == SyncOf(StagingDir(slot), |fs.trace|)
  {
    late := None;
    var unreadable := fs.Fault(Staged(slot));
    if unreadable || !Accepts(expected, fs.entries[Staged(slot)]) {
      result, late := RollBackExchange(fs, path, slot);
      return;
    }
    var removed := fs.Remove(Staged(slot));
    if removed != Done {
      result, late := RollBackExchange(fs, path, slot);
      return;
    }
    result := CleanUp(fs, slot);
  }

  /** After the displaced entry was deleted. */
  method CleanUp(fs: FileSystem, slot: nat) returns (result: ExchangeResult)
    requires fs.Valid() && Staged(slot) !in fs.entries
    modifies fs`entries, fs`trace, fs`syncs, fs`destroyed
    ensures fs.Valid() && (result.Installed? || result.InstalledUncleanly?) && old(fs.trace) <= fs.trace
    ensures fs.entries == old(fs.entries) || fs.entries == old(fs.entries) - {StagingDir(slot)}
    ensures result.Installed? ==> StagingDir(slot) !in fs.entries
    ensures fs.destroyed == old(fs.destroyed)
    ensures !fs.projectFaulty ==> result.Installed?
    ensures forall i | |old(fs.trace)| <= i < |fs.trace| :: SameButSlot(old(fs.entries), fs.trace[i], slot)
    ensures old(fs.syncs) <= fs.syncs
    ensures result.Installed? ==> fs.syncs != [] && fs.syncs[|fs.syncs| - 1] == SyncOf(StagingDir(slot), |fs.trace|)
  {
    var synced := fs.Sync(StagingDir(slot));
    if synced != Done {
      fs.RemoveStaging(slot);
      return InstalledUncleanly;
    }
    var cleaned := fs.RemoveStagingDir(slot);
    if cleaned != Done {
      fs.RemoveStaging(slot);
      return InstalledUncleanly;
    }
    synced := fs.Sync(StagingDir(slot));
    result := if synced == Done then Installed else InstalledUncleanly;
  }

  /** Swaps the displaced entry back and drops what comes out; if that fails, the displaced
      entry is preserved where it is. */
  method RollBackExchange(fs: FileSystem, path: seq<string>, slot: nat)
    returns (result: ExchangeResult, ghost late: Option<Entry>)
    requires fs.Valid() && Staged(slot) in fs.entries && slot < fs.next
    modifies fs`entries, fs`trace, fs`syncs, fs`next, fs`foreign, fs`destroyed
    ensures fs.Valid() && (result.SwappedBack? || result.Preserved?) && old(fs.trace) <= fs.trace
    ensures late.Some? ==>
      WentFrom(fs.trace, |old(fs.trace)|, Project(path), late, At(old(fs.entries), Staged(slot)))
    ensures SameApartFrom(old(fs.entries), fs.entries, slot)
    ensures late.Some? <==> result.SwappedBack?
    ensures result.SwappedBack? ==>
      fs.destroyed == old(fs.destroyed) + [late.value] || (fs.destroyed == old(fs.destroyed) && fs.projectFaulty)
    ensures result.Preserved? ==>
      fs.destroyed == old(fs.destroyed) && At(fs.entries, Staged(slot)) == At(old(fs.entries), Staged(slot))
    ensures !fs.busy ==>
      && (late.Some? ==> late == At(old(fs.entries), Project(path)))
      && SameProjects(old(fs.entries), fs.entries, path)
      && At(fs.entries, Project(path)) ==
         At(old(fs.entries), if result.SwappedBack? then Staged(slot) else Project(path))
      && (!fs.projectFaulty && Project(path) in old(fs.entries) ==> result.SwappedBack?)
    ensures ConfinedSince(fs.trace, |old(fs.trace)|, old(fs.entries), path, slot, !fs.busy)
    ensures old(fs.foreign) <= fs.foreign
    ensures result.Installed? || (!fs.projectFaulty && !result.Preserved?) ==> NothingStaged(fs.entries, slot)
    ensures old(fs.syncs) <= fs.syncs
  {
    fs.Interfere();
    result, late := SwapBack(fs, path, slot);
    if late.Some? { WitnessAt(fs.trace, |old(fs.trace)|, |old(fs.trace)|, Project(path)); }
  }

  /** The second exchange; what comes out is removed with the staging directory. */
  method SwapBack(fs: FileSystem, path: seq<string>, slot: nat) returns (result: ExchangeResult, ghost late: Option<Entry>)
    requires fs.Valid() && Staged(slot) in fs.entries && slot < fs.next
    modifies fs`entries, fs`trace, fs`syncs, fs`destroyed
    ensures fs.Valid() && (result.SwappedBack? || result.Preserved?) && old(fs.trace) <= fs.trace
    ensures late == if result.SwappedBack? then At(old(fs.entries), Project(path)) else None
    ensures late.Some? <==> result.SwappedBack?
    ensures result.SwappedBack? ==>
      && |fs.trace| == |old(fs.trace)| + 2
      && fs.trace[|old(fs.trace)|] == old(fs.entries)[Staged(slot) := late.value][Project(path) := old(fs.entries)[Staged(slot)]]
      && SameButSlot(fs.trace[|old(fs.trace)|], fs.entries, slot)
      && (fs.destroyed == old(fs.destroyed) + [late.value] || (fs.destroyed == old(fs.destroyed) && fs.projectFaulty))
    ensures result.Preserved? ==>
      fs.destroyed == old(fs.destroyed) && fs.entries == old(fs.entries) && fs.trace == old(fs.trace) + [fs.entries]
    ensures !fs.projectFaulty && Project(path) in old(fs.entries) ==> result.SwappedBack?
    ensures result.Installed? || (!fs.projectFaulty && !result.Preserved?) ==> NothingStaged(fs.entries, slot)
    ensures old(fs.syncs) <= fs.syncs
  {
    late := At(fs.entries, Project(path));
    var swapped := fs.Exchange(Staged(slot), Project(path));
    if swapped != Done { return Preserved, None; }
    fs.RemoveStaging(slot);
    result := SwappedBack;
  }

  /** Other programs put an entry in the place of the one at the path. */
  method Overtake(fs: FileSystem, path: seq<string>, newcomer: Entry)
    requires fs.Valid() && !fs.projectFaulty && Project(path) in fs.entries && (newcomer.Regular? ==> newcomer.inode < fs.next)
    modifies fs`entries, fs`trace, fs`syncs, fs`destroyed
    ensures fs.Valid() && fs.entries == old(fs.entries)[Project(path) := newcomer]
    ensures old(fs.trace) <= fs.trace && fs.destroyed == old(fs.destroyed) + [old(fs.entries)[Project(path)]]
  {
    var gone := fs.Remove(Project(path));
    var made := fs.Create(Project(path), newcomer);
    assert fs.entries == old(fs.entries)[Project(path) := newcomer];
  }

  /** The exception is real.  A file is at the path instead of the expected link; after the first
      exchange others put a file of theirs in the place of the new link; and the second exchange
      takes that file out and deletes it. */
  method LateEntryIsLost() returns (fs: FileSystem, path: seq<string>, newcomer: Entry)
    ensures fresh(fs) && fs.Valid() && newcomer.Regular? && newcomer.content == Plain([2])
    ensures |fs.destroyed| == 2 && fs.destroyed[1] == newcomer
    ensures Project(path) in fs.entries && fs.entries[Project(path)] != newcomer
    ensures forall name: Name | name.Project? && name in fs.entries :: fs.entries[name] != newcomer
  {
    path, newcomer := ["notes"], Regular(1, Plain([2]), 0, 0);
    var original := Regular(0, Plain([1]), 0, 0);
    var index := new MetadataStore(Index(FORMAT_VERSION, map[], map[], map[], map[], map[], false), false);
    fs := new FileSystem(map[Project(path) := original], 2, false, false, false, index);
    var staged, slot := StageLink(fs, ByID([], "new"));
    var exchanged;
    ghost var displaced, late;
    exchanged, displaced := SwapStaged(fs, path, ByID([], "new"), slot);
    Overtake(fs, path, newcomer);
    var result;
    result, late := JudgeDisplaced(fs, path, ExpectLink(ByID([], "old")), slot);
  }

  // ------------------------------------------------------------------ retiring

  datatype RetireResult =
    | Retired
    | Absent       // there was nothing at the path
    | Unmoved      // the entry could not be moved aside
    | PutBack      // not the expected link, or not removable: moved back
    | SetApart     // moving back failed, for instance onto a new occupant: preserved in staging

  /** `retireProtectedLink`, against interference at every step: the only thing it can ever
      destroy is a link to this object, it never replaces an entry, and everything else it
      moved is moved back or preserved. */
  method RetireProtectedLink(fs: FileSystem, path: seq<string>, id: string)
    returns (result: RetireResult, slot: nat, ghost moved: Option<Entry>)
    requires fs.Valid()
    modifies fs`entries, fs`trace, fs`syncs, fs`next, fs`foreign, fs`destroyed
    ensures fs.Valid() && slot >= old(fs.next)
    ensures SameApartFrom(old(fs.entries), fs.entries, slot)
    ensures moved.Some? <==> result.Retired? || result.PutBack? || result.SetApart?
    ensures old(fs.trace) <= fs.trace
    ensures moved.Some? ==> WentFrom(fs.trace, |old(fs.trace)|, Project(path), moved, None)
    ensures result.PutBack? ==> WentFrom(fs.trace, |old(fs.trace)|, Project(path), None, moved)
    ensures result.Retired? ==> PointsTo(moved.value, id) && fs.destroyed == old(fs.destroyed) + [moved.value]
    ensures !result.Retired? ==> fs.destroyed == old(fs.destroyed)
    ensures result.SetApart? ==> At(fs.entries, Staged(slot)) == moved
    ensures result.PutBack? ==> Staged(slot) !in fs.entries
    ensures !fs.busy ==>
      && (moved.Some? ==> moved == At(old(fs.entries), Project(path)))
      && SameProjects(old(fs.entries), fs.entries, path)
      && (At(fs.entries, Project(path)) ==
          if result.Retired? || result.SetApart? then None else At(old(fs.entries), Project(path)))
      && (!fs.projectFaulty && Project(path) in old(fs.entries) ==>
            if PointsTo(old(fs.entries)[Project(path)], id) then result.Retired? else result.PutBack?)
    ensures result.Absent? ==> exists i :: |old(fs.trace)| <= i < |fs.trace| && Project(path) !in fs.trace[i]
    ensures result.Absent? && !fs.busy ==> Project(path) !in old(fs.entries)
    ensures ConfinedSince(fs.trace, |old(fs.trace)|, old(fs.entries), path, slot, !fs.busy)
    ensures !fs.projectFaulty && !result.SetApart? ==> NothingStaged(fs.entries, slot)
  {
    moved := None;
    var aside;
    aside, slot, moved := MoveAside(fs, path);
    if aside != Done {
      result := if aside == NotExist then Absent else Unmoved;
      return;
    }
    ghost var middle, movedEntries := fs.trace, fs.entries;
    result := SettleRetired(fs, path, id, slot);
    ConfinedOn(middle, fs.trace, |old(fs.trace)|, old(fs.entries), movedEntries, path, slot, !fs.busy);
    WitnessStays(middle, fs.trace, |old(fs.trace)|, |old(fs.trace)|, Project(path), moved, None);
    if result.PutBack? {
      WitnessStays(fs.trace, fs.trace, |middle|, |old(fs.trace)|, Project(path), None, moved);
    }
  }

  /** Moves whatever is at the path into a private staging directory. */
  method MoveAside(fs: FileSystem, path: seq<string>) returns (aside: Outcome, slot: nat, ghost moved: Option<Entry>)
    requires fs.Valid()
    modifies fs`entries, fs`trace, fs`syncs, fs`next, fs`foreign, fs`destroyed
    ensures fs.Valid() && old(fs.next) <= slot < fs.next && old(fs.trace) <= fs.trace
    ensures SameApartFrom(old(fs.entries), fs.entries, slot) && fs.destroyed == old(fs.destroyed)
    ensures moved.Some? <==> aside == Done
    ensures aside == Done ==> At(fs.entries, Staged(slot)) == moved && At(fs.entries, Project(path)) == None
    ensures aside == Done ==> WentFrom(fs.trace, |old(fs.trace)|, Project(path), moved, None)
    ensures !fs.busy ==>
      && SameProjects(old(fs.entries), fs.entries, path)
      && (aside == Done ==> moved == At(old(fs.entries), Project(path)))
      && (aside != Done ==> At(fs.entries, Project(path)) == At(old(fs.entries), Project(path)))
      && (!fs.projectFaulty && Project(path) in old(fs.entries) ==> aside == Done)
    ensures aside == NotExist ==> exists i :: |old(fs.trace)| <= i < |fs.trace| && Project(path) !in fs.trace[i]
    ensures aside == NotExist && !fs.busy ==> Project(path) !in old(fs.entries)
    ensures ConfinedSince(fs.trace, |old(fs.trace)|, old(fs.entries), path, slot, !fs.busy)
    ensures !fs.projectFaulty && aside != Done ==> NothingStaged(fs.entries, slot)
  {
    moved := None;
    aside, slot := fs.MakeStaging();
    if aside != Done { return Failed, slot, None; }
    fs.Interfere();
    ghost var before := fs.trace;
    aside, moved := RenameAside(fs, path, slot);
    if aside == NotExist { assert Project(path) !in fs.trace[|before|]; }
    if aside == Done { WitnessAt(fs.trace, |fs.trace| - 2, |old(fs.trace)|, Project(path)); }
  }

  /** The rename itself; on failure the empty staging directory is removed. */
  method RenameAside(fs: FileSystem, path: seq<string>, slot: nat) returns (aside: Outcome, ghost moved: Option<Entry>)
    requires fs.Valid() && slot < fs.next && Staged(slot) !in fs.entries
    modifies fs`entries, fs`trace, fs`syncs, fs`destroyed
    ensures fs.Valid() && old(fs.trace) <= fs.trace && fs.destroyed == old(fs.destroyed)
    ensures moved == if aside == Done then At(old(fs.entries), Project(path)) else None
    ensures moved.Some? <==> aside == Done
    ensures aside == Done ==>
      && fs.entries == (old(fs.entries) - {Project(path)})[Staged(slot) := moved.value]
      && fs.trace == old(fs.trace) + [fs.entries]
    ensures aside != Done ==> fs.entries == old(fs.entries) || fs.entries == old(fs.entries) - {StagingDir(slot)}
    ensures !fs.projectFaulty && Project(path) in old(fs.entries) ==> aside == Done
    ensures aside == NotExist ==>
      Project(path) !in old(fs.entries) && |fs.trace| > |old(fs.trace)| && fs.trace[|old(fs.trace)|] == old(fs.entries)
    ensures ConfinedSince(fs.trace, |old(fs.trace)|, old(fs.entries), path, slot, !fs.busy)
    ensures !fs.projectFaulty && aside != Done ==> NothingStaged(fs.entries, slot)
  {
    moved := At(fs.entries, Project(path));
    aside := fs.RenameNoReplace(Project(path), Staged(slot));
    if aside != Done {
      moved := None;
      fs.RemoveStaging(slot);
    }
  }

  predicate PointsTo(e: Entry, id: string) { e.Symlink? && e.target.ByID? && e.target.id == id }

  /** Deletes the moved entry if it is the expected link, and otherwise moves it back. */
  method SettleRetired(fs: FileSystem, path: seq<string>, id: string, slot: nat) returns (result: RetireResult)
    requires fs.Valid() && Staged(slot) in fs.entries && slot < fs.next
    modifies fs`entries, fs`trace, fs`syncs, fs`next, fs`foreign, fs`destroyed
    ensures fs.Valid() && (result.Retired? || result.PutBack? || result.SetApart?) && old(fs.trace) <= fs.trace
    ensures result.PutBack? ==>
      WentFrom(fs.trace, |old(fs.trace)|, Project(path), None, At(old(fs.entries), Staged(slot)))
    ensures SameApartFrom(old(fs.entries), fs.entries, slot)
    ensures result.Retired? ==>
      && PointsTo(old(fs.entries)[Staged(slot)], id)
      && fs.destroyed == old(fs.destroyed) + [old(fs.entries)[Staged(slot)]]
    ensures !result.Retired? ==> fs.destroyed == old(fs.destroyed)
    ensures result.SetApart? ==> At(fs.entries, Staged(slot)) == At(old(fs.entries), Staged(slot))
    ensures result.PutBack? ==> Staged(slot) !in fs.entries
    ensures !fs.busy ==>
      && SameProjects(old(fs.entries), fs.entries, path)
      && (At(fs.entries, Project(path)) ==
          At(old(fs.entries), if result.PutBack? then Staged(slot) else Project(path)))
      && (!fs.projectFaulty && Project(path) !in old(fs.entries) ==>
            if PointsTo(old(fs.entries)[Staged(slot)], id) then result.Retired? else result.PutBack?)
    ensures ConfinedSince(fs.trace, |old(fs.trace)|, old(fs.entries), path, slot, !fs.busy)
    ensures !fs.projectFaulty && !result.SetApart? ==> NothingStaged(fs.entries, slot)
  {
    fs.Interfere();
    ghost var t1, e1 := fs.trace, fs.entries;
    result := JudgeMoved(fs, path, id, slot);
    ConfinedOn(t1, fs.trace, |old(fs.trace)|, old(fs.entries), e1, path, slot, !fs.busy);
    if result.PutBack? { WitnessStays(fs.trace, fs.trace, |t1|, |old(fs.trace)|, Project(path), None, At(e1, Staged(slot))); }
  }

  /** Deletes the moved entry if it is the expected link, or moves it back. */
  method JudgeMoved(fs: FileSystem, path: seq<string>, id: string, slot: nat) returns (result: RetireResult)
    requires fs.Valid() && Staged(slot) in fs.entries && slot < fs.next
    modifies fs`entries, fs`trace, fs`syncs, fs`next, fs`foreign, fs`destroyed
    ensures fs.Valid() && (result.Retired? || result.PutBack? || result.SetApart?) && old(fs.trace) <= fs.trace
    ensures result.PutBack? ==>
      WentFrom(fs.trace, |old(fs.trace)|, Project(path), None, At(old(fs.entries), Staged(slot)))
    ensures SameApartFrom(old(fs.entries), fs.entries, slot)
    ensures result.Retired? ==>
      && PointsTo(old(fs.entries)[Staged(slot)], id)
      && fs.destroyed == old(fs.destroyed) + [old(fs.entries)[Staged(slot)]]
    ensures !result.Retired? ==> fs.destroyed == old(fs.destroyed)
    ensures result.SetApart? ==> At(fs.entries, Staged(slot)) == At(old(fs.entries), Staged(slot))
    ensures result.PutBack? ==> Staged(slot) !in fs.entries
    ensures !fs.busy ==>
      && SameProjects(old(fs.entries), fs.entries, path)
      && (At(fs.entries, Project(path)) ==
          At(old(fs.entries), if result.PutBack? then Staged(slot) else Project(path)))
      && (!fs.projectFaulty && Project(path) !in old(fs.entries) ==>
            if PointsTo(old(fs.entries)[Staged(slot)], id) then result.Retired? else result.PutBack?)
    ensures ConfinedSince(fs.trace, |old(fs.trace)|, old(fs.entries), path, slot, !fs.busy)
    ensures !fs.projectFaulty && !result.SetApart? ==> NothingStaged(fs.entries, slot)
  {
    var unreadable := fs.Fault(Staged(slot));
    if !unreadable && PointsTo(fs.entries[Staged(slot)], id) {
      var removed := fs.Remove(Staged(slot));
      if removed == Done {
        var cleaned := fs.RemoveStagingDir(slot);
        if cleaned != Done { fs.RemoveStaging(slot); }
        return Retired;
      }
    }
    result := MoveBack(fs, path, slot);
  }

  /** Moves the entry back unless something new stands there by now. */
  method MoveBack(fs: FileSystem, path: seq<string>, slot: nat) returns (result: RetireResult)
    requires fs.Valid() && Staged(slot) in fs.entries && slot < fs.next
    modifies fs`entries, fs`trace, fs`syncs, fs`next, fs`foreign, fs`destroyed
    ensures fs.Valid() && (result.PutBack? || result.SetApart?) && old(fs.trace) <= fs.trace
    ensures result.PutBack? ==>
      WentFrom(fs.trace, |old(fs.trace)|, Project(path), None, At(old(fs.entries), Staged(slot)))
    ensures SameApartFrom(old(fs.entries), fs.entries, slot)
    ensures fs.destroyed == old(fs.destroyed)
    ensures result.SetApart? ==> At(fs.entries, Staged(slot)) == At(old(fs.entries), Staged(slot))
    ensures result.PutBack? ==> Staged(slot) !in fs.entries
    ensures !fs.busy ==>
      && SameProjects(old(fs.entries), fs.entries, path)
      && (At(fs.entries, Project(path)) ==
          At(old(fs.entries), if result.PutBack? then Staged(slot) else Project(path)))
      && (!fs.projectFaulty && Project(path) !in old(fs.entries) ==> result.PutBack?)
    ensures ConfinedSince(fs.trace, |old(fs.trace)|, old(fs.entries), path, slot, !fs.busy)
    ensures !fs.projectFaulty && !result.SetApart? ==> NothingStaged(fs.entries, slot)
  {
    fs.Interfere();
    result := RenameBack(fs, path, slot);
    if result.PutBack? { WitnessAt(fs.trace, |old(fs.trace)|, |old(fs.trace)|, Project(path)); }
  }

  method RenameBack(fs: FileSystem, path: seq<string>, slot: nat) returns (result: RetireResult)
    requires fs.Valid() && Staged(slot) in fs.entries && slot < fs.next
    modifies fs`entries, fs`trace, fs`syncs, fs`destroyed
    ensures fs.Valid() && (result.PutBack? || result.SetApart?) && old(fs.trace) <= fs.trace
    ensures fs.destroyed == old(fs.destroyed)
    ensures result.SetApart? ==> fs.entries == old(fs.entries)
    ensures result.PutBack? ==>
      && |fs.trace| == |old(fs.trace)| + 2 && Project(path) !in old(fs.entries)
      && fs.trace[|old(fs.trace)|] == (old(fs.entries) - {Staged(slot)})[Project(path) := old(fs.entries)[Staged(slot)]]
      && (fs.entries == fs.trace[|old(fs.trace)|] || fs.entries == fs.trace[|old(fs.trace)|] - {StagingDir(slot)})
    ensures !fs.projectFaulty && Project(path) !in old(fs.entries) ==> result.PutBack?
    ensures ConfinedSince(fs.trace, |old(fs.trace)|, old(fs.entries), path, slot, !fs.busy)
    ensures !fs.projectFaulty && !result.SetApart? ==> NothingStaged(fs.entries, slot)
  {
    var back := fs.RenameNoReplace(Staged(slot), Project(path));
    if back != Done { return SetApart; }
    fs.RemoveStaging(slot);
    result := PutBack;
  }
}
