/** Reconciling registered links with what is on disk.

  A pass looks at each object's registered path, its kernel reference and, if needed, the
  moved-link search, and records what it concludes.  Other programs act between any two
  steps, every step may fail, and the kernel may answer anything.

  What happened is kept in logs that only the primitive steps extend, each entry stamped
  with the length of the disk's trace at that time: the versions of the index, the queries
  to the kernel, the reports of the search, the passes, and the completed healthy branches.
  The claims are about these logs.
*/
module Reconciler {
  import opened Optional
  import opened DirectoryMoves
  import opened Metadata
  import opened Storage
  import opened Persistence
  import opened Symlinks
  import opened LinkSearch

  const DELETION_GRACE := 500_000_000
  const REGISTRATION_GRACE := 30_000_000_000

  // ------------------------------------------------------------------ tracker

  datatype TrackState = Untracked | Tracked(path: Parts, linked: bool) | TrackFailed

  /** A question about an object's kernel reference, the answer, and the references held then. */
  datatype Query = Query(id: string, state: TrackState, references: set<string>, at: nat)

  /** `protectedLinkTracker`.  A pass without a tracker uses a disabled one. */
  class Tracker {
    const enabled: bool
    var references: set<string>

    constructor (enabled: bool)
      ensures this.enabled == enabled && references == {}
    {
      this.enabled, references := enabled, {};
    }

    /** `currentPath` of a reference: any answer, or an error. */
    method CurrentPath(id: string) returns (r: TrackState)
      ensures !r.Untracked?
    {
      var ok: bool, path: Parts, linked: bool := *, *, *;
      r := if ok then Tracked(path, linked) else TrackFailed;
    }

    method State(id: string) returns (r: TrackState)
      ensures r.Untracked? <==> id !in references
    {
      if id !in references { r := Untracked; } else { r := CurrentPath(id); }
    }

    /** Keeps a linked reference to the same link, replaces an unlinked one, and refuses if the
        tracked link lives on elsewhere. */
    method Ensure(id: string, source: Parts) returns (ok: bool)
      modifies this`references
      ensures ok && enabled ==> id in references
      ensures forall other | other != id :: other in references <==> other in old(references)
      ensures !enabled ==> ok && references == old(references)
    {
      if !enabled { return true; }
      if id in references {
        var r := CurrentPath(id);
        if r.TrackFailed? { return false; }
        if r.linked {
          var same: bool := *;
          return same;
        }
        references := references - {id};
      }
      ok := *;
      if ok { references := references + {id}; }
    }

    method Forget(id: string)
      modifies this`references
      ensures references == old(references) - {id}
    {
      references := references - {id};
    }
  }

  // ------------------------------------------------------ the tree of the search

  /** What a pass will search, and which parts of the disk it will not be able to read. */
  datatype Plan = Plan(
    roots: seq<Parts>, global: bool, workers: nat, internalRoots: seq<Parts>,
    home: Parts, homeNames: set<string>, names: set<string>,
    unreadable: set<Parts>, uninspectable: set<Parts>, broken: set<Parts>)

  /** All directories above the path are there. */
  predicate Rooted(st: Entries, p: Parts) {
    p != [] && (|p| == 1 || (At(st, Project(p[..|p| - 1])) == Some(Directory) && Rooted(st, p[..|p| - 1])))
  }

  function NodeOf(e: Entry, p: Parts, plan: Plan): Node {
    match e
    case Directory => Dir(p !in plan.unreadable)
    case Symlink(target) => Link(target, p !in plan.uninspectable)
    case _ => Other
  }

  /** The project as the search sees it. */
  function TreeOf(st: Entries, plan: Plan): Tree {
    map[[] := Dir([] !in plan.unreadable)] +
    map name | name in st && name.Project? && Rooted(st, name.path) :: name.path := NodeOf(st[name], name.path, plan)
  }

  lemma TreeIsWellFormed(st: Entries, plan: Plan)
    ensures WellFormed(TreeOf(st, plan))
  {
    var tree := TreeOf(st, plan);
    forall p | p in tree && p != [] ensures p[..|p| - 1] in tree && tree[p[..|p| - 1]].Dir? {
      var up := p[..|p| - 1];
      assert Project(p) in st && Rooted(st, p);
      if up != [] { assert Project(up) in st && Rooted(st, up); }
    }
  }

  function IndexedIds(m: Index): set<string> { set k | k in m.files && k.ObjectKey? :: k.id }

  lemma IndexedId(m: Index, id: string)
    requires ObjectKey(id) in m.files
    ensures id in IndexedIds(m)
  {
    assert ObjectKey(id).ObjectKey? && ObjectKey(id).id == id;
  }

  /** `newMovedProtectedLinkSearch`: the targets of all indexed objects. */
  function ScopeOf(plan: Plan, st: Entries, m: Index, mount: Parts): Scope {
    var ids := IndexedIds(m);
    Scope(TreeOf(st, plan), (set id | id in ids :: ByID(mount, id)) + (set k | k in m.legacy :: m.legacy[k]),
          map id | id in ids :: ByID(mount, id), plan.internalRoots, [], plan.home, plan.homeNames, plan.names)
  }

  // --------------------------------------------------------------------- logs

  /** The index from moment `since` on, written at clock reading `time`, after `pass` passes had
      begun. */
  datatype Version = Version(index: Index, since: nat, time: int, pass: nat)

  /** A pass; its search reads the disk as it was in state `taken`. */
  datatype PassStart = PassStart(plan: Plan, taken: nat, version: nat, scope: Scope)

  /** An answer of the search of a pass, with the search before and after the call. */
  datatype Report = Report(pass: nat, source: Parts, target: Target, result: FindResult, before: Progress, after: Progress, at: nat)
  {
    /** All roots were tried, and nothing was missed that the search knows of. */
    predicate Complete() { after.comprehensive && after.indexed }

    /** The call failed at this root. */
    predicate Loses(f: Parts) {
      result.SearchFailed? && 0 < after.nextRoot <= |after.roots| && f == after.roots[after.nextRoot - 1]
    }
  }

  /** The healthy branch ran to its end for an object whose link was looked at in state `at`,
      under version `looked`, and left version `version`. */
  datatype Completion = Completion(id: string, at: nat, looked: nat, version: nat, recorded: bool)

  datatype Snap = Snap(
    mount: Parts, busy: bool, trace: seq<Entries>, destroyed: seq<Entry>, versions: seq<Version>, memory: Index,
    queries: seq<Query>, reports: seq<Report>, passes: seq<PassStart>, completions: seq<Completion>, clock: int)

  function Last(s: Snap): Entries { if s.trace == [] then map[] else s.trace[|s.trace| - 1] }

  function IndexNow(s: Snap): Index {
    if s.versions == [] then Index(FORMAT_VERSION, map[], map[], map[], map[], map[], false)
    else s.versions[|s.versions| - 1].index
  }

  // ------------------------------------------------------------- observations

  /** The path holds a link to the object, or to its recorded legacy target. */
  predicate HoldsLink(st: Entries, m: Index, id: string, path: Parts) {
    var k := ObjectKey(id);
    Project(path) in st &&
    (PointsTo(st[Project(path)], id) || (k in m.legacy && st[Project(path)] == Symlink(m.legacy[k])))
  }

  predicate RegisteredLink(st: Entries, m: Index, id: string) {
    LinkOf(m, ObjectKey(id)).Absolute? && HoldsLink(st, m, id, LinkOf(m, ObjectKey(id)).parts)
  }

  predicate RegisteredEmpty(st: Entries, m: Index, id: string) {
    LinkOf(m, ObjectKey(id)).Absolute? && Project(LinkOf(m, ObjectKey(id)).parts) !in st
  }

  function RecoveryOf(m: Index, id: string): Option<RecoveryEntry> {
    if ObjectKey(id) in m.recovery then Some(m.recovery[ObjectKey(id)]) else None
  }

  /** Moment `at` lies in the pass that wrote version `v`, and version `v - 1` was in force. */
  predicate Stamped(s: Snap, v: nat, at: nat) {
    && 1 <= v < |s.versions| && s.versions[v - 1].since <= at <= s.versions[v].since
    && 1 <= s.versions[v].pass <= |s.passes| && s.passes[s.versions[v].pass - 1].taken <= at
  }

  /** State `at` was seen then. */
  predicate Seen(s: Snap, v: nat, at: nat) { Stamped(s, v, at) && at < s.versions[v].since && at < |s.trace| }

  predicate Asked(s: Snap, v: nat, q: nat, id: string) {
    q < |s.queries| && s.queries[q].id == id && Stamped(s, v, s.queries[q].at)
  }

  predicate Reported(s: Snap, v: nat, r: nat) {
    r < |s.reports| && Stamped(s, v, s.reports[r].at) && s.reports[r].pass == s.versions[v].pass - 1
  }

  ghost predicate LinkWasSeen(s: Snap, v: nat, id: string)
    requires 1 <= v < |s.versions|
  {
    exists at: nat :: Seen(s, v, at) && RegisteredLink(s.trace[at], s.versions[v - 1].index, id)
  }

  ghost predicate PathWasEmpty(s: Snap, v: nat, id: string)
    requires 1 <= v < |s.versions|
  {
    exists at: nat :: Seen(s, v, at) && RegisteredEmpty(s.trace[at], s.versions[v - 1].index, id)
  }

  /** The kernel said that the last name of the tracked link is gone, and a mark set at least
      500 ms before the write stood. */
  ghost predicate KernelSaysGone(s: Snap, v: nat, id: string)
    requires 1 <= v < |s.versions|
  {
    var mark := MarkOf(s.versions[v - 1].index, ObjectKey(id));
    && mark != 0 && s.versions[v].time - mark >= 500_000_000
    && exists q: nat :: Asked(s, v, q, id) && s.queries[q].state.Tracked? && !s.queries[q].state.linked
  }

  /** The object is not tracked, has no legacy target, and the complete search found no other link. */
  ghost predicate FoundNowhere(s: Snap, v: nat, id: string)
    requires 1 <= v < |s.versions|
  {
    var m, k := s.versions[v - 1].index, ObjectKey(id);
    && k !in m.legacy && LinkOf(m, k).Absolute?
    && (exists q: nat :: Asked(s, v, q, id) && s.queries[q].state.Untracked? && id !in s.queries[q].references)
    && (exists r: nat :: Reported(s, v, r) && s.reports[r].Complete() && s.reports[r].result.NotFound?
                    && s.reports[r].target == ByID(s.mount, id) && s.reports[r].source == LinkOf(m, k).parts)
  }

  // ---------------------------------------------------------- what is justified

  /** A recovery entry disappears only after its link was seen again at the registered path.  A
      new one is of the registered path and of that moment, and trash rests on evidence. */
  ghost predicate RecoveryJustified(s: Snap, v: nat, id: string)
    requires 1 <= v < |s.versions|
  {
    var m := s.versions[v - 1].index;
    var was, now := RecoveryOf(m, id), RecoveryOf(s.versions[v].index, id);
    now != was ==>
      && (was.Some? ==> now.None? && LinkWasSeen(s, v, id))
      && (now.Some? ==>
            && LinkOf(m, ObjectKey(id)) == Absolute(now.value.path) && now.value.observed == s.versions[v].time
            && (now.value.state.Trash? ==> PathWasEmpty(s, v, id) && (KernelSaysGone(s, v, id) || FoundNowhere(s, v, id))))
  }

  /** A mark changes only by being cleared, or by being set to the time of the write. */
  ghost predicate MarkJustified(s: Snap, v: nat, id: string)
    requires 1 <= v < |s.versions|
  {
    var was, now := MarkOf(s.versions[v - 1].index, ObjectKey(id)), MarkOf(s.versions[v].index, ObjectKey(id));
    now != was ==> now == 0 || (was == 0 && now == s.versions[v].time)
  }

  function LinkAt(s: Snap, v: nat, id: string): Location
    requires v < |s.versions|
  {
    LinkOf(s.versions[v].index, ObjectKey(id))
  }

  /** At a moment before version `v` was written, the path held the object's link. */
  ghost predicate LinkWasAt(s: Snap, v: nat, id: string, path: Parts)
    requires 1 <= v < |s.versions|
  {
    exists at: nat :: Seen(s, v, at) && HoldsLink(s.trace[at], s.versions[v - 1].index, id, path)
  }

  /** The object's link had moved with this directory when version `v` was written: it was seen below
      the new root, by the same names that led to its registered path below the old one. */
  ghost predicate MovedWith(s: Snap, v: nat, id: string, move: Move)
    requires 1 <= v < |s.versions|
  {
    LinkAt(s, v - 1, id).Absolute? && exists path :: Suggests(move, LinkAt(s, v - 1, id).parts, path) && LinkWasAt(s, v, id, path)
  }

  /** Both paths end in the same names below the roots of the move. */
  ghost predicate Suggests(move: Move, source: Parts, path: Parts) { exists tail :: Splits(move, tail, source, path) }

  /** Version `v` was written in this pass, for an object whose link had moved with the directory. */
  ghost predicate Backs(s: Snap, v: nat, pass: nat, id: string, move: Move) {
    1 <= v < |s.versions| && s.versions[v].pass == pass && MovedWith(s, v, id, move)
  }

  /** Two objects back the move in the pass that wrote version `v`, by earlier writes. */
  ghost predicate TwoBack(s: Snap, v: nat, move: Move)
    requires v < |s.versions|
  {
    exists id, other, u: nat, w: nat :: BothBack(s, v, s.versions[v].pass, move, id, other, u, w)
  }

  ghost predicate BothBack(s: Snap, v: nat, pass: nat, move: Move, id: string, other: string, u: nat, w: nat) {
    id != other && u < v && w < v && Backs(s, u, pass, id, move) && Backs(s, w, pass, other, move)
  }

  /** Nothing is at the old root, and a directory, or a link, which may lead to one, at the new. */
  predicate RootsMoved(st: Entries, move: Move) {
    && Project(move.oldRoot) !in st && Project(move.newRoot) in st
    && (st[Project(move.newRoot)].Directory? || st[Project(move.newRoot)].Symlink?)
  }

  ghost predicate RootsWereMoved(s: Snap, v: nat, move: Move)
    requires 1 <= v < |s.versions|
  {
    exists at: nat :: Seen(s, v, at) && RootsMoved(s.trace[at], move)
  }

  /** Version `v` rebases the registered paths, for a move which two links agree on and the disk confirms. */
  ghost predicate RebasedBy(s: Snap, v: nat, move: Move)
    requires 1 <= v < |s.versions|
  {
    && TwoBack(s, v, move) && RootsWereMoved(s, v, move)
    && s.versions[v].index.links == RebasedAll(move, s.versions[v - 1].index.links)
  }

  /** The object is registered where its link was seen, after its registered path was seen empty. */
  ghost predicate Reregistered(s: Snap, v: nat, id: string)
    requires 1 <= v < |s.versions|
  {
    && LinkAt(s, v, id).Absolute? && LinkWasAt(s, v, id, LinkAt(s, v, id).parts)
    && (LinkAt(s, v - 1, id).Absolute? ==> PathWasEmpty(s, v, id))
    && RecoveryOf(s.versions[v - 1].index, id).None?
  }

  /** A registered path changes only so, or by a rebase. */
  ghost predicate LinkJustified(s: Snap, v: nat, id: string)
    requires 1 <= v < |s.versions|
  {
    LinkAt(s, v, id) != LinkAt(s, v - 1, id) ==> Reregistered(s, v, id) || exists move :: RebasedBy(s, v, move)
  }

  predicate LegacyShrinks(a: Index, b: Index) {
    forall k | k in b.legacy :: k in a.legacy && b.legacy[k] == a.legacy[k]
  }

  ghost predicate Justified(s: Snap, v: nat)
    requires 1 <= v < |s.versions|
  {
    && s.versions[v].index.files == s.versions[v - 1].index.files
    && LegacyShrinks(s.versions[v - 1].index, s.versions[v].index)
    && (forall id :: RecoveryJustified(s, v, id)) && (forall id :: MarkJustified(s, v, id))
    && (forall id :: LinkJustified(s, v, id))
  }

  /** The search of the pass reads this state of the disk, for the objects of this index. */
  ghost predicate Sees(pass: PassStart, st: Entries, m: Index, mount: Parts) {
    match pass
    case PassStart(plan, _, _, scope) => scope == ScopeOf(plan, st, m, mount)
  }

  predicate PassOk(s: Snap, p: nat) {
    && p < |s.passes| && s.passes[p].taken < |s.trace| && s.passes[p].version < |s.versions|
    && s.versions[s.passes[p].version].since <= s.passes[p].taken + 1
  }

  /** The search of the pass sees the disk as it was then. */
  ghost predicate PassSees(s: Snap, p: nat) {
    match PassOk(s, p)
    case true => Sees(s.passes[p], s.trace[s.passes[p].taken], s.versions[s.passes[p].version].index, s.mount)
    case false => false
  }

  /** One of the first `n` reports says that in this pass the call failed at root `f`. */
  ghost predicate LostBy(reports: seq<Report>, n: nat, pass: nat, f: Parts) {
    exists e: nat :: e < n && LostIn(reports, e, pass, f)
  }

  predicate LostIn(reports: seq<Report>, e: nat, pass: nat, f: Parts) {
    e < |reports| && reports[e].pass == pass && reports[e].Loses(f)
  }

  ghost predicate AllLost(reports: seq<Report>, n: nat, pass: nat, failed: set<Parts>) {
    forall f | f in failed :: LostBy(reports, n, pass, f)
  }

  lemma LostStays(a: seq<Report>, b: seq<Report>, n: nat, m: nat, pass: nat, failed: set<Parts>)
    requires AllLost(a, n, pass, failed) && a <= b && n <= m
    ensures AllLost(b, m, pass, failed)
  {
    forall f | f in failed ensures LostBy(b, m, pass, f) {
      assert LostBy(a, n, pass, f);
      var e: nat :| e < n && LostIn(a, e, pass, f);
      assert LostIn(b, e, pass, f);
    }
  }

  /** The search was made for this pass. */
  ghost predicate MadeFor(search: Progress, pass: PassStart) {
    && search.roots == pass.plan.roots && search.broken == pass.plan.broken
    && pass.scope == search.scope.(indexedRoots := pass.scope.indexedRoots)
  }

  /** One more answer of the search: the roots it could not inspect are those reported so far. */
  lemma LossIsReported(a: seq<Report>, report: Report)
    requires AllLost(a, |a|, report.pass, report.before.failedRoots)
    requires Answers(report.before, report.after, report.source, report.target, report.result)
    ensures AllLost(a + [report], |a| + 1, report.pass, report.after.failedRoots)
  {
    var b := a + [report];
    LostStays(a, b, |a|, |a| + 1, report.pass, report.before.failedRoots);
    forall f | f in report.after.failedRoots ensures LostBy(b, |b|, report.pass, f) {
      if f !in report.before.failedRoots { assert LostIn(b, |a|, report.pass, f); }
    }
  }

  /** An answer is one of the search of its pass, and every root that search had not been able to
      inspect was reported by a failed call of the same pass. */
  ghost predicate ReportOk(s: Snap, r: nat)
    requires r < |s.reports|
  {
    var report := s.reports[r];
    && report.pass < |s.passes| && s.passes[report.pass].taken < report.at && MadeFor(report.after, s.passes[report.pass])
    && Answers(report.before, report.after, report.source, report.target, report.result) && Sound(report.after)
    && AllLost(s.reports, r + 1, report.pass, report.after.failedRoots)
  }

  /** A completed healthy branch saw the link, and if its writes succeeded nothing is in doubt. */
  ghost predicate CompletionOk(s: Snap, c: nat)
    requires c < |s.completions|
  {
    var done := s.completions[c];
    && done.looked <= done.version < |s.versions| && done.at < |s.trace| && s.versions[done.looked].since <= done.at
    && RegisteredLink(s.trace[done.at], s.versions[done.looked].index, done.id)
    && (done.recorded ==>
          MarkOf(s.versions[done.version].index, ObjectKey(done.id)) == 0
          && RecoveryOf(s.versions[done.version].index, done.id).None?)
  }

  /** Moments and clock readings of the versions do not run backwards. */
  predicate Past(s: Snap, v: nat) {
    v < |s.versions| && s.versions[v].since <= |s.trace| && s.versions[v].time <= s.clock
  }

  predicate Before(s: Snap, v: nat, w: nat) {
    v <= w < |s.versions| && s.versions[v].since <= s.versions[w].since && s.versions[v].time <= s.versions[w].time
  }

  ghost predicate InOrder(s: Snap) {
    && (forall v: nat | v < |s.versions| :: Past(s, v))
    && (forall v: nat, w: nat | v <= w < |s.versions| :: Before(s, v, w))
  }

  ghost predicate SnapInv(s: Snap) {
    && s.trace != [] && s.versions != [] && InOrder(s) && s.clock > 0
    && (forall v | 1 <= v < |s.versions| :: Justified(s, v))
    && (forall p: nat | p < |s.passes| :: PassOk(s, p)) && (forall p: nat | p < |s.passes| :: PassSees(s, p))
    && (forall r | 0 <= r < |s.reports| :: ReportOk(s, r))
    && (forall c | 0 <= c < |s.completions| :: CompletionOk(s, c))
  }

  // ------------------------------------------------------------ growing logs

  ghost predicate Extends(a: Snap, b: Snap) {
    && a.mount == b.mount && a.busy == b.busy && a.trace <= b.trace && a.destroyed <= b.destroyed && a.versions <= b.versions
    && a.queries <= b.queries && a.reports <= b.reports && a.passes <= b.passes && a.completions <= b.completions
    && a.clock <= b.clock
  }

  lemma SeenStays(a: Snap, b: Snap, v: nat, id: string)
    requires Extends(a, b) && 1 <= v < |a.versions|
    ensures LinkWasSeen(a, v, id) ==> LinkWasSeen(b, v, id)
    ensures PathWasEmpty(a, v, id) ==> PathWasEmpty(b, v, id)
  {
    if LinkWasSeen(a, v, id) {
      var at: nat :| Seen(a, v, at) && RegisteredLink(a.trace[at], a.versions[v - 1].index, id);
      assert Seen(b, v, at);
    }
    if PathWasEmpty(a, v, id) {
      var at: nat :| Seen(a, v, at) && RegisteredEmpty(a.trace[at], a.versions[v - 1].index, id);
      assert Seen(b, v, at);
    }
  }

  lemma KernelSaysStays(a: Snap, b: Snap, v: nat, id: string)
    requires Extends(a, b) && 1 <= v < |a.versions| && KernelSaysGone(a, v, id)
    ensures KernelSaysGone(b, v, id)
  {
    var q: nat :| Asked(a, v, q, id) && a.queries[q].state.Tracked? && !a.queries[q].state.linked;
    assert b.queries[q] == a.queries[q] && Asked(b, v, q, id);
  }

  lemma FoundNowhereStays(a: Snap, b: Snap, v: nat, id: string)
    requires Extends(a, b) && 1 <= v < |a.versions| && FoundNowhere(a, v, id)
    ensures FoundNowhere(b, v, id)
  {
    var m, k := a.versions[v - 1].index, ObjectKey(id);
    var q: nat :| Asked(a, v, q, id) && a.queries[q].state.Untracked? && id !in a.queries[q].references;
    assert b.queries[q] == a.queries[q] && Asked(b, v, q, id);
    var r: nat :| Reported(a, v, r) && a.reports[r].Complete() && a.reports[r].result.NotFound?
             && a.reports[r].target == ByID(a.mount, id) && a.reports[r].source == LinkOf(m, k).parts;
    assert b.reports[r] == a.reports[r] && Reported(b, v, r);
  }

  lemma RecoveryStaysJustified(a: Snap, b: Snap, v: nat, id: string)
    requires Extends(a, b) && 1 <= v < |a.versions| && RecoveryJustified(a, v, id)
    ensures RecoveryJustified(b, v, id)
  {
    SeenStays(a, b, v, id);
    if KernelSaysGone(a, v, id) { KernelSaysStays(a, b, v, id); }
    if FoundNowhere(a, v, id) { FoundNowhereStays(a, b, v, id); }
  }

  lemma LinkStays(a: Snap, b: Snap, v: nat, id: string, path: Parts)
    requires Extends(a, b) && 1 <= v < |a.versions| && LinkWasAt(a, v, id, path)
    ensures LinkWasAt(b, v, id, path)
  {
    var at: nat :| Seen(a, v, at) && HoldsLink(a.trace[at], a.versions[v - 1].index, id, path);
    assert Seen(b, v, at);
  }

  lemma BackingStays(a: Snap, b: Snap, v: nat, pass: nat, id: string, move: Move)
    requires Extends(a, b) && Backs(a, v, pass, id, move)
    ensures Backs(b, v, pass, id, move)
  {
    var path :| Suggests(move, LinkAt(a, v - 1, id).parts, path) && LinkWasAt(a, v, id, path);
    LinkStays(a, b, v, id, path);
  }

  lemma TwoStillBack(a: Snap, b: Snap, v: nat, move: Move)
    requires Extends(a, b) && v < |a.versions| && TwoBack(a, v, move)
    ensures TwoBack(b, v, move)
  {
    var pass := a.versions[v].pass;
    var id, other, u: nat, w: nat :| BothBack(a, v, pass, move, id, other, u, w);
    BackingStays(a, b, u, pass, id, move);
    BackingStays(a, b, w, pass, other, move);
    assert BothBack(b, v, pass, move, id, other, u, w);
  }

  lemma RebaseStays(a: Snap, b: Snap, v: nat, move: Move)
    requires Extends(a, b) && 1 <= v < |a.versions| && RebasedBy(a, v, move)
    ensures RebasedBy(b, v, move)
  {
    TwoStillBack(a, b, v, move);
    RootsStayMoved(a, b, v, move);
    assert b.versions[v] == a.versions[v] && b.versions[v - 1] == a.versions[v - 1];
  }

  lemma RootsStayMoved(a: Snap, b: Snap, v: nat, move: Move)
    requires Extends(a, b) && 1 <= v < |a.versions| && RootsWereMoved(a, v, move)
    ensures RootsWereMoved(b, v, move)
  {
    var at: nat :| Seen(a, v, at) && RootsMoved(a.trace[at], move);
    assert Seen(b, v, at);
  }

  lemma LinkStaysJustified(a: Snap, b: Snap, v: nat, id: string)
    requires Extends(a, b) && 1 <= v < |a.versions| && LinkJustified(a, v, id)
    ensures LinkJustified(b, v, id)
  {
    if Reregistered(a, v, id) {
      SeenStays(a, b, v, id);
      LinkStays(a, b, v, id, LinkAt(a, v, id).parts);
    } else if move :| RebasedBy(a, v, move) {
      RebaseStays(a, b, v, move);
    }
  }

  lemma StaysJustified(a: Snap, b: Snap, v: nat)
    requires Extends(a, b) && 1 <= v < |a.versions| && Justified(a, v)
    ensures Justified(b, v)
  {
    forall id ensures RecoveryJustified(b, v, id) { RecoveryStaysJustified(a, b, v, id); }
    forall id ensures MarkJustified(b, v, id) { assert MarkJustified(a, v, id); }
    forall id ensures LinkJustified(b, v, id) { LinkStaysJustified(a, b, v, id); }
  }

  lemma LogsStayOk(a: Snap, b: Snap)
    requires Extends(a, b) && SnapInv(a)
    ensures forall p: nat | p < |a.passes| :: PassOk(b, p) && PassSees(b, p)
    ensures forall r | 0 <= r < |a.reports| :: ReportOk(b, r)
    ensures forall c | 0 <= c < |a.completions| :: CompletionOk(b, c)
  {
    forall p: nat | p < |a.passes| ensures PassOk(b, p) && PassSees(b, p) { assert PassSees(a, p); }
    forall r | 0 <= r < |a.reports| ensures ReportOk(b, r) {
      assert ReportOk(a, r);
      LostStays(a.reports, b.reports, r + 1, r + 1, a.reports[r].pass, a.reports[r].after.failedRoots);
    }
    forall c | 0 <= c < |a.completions| ensures CompletionOk(b, c) { assert CompletionOk(a, c); }
  }

  lemma OrderGrows(a: Snap, b: Snap)
    requires Extends(a, b) && a.versions != [] && InOrder(a) && |b.versions| <= |a.versions| + 1
    requires |b.versions| > |a.versions| ==>
      b.versions[|a.versions|].since == |b.trace| && b.versions[|a.versions|].time == b.clock
    ensures InOrder(b)
  {
    forall v: nat | v < |b.versions| ensures Past(b, v) {
      if v < |a.versions| { assert Past(a, v); }
    }
    forall v: nat, w: nat | v <= w < |b.versions| ensures Before(b, v, w) {
      assert Past(b, v);
      if w < |a.versions| { assert Before(a, v, w); }
    }
  }

  /** Steps that do not write the index. */
  lemma InvGrows(a: Snap, b: Snap)
    requires Extends(a, b) && SnapInv(a) && b.versions == a.versions && |b.passes| <= |a.passes| + 1
    requires |b.passes| > |a.passes| ==> PassSees(b, |a.passes|)
    requires forall r | |a.reports| <= r < |b.reports| :: ReportOk(b, r)
    requires forall c | |a.completions| <= c < |b.completions| :: CompletionOk(b, c)
    ensures SnapInv(b)
  {
    LogsStayOk(a, b);
    OrderGrows(a, b);
    forall p: nat | p < |b.passes| ensures PassOk(b, p) && PassSees(b, p) {
      if p >= |a.passes| { assert p == |a.passes|; }
    }
    forall v | 1 <= v < |b.versions| ensures Justified(b, v) { StaysJustified(a, b, v); }
  }

  /** A write of the index that is justified. */
  lemma InvWrites(a: Snap, b: Snap)
    requires Extends(a, b) && SnapInv(a) && |b.versions| == |a.versions| + 1
    requires b.passes == a.passes && b.reports == a.reports && b.completions == a.completions
    requires b.versions[|a.versions|].since == |b.trace| && b.versions[|a.versions|].time == b.clock
    requires Justified(b, |a.versions|)
    ensures SnapInv(b)
  {
    LogsStayOk(a, b);
    OrderGrows(a, b);
    forall v | 1 <= v < |b.versions| ensures Justified(b, v) {
      if v < |a.versions| { StaysJustified(a, b, v); }
    }
  }

  // ------------------------------------------------------ what a run may change

  /** A link to some object, or to a recorded legacy target. */
  predicate OurLink(e: Entry, m: Index) {
    e.Symlink? && (e.target.ByID? || exists k | k in m.legacy :: m.legacy[k] == e.target)
  }

  /** A link of ours; or what was found in the place of a link we had just put there, in exchange
      for an entry that was then put back. */
  ghost predicate Expendable(trace: seq<Entries>, n: nat, e: Entry, m: Index, mount: Parts) {
    OurLink(e, m) || exists path, id, d :: SwappedOut(trace, n, Project(path), d, Symlink(ByID(mount, id)), Some(e))
  }

  ghost predicate SameObjects(a: Entries, b: Entries) {
    forall id :: At(b, ObjectFile(id)) == At(a, ObjectFile(id))
  }

  /** Every project path that was not a symbolic link is exactly as it was. */
  ghost predicate OnlyLinksChanged(a: Entries, b: Entries) {
    forall path :: !(Project(path) in a && a[Project(path)].Symlink?) ==> At(b, Project(path)) == At(a, Project(path))
  }

  ghost predicate DiskKept(quiet: bool, a: Entries, b: Entries) { SameObjects(a, b) && (quiet ==> OnlyLinksChanged(a, b)) }

  ghost predicate KeptAt(a: Snap, b: Snap, i: nat) { a.trace != [] && i < |b.trace| && DiskKept(!a.busy, Last(a), b.trace[i]) }

  ghost predicate ExpendableAt(a: Snap, b: Snap, i: nat) {
    && a.versions != [] && i < |b.destroyed| && Expendable(b.trace, |a.trace|, b.destroyed[i], IndexNow(a), a.mount)
    && (!a.busy ==> OurLink(b.destroyed[i], IndexNow(a)))
  }

  /** At every moment of a run the ciphertexts are as they were and, if nobody else acts, so is
      everything in the project but symbolic links; no indexed object is dropped; and nothing
      is destroyed but expendable entries. */
  ghost predicate Follows(a: Snap, b: Snap) {
    && Extends(a, b) && a.trace != [] && a.versions != []
    && (forall i: nat | |a.trace| <= i < |b.trace| :: KeptAt(a, b, i))
    && (forall i: nat | |a.destroyed| <= i < |b.destroyed| :: ExpendableAt(a, b, i))
    && IndexNow(b).files == IndexNow(a).files && LegacyShrinks(IndexNow(a), IndexNow(b))
  }

  lemma DiskKeptLast(a: Snap, b: Snap)
    requires Follows(a, b)
    ensures DiskKept(!a.busy, Last(a), Last(b))
  {
    if |b.trace| > |a.trace| { assert KeptAt(a, b, |b.trace| - 1); }
  }

  lemma ExpendableEarlier(trace: seq<Entries>, longer: seq<Entries>, n: nat, m: nat, e: Entry, before: Index, later: Index, mount: Parts)
    requires Expendable(trace, m, e, later, mount) && trace <= longer && n <= m && LegacyShrinks(before, later)
    ensures Expendable(longer, n, e, before, mount)
  {
    if !OurLink(e, later) {
      var path, id, d :| SwappedOut(trace, m, Project(path), d, Symlink(ByID(mount, id)), Some(e));
      SwappedOutEarlier(trace, longer, m, n, Project(path), d, Symlink(ByID(mount, id)), Some(e));
    }
  }

  lemma DestroyedOn(a: Snap, b: Snap, c: Snap, i: nat)
    requires Follows(a, b) && Follows(b, c) && |a.destroyed| <= i < |c.destroyed|
    ensures ExpendableAt(a, c, i)
  {
    if i < |b.destroyed| {
      assert ExpendableAt(a, b, i) && c.destroyed[i] == b.destroyed[i];
      ExpendableEarlier(b.trace, c.trace, |a.trace|, |a.trace|, b.destroyed[i], IndexNow(a), IndexNow(a), a.mount);
    } else {
      assert ExpendableAt(b, c, i);
      ExpendableEarlier(c.trace, c.trace, |a.trace|, |b.trace|, c.destroyed[i], IndexNow(a), IndexNow(b), a.mount);
    }
  }

  lemma TraceOn(a: Snap, b: Snap, c: Snap, i: nat)
    requires Follows(a, b) && Follows(b, c) && |a.trace| <= i < |c.trace|
    ensures KeptAt(a, c, i)
  {
    DiskKeptLast(a, b);
    if i < |b.trace| {
      assert KeptAt(a, b, i) && c.trace[i] == b.trace[i];
    } else {
      assert KeptAt(b, c, i);
      DiskKeptOn(!a.busy, Last(a), Last(b), c.trace[i]);
    }
  }

  lemma DiskKeptOn(quiet: bool, a: Entries, b: Entries, c: Entries)
    requires DiskKept(quiet, a, b) && DiskKept(quiet, b, c)
    ensures DiskKept(quiet, a, c)
  {
  }

  lemma FollowsOn(a: Snap, b: Snap, c: Snap)
    requires Follows(a, b) && Follows(b, c)
    ensures Follows(a, c)
  {
    forall i: nat | |a.trace| <= i < |c.trace| ensures KeptAt(a, c, i) { TraceOn(a, b, c, i); }
    forall i: nat | |a.destroyed| <= i < |c.destroyed| ensures ExpendableAt(a, c, i) { DestroyedOn(a, b, c, i); }
  }

  lemma StartFollows(s: Snap)
    requires s.trace != [] && s.versions != []
    ensures Follows(s, s)
  {
  }

  // ------------------------------------------------------- recording conclusions

  /** What the index says about one object. */
  datatype View = View(link: Location, mark: int, recovery: Option<RecoveryEntry>, legacy: Option<Target>)

  function ViewOf(m: Index, id: string): View {
    var k := ObjectKey(id);
    View(LinkOf(m, k), MarkOf(m, k), RecoveryOf(m, id), if k in m.legacy then Some(m.legacy[k]) else None)
  }

  /** The volume's copy is current about this object. */
  ghost predicate Agrees(s: Snap, id: string) {
    ViewOf(s.memory, id) == ViewOf(IndexNow(s), id) && s.memory.files == IndexNow(s).files
  }

  /** Nothing changed about any other object. */
  ghost predicate OthersKept(a: Snap, b: Snap, id: string) {
    forall other | other != id :: ViewOf(IndexNow(b), other) == ViewOf(IndexNow(a), other) && (Agrees(a, other) ==> Agrees(b, other))
  }

  lemma OthersKeptOn(a: Snap, b: Snap, c: Snap, id: string)
    requires OthersKept(a, b, id) && OthersKept(b, c, id)
    ensures OthersKept(a, c, id)
  {
  }

  /** The operations a pass performs on one object. */
  predicate Concludes(op: Operation, id: string) {
    (op.SetLinkSource? || op.MarkOrphan? || op.ClearOrphan? || op.MarkRecovery?) && op.key == ObjectKey(id)
  }

  /** An attempted update, which may take effect although it fails. */
  predicate Attempts(a: Snap, b: Snap, op: Operation) {
    && Writes(a, b) && (IndexNow(b) == IndexNow(a) || Apply(IndexNow(a), op) == Some(IndexNow(b)))
    && (b.memory == a.memory || b.memory == IndexNow(b))
  }

  /** A version was written. */
  predicate Writes(a: Snap, b: Snap) {
    && a.versions != [] && |b.versions| == |a.versions| + 1
    && b == a.(memory := b.memory,
               versions := a.versions + [Version(b.versions[|a.versions|].index, |a.trace|, a.clock, |a.passes|)])
  }

  lemma ConclusionIsLocal(m: Index, op: Operation, id: string, other: string)
    requires Concludes(op, id) && Apply(m, op).Some? && other != id
    ensures ViewOf(Apply(m, op).value, other) == ViewOf(m, other)
  {
  }

  lemma ConclusionKeepsObjects(m: Index, op: Operation, id: string)
    requires Concludes(op, id) && Apply(m, op).Some?
    ensures Apply(m, op).value.files == m.files && LegacyShrinks(m, Apply(m, op).value)
  {
  }

  lemma AttemptKeepsOthers(a: Snap, b: Snap, op: Operation, id: string)
    requires Concludes(op, id) && Attempts(a, b, op)
    ensures OthersKept(a, b, id) && IndexNow(b).files == IndexNow(a).files && LegacyShrinks(IndexNow(a), IndexNow(b))
  {
    if IndexNow(b) != IndexNow(a) {
      ConclusionKeepsObjects(IndexNow(a), op, id);
      forall other | other != id ensures ViewOf(IndexNow(b), other) == ViewOf(IndexNow(a), other) {
        ConclusionIsLocal(IndexNow(a), op, id, other);
      }
    }
  }

  /** A write about one object is justified if what it does to that object is. */
  lemma AttemptIsJustified(a: Snap, b: Snap, op: Operation, id: string)
    requires SnapInv(a) && Concludes(op, id) && Attempts(a, b, op)
    requires RecoveryJustified(b, |a.versions|, id) && MarkJustified(b, |a.versions|, id) && LinkJustified(b, |a.versions|, id)
    ensures Justified(b, |a.versions|)
  {
    AttemptKeepsOthers(a, b, op, id);
    var v := |a.versions|;
    assert b.versions[v - 1] == a.versions[v - 1];
    forall other ensures RecoveryJustified(b, v, other) && MarkJustified(b, v, other) && LinkJustified(b, v, other) {
      if other != id { assert ViewOf(IndexNow(b), other) == ViewOf(IndexNow(a), other); }
    }
  }

  /** All that a run from `a` to `b` keeps, and the work on one object beyond that. */
  ghost predicate KeepsAll(a: Snap, b: Snap, who: Option<string>) {
    SnapInv(a) && SnapInv(b) && Follows(a, b) && (who.Some? ==> OthersKept(a, b, who.value))
  }

  /** The same with its definition out of sight: the branches of a pass only hand it on, and the
      lemmas that use it unfold it. */
  ghost predicate Keeps(a: Snap, b: Snap, id: string) { KeepsFolded(|b.trace| + 1, a, b, Some(id)) }

  ghost predicate Runs(a: Snap, b: Snap) { KeepsFolded(|b.trace| + 1, a, b, None) }

  ghost predicate KeepsFolded(n: nat, a: Snap, b: Snap, who: Option<string>) {
    if n == 0 then KeepsAll(a, b, who) else KeepsFolded(n - 1, a, b, who)
  }

  lemma {:induction false} Unfolded(n: nat, a: Snap, b: Snap, who: Option<string>)
    ensures KeepsFolded(n, a, b, who) <==> KeepsAll(a, b, who)
  {
    if n > 0 { Unfolded(n - 1, a, b, who); }
  }

  lemma KeepsMeans(a: Snap, b: Snap, id: string)
    ensures Keeps(a, b, id) <==> KeepsAll(a, b, Some(id))
  {
    Unfolded(|b.trace| + 1, a, b, Some(id));
  }

  lemma RunsMeans(a: Snap, b: Snap)
    ensures Runs(a, b) <==> SnapInv(a) && SnapInv(b) && Follows(a, b)
  {
    Unfolded(|b.trace| + 1, a, b, None);
  }

  /** Then it keeps everything. */
  lemma ConclusionFollows(start: Snap, a: Snap, b: Snap, op: Operation, id: string)
    requires KeepsAll(start, a, Some(id)) && Concludes(op, id) && Attempts(a, b, op)
    requires RecoveryJustified(b, |a.versions|, id) && MarkJustified(b, |a.versions|, id) && LinkJustified(b, |a.versions|, id)
    ensures Keeps(start, b, id)
  {
    KeepsMeans(start, b, id);
    AttemptIsJustified(a, b, op, id);
    AttemptKeepsOthers(a, b, op, id);
    InvWrites(a, b);
    FollowsOn(start, a, b);
    OthersKeptOn(start, a, b, id);
  }

  /** Steps that write nothing. */
  lemma ObservationFollows(start: Snap, a: Snap, b: Snap, id: string)
    requires Keeps(start, a, id) && Extends(a, b) && b.versions == a.versions && b.memory == a.memory
    requires b.passes == a.passes && b.completions == a.completions
    requires forall r | |a.reports| <= r < |b.reports| :: ReportOk(b, r)
    requires forall i: nat | |a.trace| <= i < |b.trace| :: KeptAt(a, b, i)
    requires forall i: nat | |a.destroyed| <= i < |b.destroyed| :: ExpendableAt(a, b, i)
    ensures Keeps(start, b, id)
  {
    KeepsMeans(start, a, id);
    KeepsMeans(start, b, id);
    InvGrows(a, b);
    FollowsOn(start, a, b);
  }

  // ------------------------------------------------- the conclusions one by one

  /** A moment of the current pass after `start` lies in the window of the next version. */
  lemma NextVersionSees(start: Snap, a: Snap, b: Snap, at: nat)
    requires start.versions != [] && Past(start, |start.versions| - 1) && start.passes != [] && PassOk(start, |start.passes| - 1)
    requires a.versions == start.versions && a.passes == start.passes && Writes(a, b) && |start.trace| <= at <= |a.trace|
    ensures Stamped(b, |a.versions|, at) && (at < |a.trace| ==> Seen(b, |a.versions|, at))
  {
    assert b.versions[|a.versions| - 1] == start.versions[|a.versions| - 1];
  }

  lemma StartIsInOrder(s: Snap)
    requires SnapInv(s)
    ensures Past(s, |s.versions| - 1) && (s.passes != [] ==> PassOk(s, |s.passes| - 1))
  {
  }

  lemma OrphanFollows(start: Snap, a: Snap, b: Snap, id: string)
    requires Keeps(start, a, id) && Attempts(a, b, MarkOrphan(ObjectKey(id), a.clock))
    ensures Keeps(start, b, id)
  {
    KeepsMeans(start, a, id);
    assert b.versions[|a.versions| - 1] == a.versions[|a.versions| - 1];
    ConclusionFollows(start, a, b, MarkOrphan(ObjectKey(id), a.clock), id);
  }

  /** The registered path, if there is one, was seen empty. */
  predicate LeftBehind(start: Snap, a: Snap, id: string, seen: nat) {
    LinkOf(IndexNow(start), ObjectKey(id)).Absolute? ==>
      |start.trace| <= seen < |a.trace| && RegisteredEmpty(a.trace[seen], IndexNow(start), id)
  }

  /** The link was seen at the path that is registered, and the old path was seen empty. */
  lemma SourceFollows(start: Snap, a: Snap, b: Snap, id: string, path: Parts, seen: nat, at: nat)
    requires Keeps(start, a, id) && Attempts(a, b, SetLinkSource(ObjectKey(id), path)) && RecoveryOf(IndexNow(a), id).None?
    requires a.versions == start.versions && a.passes == start.passes != []
    requires |start.trace| <= at < |a.trace| && HoldsLink(a.trace[at], IndexNow(start), id, path)
    requires LeftBehind(start, a, id, seen)
    ensures Keeps(start, b, id) && LinkWasAt(b, |a.versions|, id, path)
  {
    KeepsMeans(start, a, id);
    var v := |a.versions|;
    assert b.versions[v - 1] == a.versions[v - 1];
    StartIsInOrder(start);
    NextVersionSees(start, a, b, at);
    if LinkOf(IndexNow(start), ObjectKey(id)).Absolute? {
      NextVersionSees(start, a, b, seen);
      assert Seen(b, v, seen) && RegisteredEmpty(b.trace[seen], b.versions[v - 1].index, id);
    }
    assert Seen(b, v, at) && HoldsLink(b.trace[at], b.versions[v - 1].index, id, path);
    ConclusionFollows(start, a, b, SetLinkSource(ObjectKey(id), path), id);
  }

  /** Then the object backs the directory move that its new path suggests. */
  lemma MoveIsBacked(start: Snap, s: Snap, id: string, path: Parts, move: Move)
    requires |s.versions| == |start.versions| + 1 && start.versions != [] && start.versions <= s.versions
    requires s.versions[|start.versions|].pass == |s.passes| && LinkWasAt(s, |start.versions|, id, path)
    requires LinkOf(IndexNow(start), ObjectKey(id)).Absolute?
    requires Suggests(move, LinkOf(IndexNow(start), ObjectKey(id)).parts, path)
    ensures Backs(s, |start.versions|, |s.passes|, id, move)
  {
    assert s.versions[|start.versions| - 1] == start.versions[|start.versions| - 1];
  }

  lemma ClearFollows(start: Snap, a: Snap, b: Snap, id: string, at: nat)
    requires Keeps(start, a, id) && Attempts(a, b, ClearOrphan(ObjectKey(id)))
    requires a.versions == start.versions && a.passes == start.passes != []
    requires |start.trace| <= at < |a.trace| && RegisteredLink(a.trace[at], IndexNow(start), id)
    ensures Keeps(start, b, id)
  {
    KeepsMeans(start, a, id);
    var v := |a.versions|;
    assert b.versions[v - 1] == a.versions[v - 1];
    StartIsInOrder(start);
    NextVersionSees(start, a, b, at);
    assert Seen(b, v, at) && RegisteredLink(b.trace[at], b.versions[v - 1].index, id);
    ConclusionFollows(start, a, b, ClearOrphan(ObjectKey(id)), id);
  }

  lemma ConflictFollows(start: Snap, a: Snap, b: Snap, id: string, reason: string)
    requires Keeps(start, a, id) && Attempts(a, b, MarkRecovery(ObjectKey(id), Conflict, reason, a.clock))
    requires RecoveryOf(IndexNow(a), id).None?
    ensures Keeps(start, b, id)
  {
    KeepsMeans(start, a, id);
    assert b.versions[|a.versions| - 1] == a.versions[|a.versions| - 1];
    ConclusionFollows(start, a, b, MarkRecovery(ObjectKey(id), Conflict, reason, a.clock), id);
  }

  /** What was observed since `start` entitles a pass to conclude that the object was deleted. */
  ghost predicate Entitled(start: Snap, a: Snap, id: string, at: nat, q: nat, r: Option<nat>) {
    var m, k := IndexNow(start), ObjectKey(id);
    && |start.trace| <= at < |a.trace| && RegisteredEmpty(a.trace[at], m, id)
    && q < |a.queries| && a.queries[q].id == id && |start.trace| <= a.queries[q].at <= |a.trace|
    && match r
       case None =>
         && a.queries[q].state.Tracked? && !a.queries[q].state.linked
         && MarkOf(m, k) != 0 && a.clock - MarkOf(m, k) >= 500_000_000
       case Some(n) =>
         && a.queries[q].state.Untracked? && id !in a.queries[q].references && k !in m.legacy
         && n < |a.reports| && a.reports[n].Complete() && a.reports[n].result.NotFound?
         && a.reports[n].target == ByID(a.mount, id) && a.reports[n].source == LinkOf(m, k).parts
         && |start.trace| <= a.reports[n].at <= |a.trace| && a.reports[n].pass == |a.passes| - 1
  }

  lemma EntitledIsEvidence(start: Snap, a: Snap, b: Snap, id: string, at: nat, q: nat, r: Option<nat>)
    requires SnapInv(start) && Extends(start, a) && a.versions == start.versions && a.passes == start.passes != []
    requires Writes(a, b) && Entitled(start, a, id, at, q, r)
    ensures PathWasEmpty(b, |a.versions|, id) && (KernelSaysGone(b, |a.versions|, id) || FoundNowhere(b, |a.versions|, id))
  {
    var v := |a.versions|;
    assert b.versions[v - 1] == a.versions[v - 1];
    StartIsInOrder(start);
    NextVersionSees(start, a, b, at);
    NextVersionSees(start, a, b, a.queries[q].at);
    assert Seen(b, v, at) && RegisteredEmpty(b.trace[at], b.versions[v - 1].index, id);
    assert Asked(b, v, q, id);
    if r.Some? {
      NextVersionSees(start, a, b, a.reports[r.value].at);
      assert Reported(b, v, r.value);
    }
  }

  lemma TrashFollows(start: Snap, a: Snap, b: Snap, id: string, reason: string, at: nat, q: nat, r: Option<nat>)
    requires Keeps(start, a, id) && Attempts(a, b, MarkRecovery(ObjectKey(id), Trash, reason, a.clock))
    requires RecoveryOf(IndexNow(a), id).None?
    requires a.versions == start.versions && a.passes == start.passes != []
    requires LinkOf(IndexNow(start), ObjectKey(id)).Absolute? ==> Entitled(start, a, id, at, q, r)
    ensures Keeps(start, b, id)
  {
    KeepsMeans(start, a, id);
    var op := MarkRecovery(ObjectKey(id), Trash, reason, a.clock);
    assert b.versions[|a.versions| - 1] == a.versions[|a.versions| - 1];
    if LinkOf(IndexNow(start), ObjectKey(id)).Absolute? { EntitledIsEvidence(start, a, b, id, at, q, r); }
    ConclusionFollows(start, a, b, op, id);
  }

  /** Logging a completed healthy branch. */
  lemma CompletionFollows(start: Snap, a: Snap, b: Snap, id: string, done: Completion)
    requires Keeps(start, a, id) && b == a.(completions := a.completions + [done])
    requires done.id == id && done.looked == |start.versions| - 1 && done.version == |a.versions| - 1
    requires |start.versions| <= |a.versions| && start.versions != [] && |start.trace| <= done.at < |a.trace|
    requires RegisteredLink(a.trace[done.at], IndexNow(start), id)
    requires done.recorded ==> MarkOf(IndexNow(a), ObjectKey(id)) == 0 && RecoveryOf(IndexNow(a), id).None?
    ensures Keeps(start, b, id)
  {
    KeepsMeans(start, a, id);
    KeepsMeans(start, b, id);
    assert a.versions[|start.versions| - 1] == start.versions[|start.versions| - 1] && Past(start, |start.versions| - 1);
    assert CompletionOk(b, |a.completions|);
    InvGrows(a, b);
    FollowsOn(start, a, b);
  }

  /** What the search sees of links does not depend on how far it got. */
  lemma SameSight(s: Scope, t: Scope, roots: seq<Parts>, failed: set<Parts>, source: Parts, target: Target)
    requires t == s.(indexedRoots := t.indexedRoots) && NoOtherLink(s, roots, failed, source, target)
    ensures NoOtherLink(t, roots, failed, source, target)
  {
    forall i, p | 0 <= i < |roots| && roots[i] !in failed && Below(roots[i], Absolute(p))
                  && t.Links(p, target) && !t.Internal(p)
      ensures p == source
    {
      assert s.Links(p, target) && !s.Internal(p);
    }
  }

  /** The report of an answer of the search of this pass, whose losses so far were reported. */
  ghost predicate Genuine(report: Report, pass: PassStart, reports: seq<Report>) {
    match report
    case Report(p, source, target, result, before, after, _) =>
      && Answers(before, after, source, target, result) && Sound(after)
      && MadeFor(before, pass) && AllLost(reports, |reports|, p, before.failedRoots)
  }

  lemma ReportFollows(start: Snap, a: Snap, b: Snap, id: string, report: Report)
    requires Keeps(start, a, id) && a.passes != [] && Genuine(report, a.passes[|a.passes| - 1], a.reports)
    requires b == a.(reports := a.reports + [report]) && report.at == |a.trace| && report.pass == |a.passes| - 1
    ensures Keeps(start, b, id)
    ensures AllLost(b.reports, |b.reports|, report.pass, report.after.failedRoots) && MadeFor(report.after, a.passes[|a.passes| - 1])
  {
    LatestPassIsOk(start, a, id);
    NewReportIsOk(a, b, report);
    ObservationFollows(start, a, b, id);
  }

  /** The moments to come are of the latest version and the latest pass. */
  lemma LatestPassRuns(start: Snap, a: Snap)
    requires Runs(start, a) && a.passes != []
    ensures a.versions != [] && a.versions[|a.versions| - 1].since <= |a.trace| && a.passes[|a.passes| - 1].taken < |a.trace|
  {
    RunsMeans(start, a);
    StartIsInOrder(a);
  }

  lemma LatestPassIsOk(start: Snap, a: Snap, id: string)
    requires Keeps(start, a, id) && a.passes != []
    ensures PassOk(a, |a.passes| - 1)
  {
    KeepsMeans(start, a, id);
    StartIsInOrder(a);
  }

  lemma NewReportIsOk(a: Snap, b: Snap, report: Report)
    requires a.passes != [] && PassOk(a, |a.passes| - 1) && MadeFor(report.before, a.passes[|a.passes| - 1])
    requires b == a.(reports := a.reports + [report]) && report.at == |a.trace| && report.pass == |a.passes| - 1
    requires Answers(report.before, report.after, report.source, report.target, report.result) && Sound(report.after)
    requires AllLost(a.reports, |a.reports|, report.pass, report.before.failedRoots)
    ensures ReportOk(b, |a.reports|) && MadeFor(report.after, a.passes[|a.passes| - 1])
    ensures AllLost(b.reports, |b.reports|, report.pass, report.after.failedRoots)
  {
    LossIsReported(a.reports, report);
  }

  /** This moment is one of the current pass, and of the current version. */
  predicate Recent(s: Snap, at: nat) {
    && s.versions != [] && s.versions[|s.versions| - 1].since <= at < |s.trace|
    && s.passes != [] && s.passes[|s.passes| - 1].taken <= at
  }

  /** Rebasing touches registered paths only. */
  lemma RebaseFollows(start: Snap, a: Snap, b: Snap, move: Move, at: nat)
    requires Runs(start, a) && Attempts(a, b, Rebase(move)) && Recent(a, at) && RootsMoved(a.trace[at], move)
    requires TwoBack(b, |a.versions|, move)
    ensures Runs(start, b) && IndexNow(b) == IndexNow(a).(links := IndexNow(b).links)
    ensures IndexNow(b) != IndexNow(a) ==> RebasedBy(b, |a.versions|, move)
  {
    RunsMeans(start, a);
    RunsMeans(start, b);
    RebaseIsJustified(a, b, move, at);
    InvWrites(a, b);
    FollowsOn(start, a, b);
  }

  lemma RebaseIsJustified(a: Snap, b: Snap, move: Move, at: nat)
    requires SnapInv(a) && Attempts(a, b, Rebase(move)) && Recent(a, at) && RootsMoved(a.trace[at], move)
    requires TwoBack(b, |a.versions|, move)
    ensures Justified(b, |a.versions|) && IndexNow(b) == IndexNow(a).(links := IndexNow(b).links)
    ensures IndexNow(b) != IndexNow(a) ==> RebasedBy(b, |a.versions|, move)
  {
    var v := |a.versions|;
    assert b.versions[v - 1] == a.versions[v - 1];
    assert IndexNow(b) == IndexNow(a).(links := IndexNow(b).links);
    assert Seen(b, v, at);
    assert IndexNow(b).links != IndexNow(a).links ==> RebasedBy(b, v, move);
    forall id ensures RecoveryJustified(b, v, id) && MarkJustified(b, v, id) && LinkJustified(b, v, id) {
    }
  }

  /** Confined changes to a path that held a link keep everything else. */
  lemma ConfinedIsKept(a: Snap, b: Snap, path: Parts, slot: nat)
    requires a.trace != [] && ConfinedSince(b.trace, |a.trace|, Last(a), path, slot, !a.busy)
    requires Project(path) in Last(a) && Last(a)[Project(path)].Symlink?
    ensures forall i: nat | |a.trace| <= i < |b.trace| :: KeptAt(a, b, i)
  {
    forall i: nat | |a.trace| <= i < |b.trace| ensures KeptAt(a, b, i) {
      assert SameApartFrom(Last(a), b.trace[i], slot);
    }
  }

  /** Retiring a link that was seen at the path. */
  lemma RetirementFollows(start: Snap, a: Snap, b: Snap, path: Parts, slot: nat, id: string)
    requires Keeps(start, a, id) && a.trace != [] && a.versions != [] && b == a.(trace := b.trace, destroyed := b.destroyed) && a.trace <= b.trace
    requires ConfinedSince(b.trace, |a.trace|, Last(a), path, slot, !a.busy)
    requires Project(path) in Last(a) && Last(a)[Project(path)].Symlink?
    requires b.destroyed == a.destroyed ||
      (|b.destroyed| == |a.destroyed| + 1 && a.destroyed <= b.destroyed && PointsTo(b.destroyed[|a.destroyed|], id))
    ensures Keeps(start, b, id)
  {
    ConfinedIsKept(a, b, path, slot);
    forall i: nat | |a.destroyed| <= i < |b.destroyed| ensures ExpendableAt(a, b, i) { }
    ObservationFollows(start, a, b, id);
  }

  // -------------------------------------------------------------- one record

  /** How the work on a record ended. */
  datatype Conclusion =
    | Problem            // an error, or something to wait for
    | Confirmed          // the registered link is there, and nothing is in doubt
    | Terminal           // in recovery, left alone
    | Doubted            // marked as orphaned
    | Deleted            // moved to trash
    | Vanished           // no longer in the index
    | Replaced           // marked as a conflict
    | Moved(path: Parts) // registered at a new path

  /** What a reported conclusion means for the index; one whose error the pass ignores may
      have failed to be recorded. */
  predicate Means(c: Conclusion, m: Index, id: string, faulty: bool) {
    match c
    case Problem => true
    case Terminal => ObjectKey(id) in m.recovery
    case Confirmed => MarkOf(m, ObjectKey(id)) == 0 && ObjectKey(id) !in m.recovery && ObjectKey(id) !in m.legacy
    case Doubted => !faulty && ObjectKey(id) in m.files ==> MarkOf(m, ObjectKey(id)) != 0
    case Deleted => InTrash(m, id)
    case Vanished => ObjectKey(id) !in m.files
    case Replaced => !faulty && ObjectKey(id) in m.files && LinkOf(m, ObjectKey(id)).Absolute? ==> InConflict(m, id)
    case Moved(path) => LinkOf(m, ObjectKey(id)) == Absolute(path) && MarkOf(m, ObjectKey(id)) == 0
  }

  predicate InTrash(m: Index, id: string) { ObjectKey(id) in m.recovery && m.recovery[ObjectKey(id)].state.Trash? }

  predicate InConflict(m: Index, id: string) { ObjectKey(id) in m.recovery && m.recovery[ObjectKey(id)].state.Conflict? }

  /** Completion `e` is one of the object, and its writes succeeded. */
  predicate Completes(s: Snap, e: nat, id: string) {
    e < |s.completions| && s.completions[e].id == id && s.completions[e].recorded
  }

  ghost predicate CompletedSince(a: Snap, b: Snap, id: string) {
    exists e: nat :: |a.completions| <= e && Completes(b, e, id)
  }

  /** What the conclusion on a record means after work that began at `a`: a confirmed object has
      completed the healthy branch, and one that moved was registered elsewhere. */
  ghost predicate Concluded(a: Snap, b: Snap, id: string, c: Conclusion, faulty: bool) {
    && Means(c, IndexNow(b), id, faulty)
    && (c.Confirmed? ==> CompletedSince(a, b, id))
    && (c.Moved? ==> LinkOf(IndexNow(a), ObjectKey(id)) != Absolute(c.path))
  }

  /** What follows from the answer of the search if it found no link. */
  function Verdict(found: FindResult, complete: bool): Conclusion {
    if found.NotFound? && complete then Deleted else Doubted
  }

  /** The search was asked once, and its answer decided. */
  predicate Judged(a: seq<Report>, b: seq<Report>, source: Parts, target: Target, before: Progress, after: Progress, c: Conclusion) {
    && |b| == |a| + 1
    && var report := b[|a|];
       && report.source == source && report.target == target && report.before == before && report.after == after
       && (!report.result.FoundAt? ==> c == Verdict(report.result, report.Complete()))
  }

  /** Nothing but the search can tell where the link of this object is. */
  predicate Searchable(m: Index, id: string) {
    var k := ObjectKey(id);
    k in m.files && k !in m.legacy && k !in m.recovery && LinkOf(m, k).Absolute?
  }

  /** Concluding that the link is missing changes no entry and takes no reference; a deleted object is
      no longer tracked, and one whose link is known is. */
  predicate Leaves(c: Conclusion, id: string, enabled: bool, was: Entries, now: Entries, held: set<string>, holds: set<string>) {
    match c
    case Doubted => now == was && holds <= held
    case Deleted => now == was && holds <= held - {id}
    case Vanished => id !in holds
    case Confirmed => enabled ==> id in holds
    case Moved(_) => enabled ==> id in holds
    case _ => true
  }

  /** What `inspectProtectedLink` saw. */
  datatype Look = Unreadable | Nothing | LinkTo(target: Target) | Something

  /** The look shows what is at the registered path; there is nothing at a relative one. */
  predicate Shows(look: Look, st: Entries, source: Location) {
    if source.Relative? then look.Nothing?
    else
      var e := At(st, Project(source.parts));
      match look
      case Unreadable => false
      case Nothing => e.None?
      case LinkTo(target) => e == Some(Symlink(target))
      case Something => e.Some? && !e.value.Symlink?
  }

  /** `targetMatchesStorage`, or the recorded legacy target. */
  predicate Ours(target: Target, id: string, m: Index) {
    (target.ByID? && target.id == id) || (ObjectKey(id) in m.legacy && m.legacy[ObjectKey(id)] == target)
  }

  /** Seeing a link of ours at the registered path is what the healthy branch asks for. */
  lemma ShownIsRegistered(look: Look, st: Entries, m: Index, memory: Index, id: string)
    requires Shows(look, st, LinkOf(m, ObjectKey(id))) && ViewOf(memory, id) == ViewOf(m, id)
    ensures look.LinkTo? && Ours(look.target, id, memory) <==> RegisteredLink(st, m, id)
    ensures look.Nothing? && LinkOf(m, ObjectKey(id)).Absolute? <==> RegisteredEmpty(st, m, id)
  {
  }

  /** The directory move, if any, that a link's way from one path to another suggests. */
  ghost predicate Suggested(move: Option<Move>, source: Location, path: Parts) {
    match move
    case Some(m) => source.Absolute? && Suggests(m, source.parts, path)
    case None => !(source.Absolute? && exists m :: Suggests(m, source.parts, path))
  }

  /** A link that moved is counted for the directory move it suggests. */
  ghost predicate Traced(c: Conclusion, move: Option<Move>, source: Location) {
    c.Moved? ==> Suggested(move, source, c.path)
  }

  /** At some moment after the first `n`, nothing was at the path. */
  ghost predicate Emptied(trace: seq<Entries>, n: nat, path: Parts) {
    exists i :: n <= i < |trace| && Project(path) !in trace[i]
  }

  /** At some moment after the first `n`, the object's link was not at the path. */
  ghost predicate LinkLeft(trace: seq<Entries>, n: nat, m: Index, id: string, path: Parts) {
    exists i :: n <= i < |trace| && !HoldsLink(trace[i], m, id, path)
  }

  datatype Case = Occupied | TooEarly | Overdue

  function DeletionCase(look: Look, mark: int, now: int): Case {
    if !look.Nothing? then Occupied else if mark == 0 || now - mark < DELETION_GRACE then TooEarly else Overdue
  }

  /** `find`, with the report of its answer. */
  method Consult(search: MovedLinkSearch, source: Parts, target: Target, ghost pass: nat, ghost at: nat)
    returns (r: FindResult, complete: bool, ghost report: Report)
    requires search.Valid()
    modifies search
    ensures search.Valid() && Answers(report.before, report.after, report.source, report.target, report.result)
    ensures report == Report(pass, source, target, r, old(search.State()), search.State(), at)
    ensures report.Complete() == complete && (r.FoundAt? ==> r.path != source)
  {
    r := search.Find(source, target);
    complete := search.comprehensive && search.indexed;
    report := Report(pass, source, target, r, old(search.State()), search.State(), at);
  }

  class LinkReconciler {
    const fs: FileSystem
    const tracker: Tracker
    const mount: Parts
    var clock: int
    ghost var versions: seq<Version>
    ghost var queries: seq<Query>
    ghost var reports: seq<Report>
    ghost var passes: seq<PassStart>
    ghost var completions: seq<Completion>

    constructor (fs: FileSystem, tracker: Tracker, mount: Parts, clock: int)
      requires fs.Valid() && clock > 0
      ensures this.fs == fs && this.tracker == tracker && this.mount == mount && this.clock == clock
      ensures versions == [Version(fs.index.stored, |fs.trace|, clock, 0)] && queries == [] && reports == [] && passes == [] && completions == []
      ensures Valid()
    {
      this.fs, this.tracker, this.mount, this.clock := fs, tracker, mount, clock;
      versions := [Version(fs.index.stored, |fs.trace|, clock, 0)];
      queries, reports, passes, completions := [], [], [], [];
    }

    ghost function Now(): Snap
      reads this, fs, fs.index
    {
      Snap(mount, fs.busy, fs.trace, fs.destroyed, versions, fs.index.memory, queries, reports, passes, completions, clock)
    }

    /** The disk is in order, and the last version is the stored index. */
    ghost predicate Current()
      reads this, fs, fs.index
    {
      fs.Valid() && versions != [] && versions[|versions| - 1].index == fs.index.stored && clock > 0
    }

    ghost predicate Valid()
      reads this, fs, fs.index
    {
      Current() && SnapInv(Now())
    }

    /** Somewhere in the work on one object, which began at `start`. */
    ghost predicate During(start: Snap, id: string)
      reads this, fs, fs.index
    {
      Current() && Keeps(start, Now(), id)
    }

    /** Nothing was concluded yet, and the volume's copy is current about the object. */
    ghost predicate Undecided(start: Snap, id: string)
      reads this, fs, fs.index
    {
      && During(start, id) && Agrees(start, id) && versions == start.versions && fs.index.memory == start.memory
      && passes == start.passes != [] && completions == start.completions && start.trace <= fs.trace
    }

    /** `time.Now`. */
    method ReadClock(id: string, ghost start: Snap) returns (now: int)
      requires Undecided(start, id)
      modifies this`clock
      ensures Undecided(start, id) && now == clock >= old(clock)
    {
      now := *;
      if now < clock { now := clock; }
      clock := now;
      ObservationFollows(start, old(Now()), Now(), id);
    }

    /** `inspectProtectedLink`. */
    method LookAt(path: Parts, id: string, ghost start: Snap) returns (look: Look, ghost at: nat)
      requires Undecided(start, id)
      modifies fs`entries, fs`trace, fs`syncs, fs`next, fs`foreign
      ensures Undecided(start, id) && |start.trace| <= at < |fs.trace| && fs.entries == fs.trace[at]
      ensures old(fs.trace) <= fs.trace && |old(fs.trace)| <= at && (!fs.busy ==> fs.entries == old(fs.entries))
      ensures match look
              case Unreadable => fs.projectFaulty
              case Nothing => Project(path) !in fs.trace[at]
              case LinkTo(target) => At(fs.trace[at], Project(path)) == Some(Symlink(target))
              case Something => Project(path) in fs.trace[at] && !fs.trace[at][Project(path)].Symlink?
    {
      fs.Interfere();
      at := |fs.trace| - 1;
      ObservationFollows(start, old(Now()), Now(), id);
      var unreadable := fs.Fault(Project(path));
      if unreadable { return Unreadable, at; }
      if Project(path) !in fs.entries { return Nothing, at; }
      var entry := fs.entries[Project(path)];
      look := if entry.Symlink? then LinkTo(entry.target) else Something;
    }

    /** `replaceProtectedLink`: only the link that was seen is replaced. */
    method ReplaceLink(path: Parts, expected: Target, id: string, ghost start: Snap) returns (ok: bool)
      requires Undecided(start, id) && OurLink(Symlink(expected), fs.index.stored)
      requires At(fs.entries, Project(path)) == Some(Symlink(expected))
      modifies fs`entries, fs`trace, fs`syncs, fs`next, fs`foreign, fs`destroyed
      ensures Undecided(start, id) && old(fs.trace) <= fs.trace
      ensures !fs.busy && ok ==> At(fs.entries, Project(path)) == Some(Symlink(ByID(mount, id)))
      ensures !fs.busy && !fs.projectFaulty ==> ok
    {
      var result, slot;
      ghost var displaced, late;
      result, slot, displaced, late := ExchangePathWithSymlink(fs, path, ByID(mount, id), ExpectLink(expected));
      ok := result.Installed?;
      ghost var a, b := old(Now()), Now();
      ConfinedIsKept(a, b, path, slot);
      ReplacementIsExpendable(a, b, path, id, expected, displaced, late);
      ObservationFollows(start, a, b, id);
    }

    lemma ReplacementIsExpendable(a: Snap, b: Snap, path: Parts, id: string, expected: Target, displaced: Option<Entry>, late: Option<Entry>)
      requires a.versions != [] && OurLink(Symlink(expected), IndexNow(a)) && a.destroyed <= b.destroyed && |b.destroyed| <= |a.destroyed| + 1
      requires late.Some? ==> SwappedOut(b.trace, |a.trace|, Project(path), displaced, Symlink(ByID(a.mount, id)), late)
      requires late.Some? && !a.busy ==> late == Some(Symlink(ByID(a.mount, id)))
      requires |b.destroyed| == |a.destroyed| + 1 ==>
        b.destroyed[|a.destroyed|] == Symlink(ByID(a.mount, id)) || b.destroyed[|a.destroyed|] == Symlink(expected)
        || Some(b.destroyed[|a.destroyed|]) == late
      ensures forall i: nat | |a.destroyed| <= i < |b.destroyed| :: ExpendableAt(a, b, i)
    {
    }

    /** `retireProtectedLink`. */
    method RetireLink(path: Parts, id: string, ghost start: Snap) returns (ok: bool)
      requires Undecided(start, id) && Project(path) in fs.entries && fs.entries[Project(path)].Symlink?
      modifies fs`entries, fs`trace, fs`syncs, fs`next, fs`foreign, fs`destroyed
      ensures Undecided(start, id) && old(fs.trace) <= fs.trace
      ensures ok ==> Emptied(fs.trace, |old(fs.trace)|, path) && (!fs.busy ==> Project(path) !in fs.entries)
      ensures !fs.busy && !fs.projectFaulty && PointsTo(old(fs.entries)[Project(path)], id) ==> ok
    {
      var result, slot;
      ghost var moved;
      result, slot, moved := RetireProtectedLink(fs, path, id);
      ok := result.Retired? || result.Absent?;
      RetirementFollows(start, old(Now()), Now(), path, slot, id);
    }

    /** `updateMetadataLocked`, which may take effect even if it fails. */
    method Attempt(op: Operation) returns (ok: bool)
      requires Current()
      modifies this`versions, fs.index`stored, fs.index`memory
      ensures Attempts(old(Now()), Now(), op) && Current()
      ensures ok ==> Apply(old(fs.index.stored), op) == Some(fs.index.stored)
      ensures !fs.index.faulty ==> (ok <==> Apply(old(fs.index.stored), op).Some?)
    {
      ok := fs.index.Update(op);
      versions := versions + [Version(fs.index.stored, |fs.trace|, clock, |passes|)];
    }

    /** `markLinkOrphan`. */
    method MarkLinkOrphan(id: string, ghost start: Snap)
      requires Undecided(start, id)
      modifies this`versions, this`clock, fs.index`stored, fs.index`memory
      ensures During(start, id) && clock >= old(clock)
      ensures Means(Doubted, fs.index.stored, id, fs.index.faulty)
    {
      if MarkOf(fs.index.memory, ObjectKey(id)) != 0 { return; }
      var now := ReadClock(id, start);
      RecordOrphan(id, now, start);
    }

    method RecordOrphan(id: string, now: int, ghost start: Snap)
      requires Undecided(start, id) && now == clock
      modifies this`versions, fs.index`stored, fs.index`memory
      ensures During(start, id)
      ensures Means(Doubted, fs.index.stored, id, fs.index.faulty)
    {
      var ok := Attempt(MarkOrphan(ObjectKey(id), now));
      OrphanFollows(start, old(Now()), Now(), id);
    }

    /** `markLinkRecovery` with a conflict. */
    method MarkConflict(id: string, reason: string, ghost start: Snap) returns (ok: bool)
      requires Undecided(start, id) && RecoveryOf(IndexNow(start), id).None?
      modifies this`versions, this`clock, fs.index`stored, fs.index`memory
      ensures During(start, id) && clock >= old(clock)
      ensures !fs.index.faulty && ObjectKey(id) in IndexNow(start).files && LinkOf(IndexNow(start), ObjectKey(id)).Absolute? ==> ok
      ensures Means(Replaced, fs.index.stored, id, fs.index.faulty)
    {
      var now := ReadClock(id, start);
      ok := RecordConflict(id, reason, now, start);
    }

    method RecordConflict(id: string, reason: string, now: int, ghost start: Snap) returns (ok: bool)
      requires Undecided(start, id) && RecoveryOf(IndexNow(start), id).None? && now == clock
      modifies this`versions, fs.index`stored, fs.index`memory
      ensures During(start, id)
      ensures Means(Replaced, fs.index.stored, id, fs.index.faulty)
      ensures !fs.index.faulty && ObjectKey(id) in IndexNow(start).files && LinkOf(IndexNow(start), ObjectKey(id)).Absolute? ==> ok
    {
      ok := Attempt(MarkRecovery(ObjectKey(id), Conflict, reason, now));
      ConflictFollows(start, old(Now()), Now(), id, reason);
    }

    /** `setLinkSource`. */
    method SetSource(id: string, path: Parts, ghost seen: nat, ghost at: nat, ghost start: Snap) returns (ok: bool)
      requires Undecided(start, id) && RecoveryOf(IndexNow(start), id).None? && LeftBehind(start, Now(), id, seen)
      requires |start.trace| <= at < |fs.trace| && HoldsLink(fs.trace[at], IndexNow(start), id, path)
      modifies this`versions, fs.index`stored, fs.index`memory
      ensures During(start, id)
      ensures forall move | LinkOf(IndexNow(start), ObjectKey(id)).Absolute? && Suggests(move, LinkOf(IndexNow(start), ObjectKey(id)).parts, path) ::
        Backs(Now(), |start.versions|, |passes|, id, move)
      ensures ok ==> Means(Moved(path), fs.index.stored, id, fs.index.faulty)
      ensures !fs.index.faulty && ObjectKey(id) in IndexNow(start).files ==> ok
    {
      ok := Attempt(SetLinkSource(ObjectKey(id), path));
      SourceFollows(start, old(Now()), Now(), id, path, seen, at);
      forall move | LinkOf(IndexNow(start), ObjectKey(id)).Absolute? && Suggests(move, LinkOf(IndexNow(start), ObjectKey(id)).parts, path)
        ensures Backs(Now(), |start.versions|, |passes|, id, move) {
        MoveIsBacked(start, Now(), id, path, move);
      }
    }

    /** `markLinkRecovery` with deletion, which takes evidence.  That the object is no longer
        indexed is not an error. */
    method MoveToTrash(id: string, now: int, ghost at: nat, ghost q: nat, ghost r: Option<nat>, ghost start: Snap) returns (c: Conclusion)
      requires Undecided(start, id) && RecoveryOf(IndexNow(start), id).None? && now == clock
      requires LinkOf(IndexNow(start), ObjectKey(id)).Absolute? ==> Entitled(start, Now(), id, at, q, r)
      modifies this`versions, fs.index`stored, fs.index`memory
      ensures During(start, id) && Means(c, fs.index.stored, id, fs.index.faulty)
      ensures c.Deleted? || c.Problem? || c.Vanished?
      ensures !fs.index.faulty && ObjectKey(id) in IndexNow(start).files && LinkOf(IndexNow(start), ObjectKey(id)).Absolute? ==> c.Deleted?
    {
      var reason := "protected link was deleted";
      var ok := Attempt(MarkRecovery(ObjectKey(id), Trash, reason, now));
      TrashFollows(start, old(Now()), Now(), id, reason, at, q, r);
      c := if ok then Deleted else if ObjectKey(id) !in fs.index.stored.files then Vanished else Problem;
    }

    /** `clearLinkOrphan` at the end of the healthy branch. */
    method ClearLinkOrphan(id: string, ghost at: nat, ghost start: Snap) returns (ok: bool)
      requires Undecided(start, id)
      requires |start.trace| <= at < |fs.trace| && RegisteredLink(fs.trace[at], IndexNow(start), id)
      modifies this`versions, this`completions, fs.index`stored, fs.index`memory
      ensures During(start, id)
      ensures |completions| == |start.completions| + 1 && (ok ==> Completes(Now(), |start.completions|, id))
      ensures ok ==> Means(Confirmed, fs.index.stored, id, fs.index.faulty)
      ensures !fs.index.faulty ==> ok
    {
      var m, key := fs.index.memory, ObjectKey(id);
      ok := true;
      if !(MarkOf(m, key) == 0 && key !in m.legacy && key !in m.recovery) {
        ok := RecordClear(id, at, start);
      }
      LogCompletion(id, at, ok, start);
    }

    method RecordClear(id: string, ghost at: nat, ghost start: Snap) returns (ok: bool)
      requires Undecided(start, id)
      requires |start.trace| <= at < |fs.trace| && RegisteredLink(fs.trace[at], IndexNow(start), id)
      modifies this`versions, fs.index`stored, fs.index`memory
      ensures During(start, id) && |versions| == |start.versions| + 1
      ensures ok ==> Means(Confirmed, fs.index.stored, id, fs.index.faulty)
      ensures !fs.index.faulty ==> ok
    {
      ok := Attempt(ClearOrphan(ObjectKey(id)));
      ClearFollows(start, old(Now()), Now(), id, at);
    }

    ghost method LogCompletion(id: string, at: nat, recorded: bool, start: Snap)
      requires During(start, id) && |start.trace| <= at < |fs.trace| && completions == start.completions
      requires 0 < |start.versions| <= |versions|
      requires RegisteredLink(fs.trace[at], IndexNow(start), id)
      requires recorded ==> Means(Confirmed, fs.index.stored, id, fs.index.faulty)
      modifies this`completions
      ensures During(start, id)
      ensures completions == start.completions + [Completion(id, at, |start.versions| - 1, |versions| - 1, recorded)]
    {
      ghost var done := Completion(id, at, |start.versions| - 1, |versions| - 1, recorded);
      completions := completions + [done];
      CompletionFollows(start, old(Now()), Now(), id, done);
    }

    // ------------------------------------------------------------ the branches

    /** The registered path is a link to the object: bring its target up to date, track it, and
        clear every doubt. */
    method KeepHealthy(id: string, path: Parts, target: Target, ghost at: nat, ghost start: Snap) returns (c: Conclusion)
      requires Undecided(start, id) && LinkOf(IndexNow(start), ObjectKey(id)) == Absolute(path)
      requires |start.trace| <= at < |fs.trace| && RegisteredLink(fs.trace[at], IndexNow(start), id)
      requires fs.trace[at] == fs.entries && fs.entries[Project(path)] == Symlink(target)
      modifies this`versions, this`completions, fs`entries, fs`trace, fs`syncs, fs`next, fs`foreign, fs`destroyed,
               fs.index`stored, fs.index`memory, tracker`references
      ensures During(start, id) && Means(c, fs.index.stored, id, fs.index.faulty)
      ensures c.Confirmed? || c.Problem?
      ensures c.Confirmed? ==> |completions| == |start.completions| + 1 && Completes(Now(), |start.completions|, id)
      ensures !fs.busy && c.Confirmed? ==> At(fs.entries, Project(path)) == Some(Symlink(ByID(mount, id)))
      ensures c.Confirmed? && tracker.enabled ==> id in tracker.references
      ensures !fs.busy && !fs.projectFaulty && !fs.index.faulty && !tracker.enabled ==> c.Confirmed?
    {
      if target != ByID(mount, id) {
        var ok := ReplaceLink(path, target, id, start);
        if !ok { return Problem; }
      }
      var tracked := tracker.Ensure(id, path);
      if !tracked { return Problem; }
      var cleared := ClearLinkOrphan(id, at, start);
      c := if cleared then Confirmed else Problem;
    }

    /** A tracked link whose last name is gone: wait out the grace period, then it was deleted. */
    method GoneFromKernel(id: string, look: Look, ghost at: nat, ghost q: nat, ghost start: Snap) returns (c: Conclusion, now: int)
      requires Undecided(start, id) && RecoveryOf(IndexNow(start), id).None?
      requires |start.trace| <= at < |fs.trace| && q < |queries| && |start.trace| <= queries[q].at <= |fs.trace|
      requires queries[q].id == id && queries[q].state.Tracked? && !queries[q].state.linked
      requires look.Nothing? && LinkOf(IndexNow(start), ObjectKey(id)).Absolute? ==> RegisteredEmpty(fs.trace[at], IndexNow(start), id)
      modifies this`versions, this`clock, fs.index`stored, fs.index`memory, tracker`references
      ensures During(start, id) && Means(c, fs.index.stored, id, fs.index.faulty) && old(clock) <= now <= clock
      ensures match DeletionCase(look, MarkOf(IndexNow(start), ObjectKey(id)), now)
              case Occupied => c.Replaced?
              case TooEarly => c.Doubted?
              case Overdue => c.Deleted? || c.Vanished? || c.Problem?
      ensures Leaves(c, id, tracker.enabled, fs.entries, fs.entries, old(tracker.references), tracker.references)
    {
      now := ReadClock(id, start);
      if !look.Nothing? {
        var marked := MarkConflict(id, "protected pathname was replaced", start);
        return Replaced, now;
      }
      c := JudgeGone(id, now, at, q, start);
    }

    method JudgeGone(id: string, now: int, ghost at: nat, ghost q: nat, ghost start: Snap) returns (c: Conclusion)
      requires Undecided(start, id) && RecoveryOf(IndexNow(start), id).None? && now == clock
      requires |start.trace| <= at < |fs.trace| && q < |queries| && |start.trace| <= queries[q].at <= |fs.trace|
      requires queries[q].id == id && queries[q].state.Tracked? && !queries[q].state.linked
      requires LinkOf(IndexNow(start), ObjectKey(id)).Absolute? ==> RegisteredEmpty(fs.trace[at], IndexNow(start), id)
      modifies this`versions, this`clock, fs.index`stored, fs.index`memory, tracker`references
      ensures During(start, id) && Means(c, fs.index.stored, id, fs.index.faulty) && now <= clock
      ensures match DeletionCase(Nothing, MarkOf(IndexNow(start), ObjectKey(id)), now)
              case Occupied => true
              case TooEarly => c.Doubted?
              case Overdue => c.Deleted? || c.Vanished? || c.Problem?
      ensures Leaves(c, id, tracker.enabled, fs.entries, fs.entries, old(tracker.references), tracker.references)
    {
      var mark := MarkOf(fs.index.memory, ObjectKey(id));
      if mark == 0 || now - mark < DELETION_GRACE {
        MarkLinkOrphan(id, start);
        return Doubted;
      }
      c := MoveToTrash(id, now, at, q, None, start);
      if !c.Problem? { tracker.Forget(id); }
    }

    /** The link turned up at another path, and is registered there if it is one and the registered path
        was empty. */
    method Relocate(id: string, source: Location, occupied: bool, path: Parts, ghost seen: nat, ghost start: Snap)
      returns (c: Conclusion, move: Option<Move>)
      requires Undecided(start, id) && RecoveryOf(IndexNow(start), id).None? && source == LinkOf(IndexNow(start), ObjectKey(id))
      requires !occupied ==> LeftBehind(start, Now(), id, seen)
      modifies this`versions, this`clock, fs`entries, fs`trace, fs`syncs, fs`next, fs`foreign, fs`destroyed,
               fs.index`stored, fs.index`memory, tracker`references
      ensures During(start, id) && Means(c, fs.index.stored, id, fs.index.faulty)
      ensures c.Problem? || c.Replaced? || (c == Moved(path) && !occupied)
      ensures c.Moved? && tracker.enabled ==> id in tracker.references
      ensures c.Replaced? ==> LinkLeft(fs.trace, |old(fs.trace)|, IndexNow(start), id, path)
      ensures !fs.busy && c.Replaced? ==> !HoldsLink(fs.entries, IndexNow(start), id, path)
      ensures occupied && source.Absolute? && QuietLink(old(fs.entries), path, ByID(mount, id))
              && ObjectKey(id) in IndexNow(start).files ==>
        c.Replaced?
      ensures (move.Some? ==> Backs(Now(), |start.versions|, |passes|, id, move.value)) && Traced(c, move, source)
      ensures !occupied && QuietLink(old(fs.entries), path, ByID(mount, id)) && ObjectKey(id) in IndexNow(start).files ==> c == Moved(path)
    {
      move := None;
      var look;
      ghost var at;
      look, at := LookAt(path, id, start);
      if look.Unreadable? { return Problem, None; }
      if !look.LinkTo? || !Ours(look.target, id, fs.index.memory) {
        var marked := MarkConflict(id, "moved protected link changed target", start);
        return Replaced, None;
      }
      assert HoldsLink(fs.trace[at], IndexNow(start), id, path);
      if occupied {
        c := RetireDisplaced(id, path, start);
        return;
      }
      c, move := Reregister(id, source, path, look.target, seen, at, start);
    }

    /** An atomic save moved the link aside and took its name: that is a conflict, not a move, and
        the displaced link goes. */
    method RetireDisplaced(id: string, path: Parts, ghost start: Snap) returns (c: Conclusion)
      requires Undecided(start, id) && RecoveryOf(IndexNow(start), id).None?
      requires Project(path) in fs.entries && fs.entries[Project(path)].Symlink?
      modifies this`versions, this`clock, fs`entries, fs`trace, fs`syncs, fs`next, fs`foreign, fs`destroyed,
               fs.index`stored, fs.index`memory, tracker`references
      ensures During(start, id) && Means(c, fs.index.stored, id, fs.index.faulty)
      ensures c.Problem? || c.Replaced?
      ensures c.Replaced? ==> Emptied(fs.trace, |old(fs.trace)|, path) && (!fs.busy ==> Project(path) !in fs.entries)
      ensures c.Replaced? ==> id !in tracker.references
      ensures old(fs.trace) <= fs.trace
      ensures LinkOf(IndexNow(start), ObjectKey(id)).Absolute? && QuietLink(old(fs.entries), path, ByID(mount, id))
              && ObjectKey(id) in IndexNow(start).files ==>
        c.Replaced?
    {
      var retired := RetireLink(path, id, start);
      if !retired { return Problem; }
      var marked := MarkConflict(id, "atomic save replaced the protected pathname", start);
      if !marked { return Problem; }
      tracker.Forget(id);
      c := Replaced;
    }

    /** The new path becomes the registered one. */
    method Reregister(id: string, source: Location, path: Parts, target: Target, ghost seen: nat, ghost at: nat, ghost start: Snap)
      returns (c: Conclusion, move: Option<Move>)
      requires Undecided(start, id) && RecoveryOf(IndexNow(start), id).None? && Ours(target, id, fs.index.memory)
      requires At(fs.entries, Project(path)) == Some(Symlink(target))
      requires source == LinkOf(IndexNow(start), ObjectKey(id)) && LeftBehind(start, Now(), id, seen)
      requires |start.trace| <= at < |fs.trace| && HoldsLink(fs.trace[at], IndexNow(start), id, path)
      modifies this`versions, fs`entries, fs`trace, fs`syncs, fs`next, fs`foreign, fs`destroyed,
               fs.index`stored, fs.index`memory, tracker`references
      ensures During(start, id) && Means(c, fs.index.stored, id, fs.index.faulty)
      ensures c.Problem? || c == Moved(path)
      ensures c.Moved? && tracker.enabled ==> id in tracker.references
      ensures (move.Some? ==> Backs(Now(), |start.versions|, |passes|, id, move.value)) && Traced(c, move, source)
      ensures QuietLink(old(fs.entries), path, target) && ObjectKey(id) in IndexNow(start).files ==> c == Moved(path)
    {
      move := None;
      if target != ByID(mount, id) {
        var ok := ReplaceLink(path, target, id, start);
        if !ok { return Problem, None; }
      }
      move := InferDirectoryMove(source, Absolute(path));
      var recorded := SetSource(id, path, seen, at, start);
      if !recorded { return Problem, move; }
      tracker.Forget(id);
      var tracked := tracker.Ensure(id, path);
      c := if tracked then Moved(path) else Problem;
    }

    /** Nothing interferes or fails, and the link is there. */
    ghost predicate QuietLink(st: Entries, path: Parts, target: Target) {
      !fs.busy && !fs.projectFaulty && !fs.index.faulty && !tracker.enabled && At(st, Project(path)) == Some(Symlink(target))
    }

    // --------------------------------------------------------------- the search

    /** The search belongs to the current pass, and the roots it lost are those that were reported. */
    ghost predicate ForPass(search: MovedLinkSearch)
      reads this`passes, this`reports, search
    {
      && passes != [] && MadeFor(search.State(), passes[|passes| - 1])
      && AllLost(reports, |reports|, |passes| - 1, search.failedRoots)
    }

    /** In the middle of a pass, with its search. */
    ghost predicate Searching(search: MovedLinkSearch, start: Snap)
      reads this, fs, fs.index, search
    {
      match passes == []
      case true => false
      case false => Current() && Runs(start, Now()) && search.Valid() && ForPass(search)
    }

    /** One question to the search, which is logged with its answer. */
    method Search(search: MovedLinkSearch, id: string, source: Parts, target: Target, ghost start: Snap)
      returns (r: FindResult, complete: bool, ghost report: Report)
      requires Undecided(start, id) && search.Valid() && ForPass(search)
      modifies this`reports, search
      ensures Undecided(start, id) && search.Valid() && ForPass(search)
      ensures reports == old(reports) + [report] && report.result == r && report.Complete() == complete
      ensures report.pass == |passes| - 1 && report.at == |fs.trace| && report.source == source && report.target == target
      ensures report.before == old(search.State()) && report.after == search.State()
      ensures r.FoundAt? ==> r.path != source
    {
      r, complete, report := Consult(search, source, target, |passes| - 1, |fs.trace|);
      LogReport(id, report, start);
    }

    ghost method LogReport(id: string, report: Report, start: Snap)
      requires Undecided(start, id) && report.at == |fs.trace| && report.pass == |passes| - 1
      requires Genuine(report, passes[|passes| - 1], reports)
      modifies this`reports
      ensures Undecided(start, id) && reports == old(reports) + [report]
      ensures MadeFor(report.after, passes[|passes| - 1]) && AllLost(reports, |reports|, |passes| - 1, report.after.failedRoots)
    {
      reports := reports + [report];
      ReportFollows(start, old(Now()), Now(), id, report);
    }

    /** A report of this moment. */
    ghost predicate IsReport(report: Report, source: Parts, id: string, found: FindResult, complete: bool)
      reads this`passes, fs`trace
    {
      && report.pass == |passes| - 1 && report.at == |fs.trace| && report.source == source && report.target == ByID(mount, id)
      && report.result == found && complete == report.Complete()
    }

    /** Nothing was found at the registered path, and the kernel does not track the object. */
    method Locate(search: MovedLinkSearch, id: string, source: Location, look: Look, ghost at: nat, ghost q: nat, ghost start: Snap)
      returns (c: Conclusion, move: Option<Move>)
      requires Undecided(start, id) && search.Valid() && ForPass(search) && RecoveryOf(IndexNow(start), id).None?
      requires |start.trace| <= at < |fs.trace| && source == LinkOf(IndexNow(start), ObjectKey(id))
      requires q < |queries| && |start.trace| <= queries[q].at <= |fs.trace|
      requires queries[q].id == id && queries[q].state.Untracked? && id !in queries[q].references
      requires look.Nothing? && source.Absolute? ==> RegisteredEmpty(fs.trace[at], IndexNow(start), id)
      modifies this`versions, this`clock, this`reports, fs`entries, fs`trace, fs`syncs, fs`next, fs`foreign, fs`destroyed,
               fs.index`stored, fs.index`memory, tracker`references, search
      ensures During(start, id) && Means(c, fs.index.stored, id, fs.index.faulty) && !c.Terminal?
      ensures search.Valid() && ForPass(search)
      ensures (c.Moved? ==> source != Absolute(c.path)) && !c.Confirmed?
      ensures Leaves(c, id, tracker.enabled, old(fs.entries), fs.entries, old(tracker.references), tracker.references)
      ensures look.Nothing? && Searchable(IndexNow(start), id) && !fs.index.faulty ==>
        Judged(old(reports), reports, source.parts, ByID(mount, id), old(search.State()), search.State(), c)
      ensures (move.Some? ==> Backs(Now(), |start.versions|, |passes|, id, move.value)) && Traced(c, move, source)
    {
      move := None;
      var found, complete;
      ghost var r;
      found, complete, r := FindMoved(search, id, source.parts, start);
      c, move := ActOnSearch(id, source, look, found, complete, at, q, r, start);
    }

    /** The search: first for the object's current target, then for its legacy target. */
    method FindMoved(search: MovedLinkSearch, id: string, source: Parts, ghost start: Snap)
      returns (found: FindResult, complete: bool, ghost r: nat)
      requires Undecided(start, id) && search.Valid() && ForPass(search)
      modifies this`reports, search
      ensures Undecided(start, id) && search.Valid() && ForPass(search) && r < |reports|
      ensures found.FoundAt? ==> found.path != source
      ensures ObjectKey(id) !in fs.index.memory.legacy ==>
        && r == |old(reports)| && |reports| == r + 1 && IsReport(reports[r], source, id, found, complete)
        && reports[r].before == old(search.State()) && reports[r].after == search.State()
      ensures ObjectKey(id) in fs.index.memory.legacy && found.NotFound? ==>
        && |reports| == |old(reports)| + 2 && old(reports) <= reports
        && (var first := reports[|old(reports)|]; first.source == source && first.target == ByID(mount, id) && first.result.NotFound?)
        && (var second := reports[|old(reports)| + 1];
            second.source == source && second.target == fs.index.memory.legacy[ObjectKey(id)] && second.result.NotFound?)
    {
      var key := ObjectKey(id);
      ghost var report;
      found, complete, report := Search(search, id, source, ByID(mount, id), start);
      r := |reports| - 1;
      if found.NotFound? && key in fs.index.memory.legacy {
        found, complete, report := Search(search, id, source, fs.index.memory.legacy[key], start);
      }
    }

    method ActOnSearch(id: string, source: Location, look: Look, found: FindResult, complete: bool,
                       ghost at: nat, ghost q: nat, ghost r: nat, ghost start: Snap)
      returns (c: Conclusion, move: Option<Move>)
      requires Undecided(start, id) && RecoveryOf(IndexNow(start), id).None?
      requires |start.trace| <= at < |fs.trace| && source == LinkOf(IndexNow(start), ObjectKey(id))
      requires q < |queries| && |start.trace| <= queries[q].at <= |fs.trace| && queries[q].id == id && queries[q].state.Untracked? && id !in queries[q].references
      requires look.Nothing? && source.Absolute? ==> RegisteredEmpty(fs.trace[at], IndexNow(start), id)
      requires found.NotFound? && ObjectKey(id) !in fs.index.memory.legacy ==>
        r < |reports| && IsReport(reports[r], source.parts, id, NotFound, complete)
      modifies this`versions, this`clock, fs`entries, fs`trace, fs`syncs, fs`next, fs`foreign, fs`destroyed,
               fs.index`stored, fs.index`memory, tracker`references
      ensures During(start, id) && Means(c, fs.index.stored, id, fs.index.faulty) && !c.Terminal?
      ensures found.Ambiguous? || found.SearchFailed? ==> c.Doubted?
      ensures c.Moved? ==> found.FoundAt? && c.path == found.path && look.Nothing?
      ensures found.FoundAt? && QuietLink(old(fs.entries), found.path, ByID(mount, id)) && ObjectKey(id) in IndexNow(start).files ==>
        if look.Nothing? then c == Moved(found.path) else source.Absolute? ==> c.Replaced?
      ensures c.Deleted? ==> found.NotFound? && complete && look.Nothing?
      ensures !c.Confirmed?
      ensures Leaves(c, id, tracker.enabled, old(fs.entries), fs.entries, old(tracker.references), tracker.references)
      ensures look.Nothing? && Searchable(IndexNow(start), id) && !fs.index.faulty && !found.FoundAt? ==> c == Verdict(found, complete)
      ensures (move.Some? ==> Backs(Now(), |start.versions|, |passes|, id, move.value)) && Traced(c, move, source)
    {
      move := None;
      if found.Ambiguous? || found.SearchFailed? {
        MarkLinkOrphan(id, start);
        return Doubted, None;
      }
      if found.FoundAt? {
        c, move := Relocate(id, source, !look.Nothing?, found.path, at, start);
        return;
      }
      c := ConcludeMissing(id, source, look, complete, at, q, r, start);
    }

    /** Nothing was found: a conflict, a doubt, or, after a complete search, a deletion. */
    method ConcludeMissing(id: string, source: Location, look: Look, complete: bool, ghost at: nat, ghost q: nat, ghost r: nat, ghost start: Snap)
      returns (c: Conclusion)
      requires Undecided(start, id) && RecoveryOf(IndexNow(start), id).None?
      requires |start.trace| <= at < |fs.trace| && source == LinkOf(IndexNow(start), ObjectKey(id))
      requires q < |queries| && |start.trace| <= queries[q].at <= |fs.trace|
      requires queries[q].id == id && queries[q].state.Untracked? && id !in queries[q].references
      requires look.Nothing? && source.Absolute? ==> RegisteredEmpty(fs.trace[at], IndexNow(start), id)
      requires ObjectKey(id) !in fs.index.memory.legacy ==>
        r < |reports| && IsReport(reports[r], source.parts, id, NotFound, complete)
      modifies this`versions, this`clock, fs.index`stored, fs.index`memory, tracker`references
      ensures During(start, id) && Means(c, fs.index.stored, id, fs.index.faulty)
      ensures !c.Terminal? && !c.Moved? && !c.Confirmed? && (c.Replaced? <==> !look.Nothing?)
      ensures c.Deleted? ==> complete
      ensures look.Nothing? && source.Relative? && MarkOf(IndexNow(start), ObjectKey(id)) != 0
              && clock - MarkOf(IndexNow(start), ObjectKey(id)) < 30_000_000_000 ==>
        c.Problem? && fs.index.stored == old(fs.index.stored)
      ensures look.Nothing? && ObjectKey(id) in IndexNow(start).legacy ==> c.Problem? && fs.index.stored == old(fs.index.stored)
      ensures Leaves(c, id, tracker.enabled, fs.entries, fs.entries, old(tracker.references), tracker.references)
      ensures look.Nothing? && source.Absolute? && ObjectKey(id) !in IndexNow(start).legacy ==>
        if complete
        then c.Deleted? || (!c.Doubted? && (fs.index.faulty || ObjectKey(id) !in IndexNow(start).files))
        else c.Doubted?
    {
      var key, m := ObjectKey(id), fs.index.memory;
      if !look.Nothing? {
        var marked := MarkConflict(id, "protected pathname was replaced", start);
        return Replaced;
      }
      var now := ReadClock(id, start);
      var mark := MarkOf(m, key);
      if source.Relative? && mark != 0 && now - mark < REGISTRATION_GRACE { return Problem; }
      if key in m.legacy { return Problem; }
      c := ConcludeLost(id, complete, now, at, q, r, start);
    }

    method ConcludeLost(id: string, complete: bool, now: int, ghost at: nat, ghost q: nat, ghost r: nat, ghost start: Snap)
      returns (c: Conclusion)
      requires Undecided(start, id) && RecoveryOf(IndexNow(start), id).None? && now == clock
      requires LinkOf(IndexNow(start), ObjectKey(id)).Absolute? && complete ==> Entitled(start, Now(), id, at, q, Some(r))
      modifies this`versions, this`clock, fs.index`stored, fs.index`memory, tracker`references
      ensures During(start, id) && Means(c, fs.index.stored, id, fs.index.faulty)
      ensures now <= clock && if complete then c.Deleted? || c.Vanished? || c.Problem? else c.Doubted?
      ensures Leaves(c, id, tracker.enabled, fs.entries, fs.entries, old(tracker.references), tracker.references)
      ensures complete && LinkOf(IndexNow(start), ObjectKey(id)).Absolute? && !fs.index.faulty && ObjectKey(id) in IndexNow(start).files
        ==> c.Deleted?
    {
      if !complete {
        MarkLinkOrphan(id, start);
        return Doubted;
      }
      c := MoveToTrash(id, now, at, q, Some(r), start);
      if !c.Problem? { tracker.Forget(id); }
    }

    // ----------------------------------------------------------- whole records

    /** `state` of the tracker, which is logged with its answer. */
    method AskKernel(id: string, ghost start: Snap) returns (state: TrackState)
      requires Undecided(start, id)
      modifies this`queries
      ensures Undecided(start, id) && (state.Untracked? <==> id !in tracker.references)
      ensures queries == old(queries) + [Query(id, state, tracker.references, |fs.trace|)]
    {
      state := tracker.State(id);
      queries := queries + [Query(id, state, tracker.references, |fs.trace|)];
      ObservationFollows(start, old(Now()), Now(), id);
    }

    /** The registered path does not hold the link: ask the kernel. */
    method ReconcileLost(search: MovedLinkSearch, id: string, source: Location, look: Look, ghost at: nat, ghost start: Snap)
      returns (c: Conclusion, move: Option<Move>)
      requires Undecided(start, id) && search.Valid() && ForPass(search) && RecoveryOf(IndexNow(start), id).None?
      requires |start.trace| <= at < |fs.trace| && source == LinkOf(IndexNow(start), ObjectKey(id))
      requires look.Nothing? && source.Absolute? ==> RegisteredEmpty(fs.trace[at], IndexNow(start), id)
      modifies this`versions, this`clock, this`queries, this`reports, fs`entries, fs`trace, fs`syncs, fs`next, fs`foreign, fs`destroyed,
               fs.index`stored, fs.index`memory, tracker`references, search
      ensures During(start, id) && Means(c, fs.index.stored, id, fs.index.faulty) && !c.Terminal?
      ensures search.Valid() && ForPass(search)
      ensures (c.Moved? ==> source != Absolute(c.path)) && !c.Confirmed?
      ensures Leaves(c, id, tracker.enabled, old(fs.entries), fs.entries, old(tracker.references), tracker.references)
      ensures look.Nothing? && Searchable(IndexNow(start), id) && !fs.index.faulty && id !in old(tracker.references) ==>
        Judged(old(reports), reports, source.parts, ByID(mount, id), old(search.State()), search.State(), c)
      ensures (move.Some? ==> Backs(Now(), |start.versions|, |passes|, id, move.value)) && Traced(c, move, source)
    {
      var state := AskKernel(id, start);
      c, move := ActOnAnswer(search, id, source, look, state, at, |queries| - 1, start);
    }

    method ActOnAnswer(search: MovedLinkSearch, id: string, source: Location, look: Look, state: TrackState,
                       ghost at: nat, ghost q: nat, ghost start: Snap)
      returns (c: Conclusion, move: Option<Move>)
      requires Undecided(start, id) && search.Valid() && ForPass(search) && RecoveryOf(IndexNow(start), id).None?
      requires |start.trace| <= at < |fs.trace| && source == LinkOf(IndexNow(start), ObjectKey(id))
      requires q < |queries| && |start.trace| <= queries[q].at <= |fs.trace| && queries[q].id == id && queries[q].state == state
      requires state.Untracked? ==> id !in queries[q].references
      requires look.Nothing? && source.Absolute? ==> RegisteredEmpty(fs.trace[at], IndexNow(start), id)
      modifies this`versions, this`clock, this`reports, fs`entries, fs`trace, fs`syncs, fs`next, fs`foreign, fs`destroyed,
               fs.index`stored, fs.index`memory, tracker`references, search
      ensures During(start, id) && Means(c, fs.index.stored, id, fs.index.faulty) && !c.Terminal?
      ensures search.Valid() && ForPass(search)
      ensures (c.Moved? ==> source != Absolute(c.path)) && !c.Confirmed?
      ensures Leaves(c, id, tracker.enabled, old(fs.entries), fs.entries, old(tracker.references), tracker.references)
      ensures look.Nothing? && Searchable(IndexNow(start), id) && !fs.index.faulty && state.Untracked? ==>
        Judged(old(reports), reports, source.parts, ByID(mount, id), old(search.State()), search.State(), c)
      ensures (move.Some? ==> Backs(Now(), |start.versions|, |passes|, id, move.value)) && Traced(c, move, source)
    {
      if state.TrackFailed? { return Problem, None; }
      if state.Untracked? {
        c, move := Locate(search, id, source, look, at, q, start);
        return;
      }
      c, move := FollowReference(id, source, look, state.path, state.linked, at, q, start);
    }

    /** The kernel tracks the link. */
    method FollowReference(id: string, source: Location, look: Look, path: Parts, linked: bool, ghost at: nat, ghost q: nat, ghost start: Snap)
      returns (c: Conclusion, move: Option<Move>)
      requires Undecided(start, id) && RecoveryOf(IndexNow(start), id).None?
      requires |start.trace| <= at < |fs.trace| && source == LinkOf(IndexNow(start), ObjectKey(id))
      requires q < |queries| && |start.trace| <= queries[q].at <= |fs.trace| && queries[q].id == id
      requires queries[q].state == Tracked(path, linked)
      requires look.Nothing? && source.Absolute? ==> RegisteredEmpty(fs.trace[at], IndexNow(start), id)
      modifies this`versions, this`clock, fs`entries, fs`trace, fs`syncs, fs`next, fs`foreign, fs`destroyed,
               fs.index`stored, fs.index`memory, tracker`references
      ensures During(start, id) && Means(c, fs.index.stored, id, fs.index.faulty) && !c.Terminal?
      ensures linked ==> c.Problem? || c.Replaced? || c == Moved(path)
      ensures linked && source == Absolute(path) ==> c.Problem?
      ensures linked && source != Absolute(path) && QuietLink(old(fs.entries), path, ByID(mount, id)) && ObjectKey(id) in IndexNow(start).files ==>
        if look.Nothing? then c == Moved(path) else source.Absolute? ==> c.Replaced?
      ensures (c.Moved? ==> source != Absolute(c.path)) && !c.Confirmed?
      ensures Leaves(c, id, tracker.enabled, old(fs.entries), fs.entries, old(tracker.references), tracker.references)
      ensures (move.Some? ==> Backs(Now(), |start.versions|, |passes|, id, move.value)) && Traced(c, move, source)
    {
      move := None;
      if !linked {
        var now;
        c, now := GoneFromKernel(id, look, at, q, start);
        return;
      }
      if source == Absolute(path) { return Problem, None; }
      c, move := Relocate(id, source, !look.Nothing?, path, at, start);
    }

    /** One record of a pass, which is decided by what the disk held when the registered path was
        looked at. */
    method ReconcileRecord(search: MovedLinkSearch, id: string) returns (c: Conclusion, move: Option<Move>, ghost seen: Entries)
      requires Current() && Keeps(Now(), Now(), id) && search.Valid() && ForPass(search) && Agrees(Now(), id)
      modifies this`versions, this`clock, this`queries, this`reports, this`completions,
               fs`entries, fs`trace, fs`syncs, fs`next, fs`foreign, fs`destroyed, fs.index`stored, fs.index`memory, tracker`references, search
      ensures Current() && search.Valid() && ForPass(search) && Keeps(old(Now()), Now(), id)
      ensures Concluded(old(Now()), Now(), id, c, fs.index.faulty) && (!fs.busy ==> seen == old(fs.entries))
      ensures c.Terminal? ==> fs.index.stored == old(fs.index.stored) && fs.destroyed == old(fs.destroyed)
      ensures Leaves(c, id, tracker.enabled, seen, fs.entries, old(tracker.references), tracker.references)
      ensures !fs.projectFaulty ==>
        if RegisteredLink(seen, old(fs.index.stored), id)
        then !fs.busy && !fs.index.faulty && !tracker.enabled ==> c.Confirmed?
        else c.Terminal? <==> RecoveryOf(old(fs.index.stored), id).Some?
      ensures RegisteredEmpty(seen, old(fs.index.stored), id) && Searchable(old(fs.index.stored), id)
              && !fs.projectFaulty && !fs.index.faulty && id !in old(tracker.references) ==>
        Judged(old(reports), reports, LinkOf(old(fs.index.stored), ObjectKey(id)).parts, ByID(mount, id), old(search.State()), search.State(), c)
      ensures (move.Some? ==> Backs(Now(), |old(versions)|, |passes|, id, move.value))
              && Traced(c, move, LinkOf(old(fs.index.stored), ObjectKey(id)))
    {
      c, move, seen := LookAndReconcile(search, id, Now());
    }

    method LookAndReconcile(search: MovedLinkSearch, id: string, ghost start: Snap) returns (c: Conclusion, move: Option<Move>, ghost seen: Entries)
      requires Undecided(start, id) && search.Valid() && ForPass(search)
      modifies this`versions, this`clock, this`queries, this`reports, this`completions,
               fs`entries, fs`trace, fs`syncs, fs`next, fs`foreign, fs`destroyed, fs.index`stored, fs.index`memory, tracker`references, search
      ensures During(start, id) && search.Valid() && ForPass(search) && (!fs.busy ==> seen == old(fs.entries))
      ensures Means(c, fs.index.stored, id, fs.index.faulty) && (c.Confirmed? ==> Completes(Now(), |start.completions|, id))
      ensures c.Moved? ==> LinkOf(IndexNow(start), ObjectKey(id)) != Absolute(c.path)
      ensures c.Terminal? ==> fs.index.stored == old(fs.index.stored) && fs.destroyed == old(fs.destroyed)
      ensures Leaves(c, id, tracker.enabled, seen, fs.entries, old(tracker.references), tracker.references)
      ensures !fs.projectFaulty ==>
        if RegisteredLink(seen, IndexNow(start), id)
        then !fs.busy && !fs.index.faulty && !tracker.enabled ==> c.Confirmed?
        else c.Terminal? <==> RecoveryOf(IndexNow(start), id).Some?
      ensures RegisteredEmpty(seen, IndexNow(start), id) && Searchable(IndexNow(start), id)
              && !fs.projectFaulty && !fs.index.faulty && id !in old(tracker.references) ==>
        Judged(old(reports), reports, LinkOf(IndexNow(start), ObjectKey(id)).parts, ByID(mount, id), old(search.State()), search.State(), c)
      ensures (move.Some? ==> Backs(Now(), |start.versions|, |passes|, id, move.value))
              && Traced(c, move, LinkOf(IndexNow(start), ObjectKey(id)))
    {
      move := None;
      var source, look;
      ghost var at;
      source, look, at := LookAtRegistered(id, start);
      seen := fs.entries;
      if look.Unreadable? { return Problem, None, seen; }
      c, move := ReconcileSeen(search, id, source, look, at, start);
    }

    method LookAtRegistered(id: string, ghost start: Snap) returns (source: Location, look: Look, ghost at: nat)
      requires Undecided(start, id)
      modifies fs`entries, fs`trace, fs`syncs, fs`next, fs`foreign
      ensures Undecided(start, id) && |start.trace| <= at < |fs.trace| && fs.entries == fs.trace[at]
      ensures !fs.busy ==> fs.entries == old(fs.entries)
      ensures source == LinkOf(IndexNow(start), ObjectKey(id))
      ensures if look.Unreadable? then fs.projectFaulty else Shows(look, fs.entries, source)
    {
      source := LinkOf(fs.index.memory, ObjectKey(id));
      look, at := LookAt(source.parts, id, start);
      if source.Relative? { look := Nothing; }
    }

    /** What follows from the look at the registered path. */
    method ReconcileSeen(search: MovedLinkSearch, id: string, source: Location, look: Look, ghost at: nat, ghost start: Snap)
      returns (c: Conclusion, move: Option<Move>)
      requires Undecided(start, id) && search.Valid() && ForPass(search)
      requires |start.trace| <= at < |fs.trace| && fs.entries == fs.trace[at] && source == LinkOf(IndexNow(start), ObjectKey(id))
      requires Shows(look, fs.entries, source)
      modifies this`versions, this`clock, this`queries, this`reports, this`completions,
               fs`entries, fs`trace, fs`syncs, fs`next, fs`foreign, fs`destroyed, fs.index`stored, fs.index`memory, tracker`references, search
      ensures During(start, id) && Means(c, fs.index.stored, id, fs.index.faulty)
      ensures search.Valid() && ForPass(search)
      ensures c.Terminal? ==> fs.index.stored == old(fs.index.stored) && fs.destroyed == old(fs.destroyed)
      ensures if RegisteredLink(old(fs.entries), IndexNow(start), id)
              then !fs.busy && !fs.projectFaulty && !fs.index.faulty && !tracker.enabled ==> c.Confirmed?
              else c.Terminal? <==> RecoveryOf(IndexNow(start), id).Some?
      ensures c.Confirmed? ==> Completes(Now(), |start.completions|, id)
      ensures c.Moved? ==> source != Absolute(c.path)
      ensures Leaves(c, id, tracker.enabled, old(fs.entries), fs.entries, old(tracker.references), tracker.references)
      ensures RegisteredEmpty(old(fs.entries), IndexNow(start), id) && Searchable(IndexNow(start), id)
              && !fs.index.faulty && id !in old(tracker.references) ==>
        Judged(old(reports), reports, source.parts, ByID(mount, id), old(search.State()), search.State(), c)
      ensures (move.Some? ==> Backs(Now(), |start.versions|, |passes|, id, move.value)) && Traced(c, move, source)
    {
      move := None;
      ShownIsRegistered(look, fs.entries, IndexNow(start), fs.index.memory, id);
      if look.LinkTo? && Ours(look.target, id, fs.index.memory) {
        c := KeepHealthy(id, source.parts, look.target, at, start);
        return;
      }
      c, move := ReconcileUnlinked(search, id, source, look, at, start);
    }

    /** The registered path is no link to the object. */
    method ReconcileUnlinked(search: MovedLinkSearch, id: string, source: Location, look: Look, ghost at: nat, ghost start: Snap)
      returns (c: Conclusion, move: Option<Move>)
      requires Undecided(start, id) && search.Valid() && ForPass(search)
      requires |start.trace| <= at < |fs.trace| && source == LinkOf(IndexNow(start), ObjectKey(id))
      requires look.Nothing? && source.Absolute? ==> RegisteredEmpty(fs.trace[at], IndexNow(start), id)
      modifies this`versions, this`clock, this`queries, this`reports, fs`entries, fs`trace, fs`syncs, fs`next, fs`foreign, fs`destroyed,
               fs.index`stored, fs.index`memory, tracker`references, search
      ensures During(start, id) && Means(c, fs.index.stored, id, fs.index.faulty)
      ensures search.Valid() && ForPass(search)
      ensures c.Terminal? <==> RecoveryOf(IndexNow(start), id).Some?
      ensures c.Terminal? ==> fs.index.stored == old(fs.index.stored) && fs.destroyed == old(fs.destroyed)
      ensures (c.Moved? ==> source != Absolute(c.path)) && !c.Confirmed?
      ensures Leaves(c, id, tracker.enabled, old(fs.entries), fs.entries, old(tracker.references), tracker.references)
      ensures look.Nothing? && Searchable(IndexNow(start), id) && !fs.index.faulty && id !in old(tracker.references) ==>
        Judged(old(reports), reports, source.parts, ByID(mount, id), old(search.State()), search.State(), c)
      ensures (move.Some? ==> Backs(Now(), |start.versions|, |passes|, id, move.value)) && Traced(c, move, source)
    {
      if ObjectKey(id) in fs.index.memory.recovery { return Terminal, None; }
      c, move := ReconcileLost(search, id, source, look, at, start);
    }

    // ------------------------------------------------------------ whole passes

    /** `synchronizeOpaqueLinksOnce`: takes up every indexed object, in any order, and rebases
        registered paths for directory moves that several links agree on.  Every object that the
        pass confirms has completed the healthy branch.  A pass without issues leaves no object in
        doubt, and confirms every object that is not in recovery and did not move. */
    method Pass(plan: Plan) returns (ok: bool, ghost conclusions: map<string, Conclusion>)
      requires Valid() && plan.workers >= 1
      modifies this`versions, this`clock, this`queries, this`reports, this`completions, this`passes,
               fs`entries, fs`trace, fs`syncs, fs`next, fs`foreign, fs`destroyed, fs.index`stored, fs.index`memory, tracker`references
      ensures Valid() && Follows(old(Now()), Now())
      ensures passes == old(passes) ||
        (|passes| == |old(passes)| + 1 && passes[|old(passes)|].plan == plan && passes[|old(passes)|].taken >= |old(fs.trace)|)
      ensures passes != old(passes) ==> conclusions.Keys == IndexedIds(fs.index.stored)
      ensures forall id | id in conclusions && conclusions[id].Confirmed? :: CompletedSince(old(Now()), Now(), id)
      ensures ok ==> forall id | ObjectKey(id) in fs.index.stored.files ::
        Resolved(fs.index.stored, id) && Accounted(old(Now()), Now(), id)
      ensures passes != old(passes) && !ok && !fs.index.faulty ==> AnyIssue(conclusions) || AnyRebase(Now(), |old(versions)|)
    {
      ghost var start := Now();
      RunsFromStart(start);
      ok, conclusions := RunPass(plan, start);
      RunsMeans(start, Now());
      if ok { SettledPass(start, Now(), conclusions, fs.index.faulty); }
    }

    /** Refreshes the volume's copy and takes the capacity for the kernel references first. */
    method RunPass(plan: Plan, ghost start: Snap) returns (ok: bool, ghost conclusions: map<string, Conclusion>)
      requires Current() && Runs(start, Now()) && plan.workers >= 1 && start == Now()
      modifies this`versions, this`clock, this`queries, this`reports, this`completions, this`passes,
               fs`entries, fs`trace, fs`syncs, fs`next, fs`foreign, fs`destroyed, fs.index`stored, fs.index`memory, tracker`references
      ensures Current() && Runs(start, Now())
      ensures passes == old(passes) ||
        (|passes| == |old(passes)| + 1 && passes[|old(passes)|].plan == plan && passes[|old(passes)|].taken >= |old(fs.trace)|)
      ensures passes != old(passes) ==> conclusions.Keys == IndexedIds(fs.index.stored)
      ensures AllCompleted(start, Now(), conclusions)
      ensures ok ==> AllSettled(start, Now(), conclusions, fs.index.faulty) && conclusions.Keys == IndexedIds(fs.index.stored)
      ensures passes != old(passes) && !ok && !fs.index.faulty ==> AnyIssue(conclusions) || AnyRebase(Now(), |old(versions)|)
    {
      conclusions := map[];
      ok := RefreshIndex(start);
      if ok && tracker.enabled { ok := *; }
      if !ok { return; }
      var search := BeginPass(plan, start);
      ok, conclusions := ReconcileIndexed(search, start);
    }

    /** The loop over the records, and the rebases. */
    method ReconcileIndexed(search: MovedLinkSearch, ghost start: Snap) returns (ok: bool, ghost conclusions: map<string, Conclusion>)
      requires Current() && Runs(start, Now()) && search.Valid() && ForPass(search) && fs.index.memory == fs.index.stored
      requires versions == start.versions && completions == start.completions
      modifies this`versions, this`clock, this`queries, this`reports, this`completions,
               fs`entries, fs`trace, fs`syncs, fs`next, fs`foreign, fs`destroyed, fs.index`stored, fs.index`memory, tracker`references, search
      ensures Current() && Runs(start, Now())
      ensures conclusions.Keys == IndexedIds(fs.index.stored) && AllCompleted(start, Now(), conclusions)
      ensures ok ==> AllSettled(start, Now(), conclusions, fs.index.faulty)
      ensures !ok && !fs.index.faulty ==> AnyIssue(conclusions) || AnyRebase(Now(), |old(versions)|)
    {
      var ids := IndexedIds(fs.index.memory);
      PassBegins(start, Now(), ids, fs.index.faulty);
      var moves;
      ghost var work;
      ok, moves, work := ReconcileAll(search, ids, start);
      conclusions := work.conclusions;
      TallyAgrees(start, Now(), moves, conclusions, work.answers);
      ghost var n := |versions|;
      RunNeverShrinks(start, Now());
      ok := FinishPass(moves, ok, ids, conclusions, start);
      if AnyRebase(Now(), n) { AnyRebaseSince(Now(), |old(versions)|, n); }
    }

    method FinishPass(moves: map<Move, nat>, settled: bool, ghost ids: set<string>, ghost conclusions: map<string, Conclusion>, ghost start: Snap)
      returns (ok: bool)
      requires Current() && Runs(start, Now()) && Halfway(start, Now(), ids, {}, conclusions, settled, fs.index.faulty)
      requires ids == IndexedIds(IndexNow(start)) && passes != [] && AllAgreed(Now(), moves)
      modifies this`versions, fs`entries, fs`trace, fs`syncs, fs`next, fs`foreign, fs.index`stored, fs.index`memory
      ensures Current() && Runs(start, Now())
      ensures conclusions.Keys == IndexedIds(fs.index.stored) && AllCompleted(start, Now(), conclusions)
      ensures ok ==> AllSettled(start, Now(), conclusions, fs.index.faulty)
      ensures !ok && !fs.index.faulty ==> AnyIssue(conclusions) || AnyRebase(Now(), |old(versions)|)
    {
      ghost var a := Now();
      var rebased;
      ghost var rebases;
      rebased, rebases := RebaseMoves(moves, start);
      PassEnds(start, a, Now(), ids, conclusions, settled, fs.index.faulty);
      ok := settled && !rebased;
    }

    /** `refreshMetadata`. */
    method RefreshIndex(ghost start: Snap) returns (ok: bool)
      requires Current() && Runs(start, Now())
      modifies fs.index`memory
      ensures Current() && Runs(start, Now())
      ensures ok ==> fs.index.memory == fs.index.stored
      ensures !fs.index.faulty ==> ok
    {
      ok := fs.index.Refresh();
      MemoryFollows(start, old(Now()), Now());
    }

    /** Reads the disk for the search of this pass. */
    method BeginPass(plan: Plan, ghost start: Snap) returns (search: MovedLinkSearch)
      requires Current() && Runs(start, Now()) && plan.workers >= 1 && fs.index.memory == fs.index.stored
      modifies this`passes, fs`entries, fs`trace, fs`syncs, fs`next, fs`foreign
      ensures Current() && Runs(start, Now()) && fresh(search) && search.Valid() && ForPass(search)
      ensures search.nextRoot == 0 && search.byTarget == {} && search.failedRoots == {} && search.comprehensive == plan.global
      ensures !fs.busy ==> fs.entries == old(fs.entries)
      ensures |passes| == |old(passes)| + 1 && passes[..|old(passes)|] == old(passes)
      ensures passes[|old(passes)|].plan == plan && passes[|old(passes)|].taken >= |old(fs.trace)|
    {
      ActOfOthers(start);
      ghost var pass;
      search, pass := NewSearch(plan, fs.entries, fs.index.memory, mount, Now(), start);
      passes := passes + [pass];
    }

    method ActOfOthers(ghost start: Snap)
      requires Current() && Runs(start, Now())
      modifies fs`entries, fs`trace, fs`syncs, fs`next, fs`foreign
      ensures Current() && Runs(start, Now()) && |fs.trace| == |old(fs.trace)| + 1 && old(fs.trace) <= fs.trace
      ensures !fs.busy ==> fs.entries == old(fs.entries)
    {
      fs.Interfere();
      InterferenceFollows(start, old(Now()), Now());
    }

    method ReconcileAll(search: MovedLinkSearch, ids: set<string>, ghost start: Snap)
      returns (ok: bool, moves: map<Move, nat>, ghost work: Work)
      requires Searching(search, start) && Midway(start, Now(), ids, ids, NO_WORK, fs.index.faulty)
      modifies this`versions, this`clock, this`queries, this`reports, this`completions,
               fs`entries, fs`trace, fs`syncs, fs`next, fs`foreign, fs`destroyed, fs.index`stored, fs.index`memory, tracker`references, search
      ensures Searching(search, start) && work.ok == ok && work.moves == moves
      ensures Midway(start, Now(), ids, {}, work, fs.index.faulty)
    {
      var todo := ids;
      ok, moves, work := true, map[], NO_WORK;
      while todo != {}
        invariant Searching(search, start) && work.ok == ok && work.moves == moves
        invariant Midway(start, Now(), ids, todo, work, fs.index.faulty)
        decreases todo
      {
        var id :| id in todo;
        var c, move := ReconcileNext(search, id, ids, todo, work, start);
        todo, work := todo - {id}, work.After(id, c, move);
        moves := Counted(moves, move);
        ok := ok && Settles(c);
      }
    }

    /** One record, in the middle of a pass. */
    method ReconcileNext(search: MovedLinkSearch, id: string, ghost ids: set<string>, ghost todo: set<string>, ghost work: Work, ghost start: Snap)
      returns (c: Conclusion, move: Option<Move>)
      requires Searching(search, start)
      requires id in todo && Midway(start, Now(), ids, todo, work, fs.index.faulty)
      modifies this`versions, this`clock, this`queries, this`reports, this`completions,
               fs`entries, fs`trace, fs`syncs, fs`next, fs`foreign, fs`destroyed, fs.index`stored, fs.index`memory, tracker`references, search
      ensures Searching(search, start)
      ensures Midway(start, Now(), ids, todo - {id}, work.After(id, c, move), fs.index.faulty)
    {
      RecordStarts(start, Now(), id);
      TodoIsPending(start, Now(), id, ids, todo, work, fs.index.faulty);
      c, move := TakeUp(search, id);
      RecordIsCounted(start, old(Now()), Now(), id, c, move, ids, todo, work, fs.index.faulty);
    }

    /** What the rest of a pass needs to know about one record. */
    method TakeUp(search: MovedLinkSearch, id: string) returns (c: Conclusion, move: Option<Move>)
      requires Current() && Keeps(Now(), Now(), id) && search.Valid() && ForPass(search) && Agrees(Now(), id)
      modifies this`versions, this`clock, this`queries, this`reports, this`completions,
               fs`entries, fs`trace, fs`syncs, fs`next, fs`foreign, fs`destroyed, fs.index`stored, fs.index`memory, tracker`references, search
      ensures Current() && search.Valid() && ForPass(search)
      ensures Keeps(old(Now()), Now(), id) && Concluded(old(Now()), Now(), id, c, fs.index.faulty)
      ensures (move.Some? ==> Backs(Now(), |old(versions)|, |passes|, id, move.value))
              && Traced(c, move, LinkOf(old(fs.index.stored), ObjectKey(id)))
    {
      ghost var seen;
      c, move, seen := ReconcileRecord(search, id);
    }

    /** The rebases at the end of a pass: each move which two links agree on is rebased once, unless
        its roots were not seen to have moved. */
    method RebaseMoves(moves: map<Move, nat>, ghost start: Snap) returns (rebased: bool, ghost rebases: seq<Move>)
      requires Current() && Runs(start, Now()) && passes != [] && AllAgreed(Now(), moves)
      modifies this`versions, fs`entries, fs`trace, fs`syncs, fs`next, fs`foreign, fs.index`stored, fs.index`memory
      ensures Current() && Runs(start, Now())
      ensures fs.index.stored == old(fs.index.stored).(links := fs.index.stored.links)
      ensures !rebased || (forall move | move in moves :: moves[move] < 2) ==> fs.index.stored == old(fs.index.stored)
      ensures Rebases(moves, moves.Keys, rebases, fs.trace, |old(fs.trace)|, fs.projectFaulty)
      ensures !fs.index.faulty ==> fs.index.stored.links == RebasedInTurn(rebases, old(fs.index.stored).links)
      ensures rebased && !fs.index.faulty ==> AnyRebase(Now(), |old(versions)|)
    {
      rebased, rebases := false, [];
      var todo := moves.Keys;
      while todo != {}
        invariant Current() && Runs(start, Now()) && AllAgreed(Now(), moves) && old(fs.trace) <= fs.trace
        invariant fs.index.stored == old(fs.index.stored).(links := fs.index.stored.links)
        invariant !rebased || (forall move | move in moves :: moves[move] < 2) ==> fs.index.stored == old(fs.index.stored)
        invariant todo <= moves.Keys && Rebases(moves, moves.Keys - todo, rebases, fs.trace, |old(fs.trace)|, fs.projectFaulty)
        invariant !fs.index.faulty ==> fs.index.stored.links == RebasedInTurn(rebases, old(fs.index.stored).links)
        invariant rebased && !fs.index.faulty ==> AnyRebase(Now(), |old(versions)|)
        invariant |versions| >= |old(versions)|
        decreases todo
      {
        var move :| move in todo;
        var changed;
        ghost var n := |versions|;
        changed, rebases := RebaseNext(move, moves, moves.Keys - todo, rebases, |old(fs.trace)|, old(fs.index.stored).links, start);
        rebased := rebased || changed;
        if changed && !fs.index.faulty { AnyRebaseSince(Now(), |old(versions)|, n); }
        assert moves.Keys - (todo - {move}) == moves.Keys - todo + {move};
        todo := todo - {move};
      }
    }

    /** The next move: it is rebased if enough links agree on it and it is confirmed. */
    method RebaseNext(move: Move, moves: map<Move, nat>, ghost done: set<Move>, ghost rebases: seq<Move>, ghost n: nat,
                      ghost first: map<Key, Location>, ghost start: Snap)
      returns (changed: bool, ghost later: seq<Move>)
      requires Current() && Runs(start, Now()) && passes != [] && AllAgreed(Now(), moves) && move in moves && move !in done
      requires Rebases(moves, done, rebases, fs.trace, n, fs.projectFaulty) && n <= |fs.trace|
      requires !fs.index.faulty ==> fs.index.stored.links == RebasedInTurn(rebases, first)
      modifies this`versions, fs`entries, fs`trace, fs`syncs, fs`next, fs`foreign, fs.index`stored, fs.index`memory
      ensures Current() && Runs(start, Now()) && AllAgreed(Now(), moves) && old(fs.trace) <= fs.trace
      ensures fs.index.stored == old(fs.index.stored).(links := fs.index.stored.links)
      ensures !changed || moves[move] < 2 ==> fs.index.stored == old(fs.index.stored)
      ensures Rebases(moves, done + {move}, later, fs.trace, n, fs.projectFaulty)
      ensures !fs.index.faulty ==> fs.index.stored.links == RebasedInTurn(later, first)
      ensures forall m: nat | old(AnyRebase(Now(), m)) :: AnyRebase(Now(), m)
      ensures changed && !fs.index.faulty ==> AnyRebase(Now(), |old(versions)|)
      ensures |versions| >= |old(versions)|
    {
      changed, later := false, rebases;
      ghost var confirmed := false;
      if moves[move] >= 2 { changed, confirmed := RebaseConfirmed(move, moves, start); }
      OneMoveTried(moves, done, rebases, old(fs.trace), fs.trace, n, fs.projectFaulty, move, confirmed);
      if confirmed {
        RebasedLast(rebases, move, first);
        later := rebases + [move];
      }
    }

    /** `confirmedDirectoryMove`, then `rebaseLinkSources`; reports a change or an error. */
    method RebaseConfirmed(move: Move, ghost moves: map<Move, nat>, ghost start: Snap) returns (changed: bool, ghost confirmed: bool)
      requires Current() && Runs(start, Now()) && passes != [] && AllAgreed(Now(), moves) && move in moves && moves[move] >= 2
      modifies this`versions, fs`entries, fs`trace, fs`syncs, fs`next, fs`foreign, fs.index`stored, fs.index`memory
      ensures Current() && Runs(start, Now()) && AllAgreed(Now(), moves) && old(fs.trace) <= fs.trace
      ensures fs.index.stored == old(fs.index.stored).(links := fs.index.stored.links)
      ensures !changed || !confirmed ==> fs.index.stored == old(fs.index.stored)
      ensures confirmed ==> RootsMoved(fs.entries, move)
      ensures !confirmed && !fs.projectFaulty ==> Unconfirmed(fs.trace, |old(fs.trace)|, move)
      ensures !fs.index.faulty && confirmed ==> fs.index.stored.links == RebasedAll(move, old(fs.index.stored).links)
      ensures forall n: nat | old(AnyRebase(Now(), n)) :: AnyRebase(Now(), n)
      ensures changed && !fs.index.faulty ==> AnyRebase(Now(), |old(versions)|)
      ensures |versions| >= |old(versions)|
    {
      var moved;
      ghost var at;
      moved, at := ConfirmMove(move, moves, start);
      changed, confirmed := false, moved;
      if moved { changed := RebaseTo(move, at, moves, start); }
    }

    method RebaseTo(move: Move, ghost at: nat, ghost moves: map<Move, nat>, ghost start: Snap) returns (changed: bool)
      requires Current() && Runs(start, Now()) && AllAgreed(Now(), moves) && move in moves && moves[move] >= 2
      requires Recent(Now(), at) && RootsMoved(fs.trace[at], move)
      modifies this`versions, fs.index`stored, fs.index`memory
      ensures Current() && Runs(start, Now()) && AllAgreed(Now(), moves) && old(fs.trace) <= fs.trace
      ensures fs.index.stored == old(fs.index.stored).(links := fs.index.stored.links)
      ensures !changed ==> fs.index.stored == old(fs.index.stored)
      ensures !fs.index.faulty ==> fs.index.stored.links == RebasedAll(move, old(fs.index.stored).links)
      ensures forall n: nat | old(AnyRebase(Now(), n)) :: AnyRebase(Now(), n)
      ensures changed && !fs.index.faulty ==> AnyRebase(Now(), |old(versions)|)
      ensures |versions| >= |old(versions)|
    {
      var before := fs.index.stored;
      var ok := Attempt(Rebase(move));
      RebaseLands(start, old(Now()), Now(), moves, move, at);
      changed := !ok || fs.index.stored != before;
    }

    /** `confirmedDirectoryMove`.  A link at the new root may lead anywhere. */
    method ConfirmMove(move: Move, ghost moves: map<Move, nat>, ghost start: Snap) returns (ok: bool, ghost at: nat)
      requires Current() && Runs(start, Now()) && passes != [] && AllAgreed(Now(), moves) && move in moves && moves[move] >= 2
      modifies fs`entries, fs`trace, fs`syncs, fs`next, fs`foreign
      ensures Current() && Runs(start, Now()) && AllAgreed(Now(), moves) && old(fs.trace) <= fs.trace
      ensures forall n: nat | old(AnyRebase(Now(), n)) :: AnyRebase(Now(), n)
      ensures Recent(Now(), at) && |old(fs.trace)| <= at && fs.trace[at] == fs.entries
      ensures ok ==> RootsMoved(fs.entries, move)
      ensures !ok && !fs.projectFaulty ==> Unconfirmed(fs.trace, |old(fs.trace)|, move)
    {
      ActOfOthers(start);
      OthersActed(start, old(Now()), Now(), moves);
      at := |fs.trace| - 1;
      ok := false;
      var unreadable := fs.Fault(Project(move.oldRoot));
      if unreadable || Project(move.oldRoot) in fs.entries { return; }
      unreadable := fs.Fault(Project(move.newRoot));
      if unreadable || Project(move.newRoot) !in fs.entries { return; }
      var entry := fs.entries[Project(move.newRoot)];
      ok := entry.Directory?;
      if entry.Symlink? { ok := *; }
    }
  }

  /** Of the moves in `done`, those in `rebases` were rebased, each once; the others are suggested by
      fewer than two links, or were not confirmed. */
  ghost predicate Rebases(moves: map<Move, nat>, done: set<Move>, rebases: seq<Move>, trace: seq<Entries>, n: nat, hidden: bool) {
    match hidden
    case true => EachOnce(moves, done, rebases)
    case false =>
      && EachOnce(moves, done, rebases)
      && forall move | move in done && move !in rebases && CountOf(moves, move) >= 2 :: Unconfirmed(trace, n, move)
  }

  predicate EachOnce(moves: map<Move, nat>, done: set<Move>, rebases: seq<Move>) {
    Distinct(rebases) && forall move | move in rebases :: move in done && CountOf(moves, move) >= 2
  }

  lemma RebasedLast<K>(moves: seq<Move>, move: Move, links: map<K, Location>)
    ensures RebasedInTurn(moves + [move], links) == RebasedAll(move, RebasedInTurn(moves, links))
  {
    assert (moves + [move])[..|moves|] == moves;
  }

  lemma OneMoveTried(moves: map<Move, nat>, done: set<Move>, rebases: seq<Move>, trace: seq<Entries>, longer: seq<Entries>,
                     n: nat, hidden: bool, move: Move, confirmed: bool)
    requires Rebases(moves, done, rebases, trace, n, hidden) && n <= |trace| && trace <= longer && move !in done
    requires if CountOf(moves, move) < 2 then !confirmed else !confirmed && !hidden ==> Unconfirmed(longer, |trace|, move)
    ensures Rebases(moves, done + {move}, if confirmed then rebases + [move] else rebases, longer, n, hidden)
  {
    UnconfirmedOn(trace, longer, n);
  }

  /** After the first `n` states there was one where the old root was still there, or no directory at
      the new root. */
  ghost predicate Unconfirmed(trace: seq<Entries>, n: nat, move: Move) {
    exists i :: n <= i < |trace| && !(Project(move.oldRoot) !in trace[i] && At(trace[i], Project(move.newRoot)) == Some(Directory))
  }

  lemma UnconfirmedOn(trace: seq<Entries>, longer: seq<Entries>, n: nat)
    requires trace <= longer
    ensures forall move | Unconfirmed(trace, n, move) :: Unconfirmed(longer, n, move)
    ensures forall m: nat, move | n <= m && Unconfirmed(longer, m, move) :: Unconfirmed(longer, n, move)
  {
    forall move | Unconfirmed(trace, n, move) ensures Unconfirmed(longer, n, move) {
      var i :| n <= i < |trace|
        && !(Project(move.oldRoot) !in trace[i] && At(trace[i], Project(move.newRoot)) == Some(Directory));
      assert longer[i] == trace[i];
    }
  }

  /** No move twice. */
  predicate Distinct(moves: seq<Move>) { forall i, j | 0 <= i < j < |moves| :: moves[i] != moves[j] }

  /** One pass of a run. */
  datatype PassRecord = PassRecord(before: Snap, after: Snap, ok: bool, conclusions: map<string, Conclusion>)

  /** The objects it confirmed have completed the healthy branch, and if it raised no issue, every
      object is accounted for. */
  ghost predicate PassDone(p: PassRecord) {
    && AllCompleted(p.before, p.after, p.conclusions)
    && (p.ok ==> forall id | ObjectKey(id) in IndexNow(p.after).files :: Resolved(IndexNow(p.after), id) && Accounted(p.before, p.after, id))
  }

  /** The passes followed each other. */
  predicate Chained(start: Snap, history: seq<PassRecord>, end: Snap) {
    if history == [] then start == end
    else history[|history| - 1].after == end && Chained(start, history[..|history| - 1], history[|history| - 1].before)
  }

  ghost predicate AllDone(history: seq<PassRecord>) { forall i | 0 <= i < |history| :: PassDone(history[i]) }

  lemma ChainGrows(start: Snap, history: seq<PassRecord>, p: PassRecord)
    requires Chained(start, history, p.before) && AllDone(history) && PassDone(p)
    ensures Chained(start, history + [p], p.after) && AllDone(history + [p])
  {
    assert (history + [p])[..|history|] == history;
  }

  /** Any number of passes. */
  method Run(r: LinkReconciler, plans: seq<Plan>) returns (ghost history: seq<PassRecord>)
    requires r.Valid() && forall i | 0 <= i < |plans| :: plans[i].workers >= 1
    modifies r, r.fs, r.fs.index, r.tracker
    ensures r.Valid() && Follows(old(r.Now()), r.Now())
    ensures forall p | |old(r.passes)| <= p < |r.passes| :: r.passes[p].plan in plans
    ensures |history| == |plans| && Chained(old(r.Now()), history, r.Now()) && AllDone(history)
  {
    ghost var start := r.Now();
    StartFollows(start);
    history := [];
    for n := 0 to |plans|
      invariant r.Valid() && Follows(start, r.Now())
      invariant forall p | |old(r.passes)| <= p < |r.passes| :: r.passes[p].plan in plans
      invariant |history| == n && Chained(start, history, r.Now()) && AllDone(history)
    {
      ghost var a := r.Now();
      ghost var done := RunOnce(r, plans[n]);
      FollowsOn(start, a, r.Now());
      ChainGrows(start, history, done);
      history := history + [done];
      assert forall p | 0 <= p < |a.passes| :: r.passes[p] == a.passes[p];
    }
  }

  method RunOnce(r: LinkReconciler, plan: Plan) returns (ghost done: PassRecord)
    requires r.Valid() && plan.workers >= 1
    modifies r, r.fs, r.fs.index, r.tracker
    ensures r.Valid() && Follows(old(r.Now()), r.Now())
    ensures forall p | |old(r.passes)| <= p < |r.passes| :: r.passes[p].plan == plan
    ensures done.before == old(r.Now()) && done.after == r.Now() && PassDone(done)
  {
    ghost var a := r.Now();
    var ok;
    ghost var conclusions;
    ok, conclusions := r.Pass(plan);
    done := PassRecord(a, r.Now(), ok, conclusions);
  }

  /** Nothing fails but the root, nobody interferes, and nothing is tracked. */
  ghost predicate Calm(r: LinkReconciler, st: Entries)
    reads r.fs, r.tracker
  {
    !r.fs.busy && !r.fs.projectFaulty && !r.fs.index.faulty && r.tracker.references == {} && r.fs.entries == st
  }

  /** If the only root cannot be inspected, the first record that needs the search is left in doubt. */
  method FirstRecord(r: LinkReconciler, search: MovedLinkSearch, id: string, ghost start: Snap) returns (c: Conclusion)
    requires r.Current() && Runs(start, r.Now()) && search.Valid() && r.ForPass(search) && Unstarted(search.State())
    requires Calm(r, r.fs.entries) && Agrees(r.Now(), id) && Untraced(r.fs.index.stored, r.fs.entries, id)
    modifies r`versions, r`clock, r`queries, r`reports, r`completions, r.fs`entries, r.fs`trace, r.fs`syncs, r.fs`next, r.fs`foreign, r.fs`destroyed,
             r.fs.index`stored, r.fs.index`memory, r.tracker`references, search
    ensures r.Current() && Runs(start, r.Now()) && search.Valid() && r.ForPass(search) && RootWasLost(search.State())
    ensures c.Doubted? && Calm(r, old(r.fs.entries)) && Keeps(old(r.Now()), r.Now(), id)
  {
    ghost var a := r.Now();
    RecordStarts(start, a, id);
    var move;
    ghost var seen;
    c, move, seen := r.ReconcileRecord(search, id);
    FirstRecordIsDoubted(a, r.Now(), old(search.State()), search.State(), id,
                         LinkOf(old(r.fs.index.stored), ObjectKey(id)).parts, ByID(r.mount, id), c);
    RecordExtendsRun(start, a, r.Now(), id);
  }

  /** The next goes to trash, wherever its link is. */
  method NextRecord(r: LinkReconciler, search: MovedLinkSearch, id: string, ghost start: Snap) returns (c: Conclusion)
    requires r.Current() && Runs(start, r.Now()) && search.Valid() && r.ForPass(search) && RootWasLost(search.State())
    requires Calm(r, r.fs.entries) && Agrees(r.Now(), id) && Untraced(r.fs.index.stored, r.fs.entries, id)
    modifies r`versions, r`clock, r`queries, r`reports, r`completions, r.fs`entries, r.fs`trace, r.fs`syncs, r.fs`next, r.fs`foreign, r.fs`destroyed,
             r.fs.index`stored, r.fs.index`memory, r.tracker`references, search
    ensures r.Current() && Runs(start, r.Now()) && c.Deleted? && r.fs.entries == old(r.fs.entries) && InTrash(r.fs.index.stored, id)
  {
    ghost var a := r.Now();
    RecordStarts(start, a, id);
    var move;
    ghost var seen;
    c, move, seen := r.ReconcileRecord(search, id);
    SecondRecordIsDeleted(a, r.Now(), old(search.State()), search.State(), id,
                          LinkOf(old(r.fs.index.stored), ObjectKey(id)).parts, ByID(r.mount, id), c);
    RecordExtendsRun(start, a, r.Now(), id);
  }

  lemma RecordExtendsRun(start: Snap, a: Snap, b: Snap, id: string)
    requires Runs(start, a) && Keeps(a, b, id)
    ensures Runs(start, b)
  {
    RunsMeans(start, a);
    KeepsMeans(a, b, id);
    RunsMeans(start, b);
    FollowsOn(start, a, b);
  }

  /** A decision the reconciler exists to avoid.  Inspecting the only root fails while one record is
      searched for; then the search for the other is empty and counts as complete, and that object
      goes to trash, whatever lies below the root. */
  method BrokenRootPass(r: LinkReconciler, plan: Plan, id: string, other: string) returns (first: Conclusion, second: Conclusion)
    requires r.Valid() && Calm(r, r.fs.entries) && r.fs.index.memory == r.fs.index.stored && other != id
    requires Untraced(r.fs.index.stored, r.fs.entries, id) && Untraced(r.fs.index.stored, r.fs.entries, other)
    requires |plan.roots| == 1 && plan.roots[0] in plan.broken && plan.global && plan.workers >= 1
    modifies r`versions, r`clock, r`queries, r`reports, r`completions, r`passes, r.fs`entries, r.fs`trace, r.fs`syncs, r.fs`next, r.fs`foreign,
             r.fs`destroyed, r.fs.index`stored, r.fs.index`memory, r.tracker`references
    ensures r.Valid() && r.fs.entries == old(r.fs.entries)
    ensures |r.passes| == |old(r.passes)| + 1 && r.passes[|old(r.passes)|].plan == plan
    ensures first.Doubted? && second.Deleted? && InTrash(r.fs.index.stored, other)
  {
    ghost var start := r.Now();
    RunsFromStart(start);
    var search := r.BeginPass(plan, start);
    first, second := BrokenRootRecords(r, search, id, other, start);
    RunsMeans(start, r.Now());
  }

  method BrokenRootRecords(r: LinkReconciler, search: MovedLinkSearch, id: string, other: string, ghost start: Snap)
    returns (first: Conclusion, second: Conclusion)
    requires r.Current() && Runs(start, r.Now()) && search.Valid() && r.ForPass(search) && Unstarted(search.State())
    requires Calm(r, r.fs.entries) && r.fs.index.memory == r.fs.index.stored && other != id
    requires Untraced(r.fs.index.stored, r.fs.entries, id) && Untraced(r.fs.index.stored, r.fs.entries, other)
    modifies r`versions, r`clock, r`queries, r`reports, r`completions, r.fs`entries, r.fs`trace, r.fs`syncs, r.fs`next, r.fs`foreign, r.fs`destroyed,
             r.fs.index`stored, r.fs.index`memory, r.tracker`references, search
    ensures r.Current() && Runs(start, r.Now()) && r.fs.entries == old(r.fs.entries)
    ensures first.Doubted? && second.Deleted? && InTrash(r.fs.index.stored, other)
  {
    first := FirstRecord(r, search, id, start);
    OtherStaysUntraced(old(r.Now()), r.Now(), r.fs.entries, id, other);
    second := NextRecord(r, search, other, start);
  }

  /** Here the link of that object is on disk, below the root. */
  method FailedRootTrashesLinkedObject() returns (r: LinkReconciler, first: Conclusion, second: Conclusion)
    ensures fresh(r) && r.Valid() && |r.passes| == 1 && r.passes[0].plan == BrokenHome()
    ensures first.Doubted? && second.Deleted? && InTrash(r.fs.index.stored, "b")
    ensures LinkOnDisk(r.fs.entries, BrokenHome(), MOVED_TO, "b", VAULT_MOUNT, TwoObjects())
    ensures Below(BrokenHome().roots[0], Absolute(MOVED_TO)) && !InternalPath(BrokenHome(), MOVED_TO)
  {
    TwoObjectsAreUntraced();
    MovedLinkIsOnDisk();
    var m, st, plan := TwoObjects(), OneLinkMoved(), BrokenHome();
    var index := new MetadataStore(m, false);
    var fs := new FileSystem(st, 0, false, false, false, index);
    var tracker := new Tracker(false);
    r := new LinkReconciler(fs, tracker, VAULT_MOUNT, 1);
    first, second := BrokenRootPass(r, plan, "a", "b");
  }

  lemma RunsFromStart(s: Snap)
    requires SnapInv(s)
    ensures Runs(s, s)
  {
    RunsMeans(s, s);
    StartFollows(s);
  }

  lemma RunNeverShrinks(start: Snap, a: Snap)
    requires Runs(start, a)
    ensures |start.versions| <= |a.versions|
  {
    RunsMeans(start, a);
  }

  lemma RecordStarts(start: Snap, a: Snap, id: string)
    requires Runs(start, a)
    ensures Keeps(a, a, id)
  {
    RunsMeans(start, a);
    KeepsMeans(a, a, id);
    StartFollows(a);
  }

  lemma RecordIsKept(start: Snap, a: Snap, b: Snap, id: string, c: Conclusion, ids: set<string>,
                     todo: set<string>, conclusions: map<string, Conclusion>, ok: bool, faulty: bool)
    requires Runs(start, a) && Keeps(a, b, id) && Concluded(a, b, id, c, faulty)
    requires Halfway(start, a, ids, todo, conclusions, ok, faulty) && id in todo
    ensures Runs(start, b) && Halfway(start, b, ids, todo - {id}, conclusions[id := c], ok && Settles(c), faulty)
  {
    RunsMeans(start, a);
    KeepsMeans(a, b, id);
    RunsMeans(start, b);
    FollowsOn(start, a, b);
    ConclusionsGrow(start, a, b, id, c, conclusions, faulty);
    if !ok {
      var other :| other in conclusions && IsIssue(conclusions[other]);
      assert other in conclusions[id := c] && IsIssue(conclusions[id := c][other]);
    } else if !Settles(c) {
      assert IsIssue(conclusions[id := c][id]);
    }
  }

  lemma ConclusionsGrow(start: Snap, a: Snap, b: Snap, id: string, c: Conclusion, conclusions: map<string, Conclusion>, faulty: bool)
    requires Follows(start, a) && Follows(a, b) && OthersKept(a, b, id) && Concluded(a, b, id, c, faulty)
    requires AllConcluded(start, a, conclusions, faulty) && Pending(start, a, id)
    ensures AllConcluded(start, b, conclusions[id := c], faulty)
  {
    var now := conclusions[id := c];
    forall other | other in now ensures Concluded(start, b, other, now[other], faulty) {
      if other == id {
        if c.Confirmed? {
          var e: nat :| |a.completions| <= e && Completes(b, e, id);
          assert |start.completions| <= e && Completes(b, e, id);
        }
      } else {
        assert Concluded(start, a, other, conclusions[other], faulty);
        ConclusionStays(start, a, b, other, conclusions[other], faulty);
      }
    }
  }

  lemma ConclusionStays(start: Snap, a: Snap, b: Snap, id: string, c: Conclusion, faulty: bool)
    requires Follows(a, b) && Concluded(start, a, id, c, faulty) && ViewOf(IndexNow(b), id) == ViewOf(IndexNow(a), id)
    ensures Concluded(start, b, id, c, faulty)
  {
    if c.Confirmed? {
      var e: nat :| |start.completions| <= e && Completes(a, e, id);
      assert |start.completions| <= e && Completes(b, e, id);
    }
  }

  lemma MemoryFollows(start: Snap, a: Snap, b: Snap)
    requires Runs(start, a) && b == a.(memory := b.memory)
    ensures Runs(start, b)
  {
    RunsMeans(start, a);
    RunsMeans(start, b);
    InvGrows(a, b);
    FollowsOn(start, a, b);
  }

  lemma InterferenceFollows(start: Snap, a: Snap, b: Snap)
    requires Runs(start, a) && a.trace != [] && |b.trace| == |a.trace| + 1 && a.trace <= b.trace && b == a.(trace := b.trace)
    requires forall name: Name | !name.Project? :: At(Last(b), name) == At(Last(a), name)
    requires !a.busy ==> Last(b) == Last(a)
    ensures Runs(start, b)
  {
    RunsMeans(start, a);
    RunsMeans(start, b);
    InvGrows(a, b);
    assert KeptAt(a, b, |a.trace|);
    FollowsOn(start, a, b);
  }

  /** The pass begins now, and its search will see the disk as it is. */
  ghost predicate Begins(s: Snap, pass: PassStart) {
    && pass.taken + 1 == |s.trace| && pass.version + 1 == |s.versions|
    && Sees(pass, Last(s), IndexNow(s), s.mount)
  }

  lemma PassFollows(start: Snap, a: Snap, b: Snap, pass: PassStart)
    requires Runs(start, a) && Begins(a, pass) && b == a.(passes := a.passes + [pass])
    ensures Runs(start, b)
  {
    RunsMeans(start, a);
    NewPassIsOk(a, b, pass);
    PassLogged(start, a, b);
  }

  lemma NewPassIsOk(a: Snap, b: Snap, pass: PassStart)
    requires InOrder(a) && Begins(a, pass) && b == a.(passes := a.passes + [pass])
    ensures PassSees(b, |a.passes|)
  {
    assert b.passes[|a.passes|] == pass;
    assert b.trace[pass.taken] == Last(a) && b.versions[pass.version].index == IndexNow(a);
    assert Past(a, |a.versions| - 1);
  }

  lemma PassLogged(start: Snap, a: Snap, b: Snap)
    requires SnapInv(start) && SnapInv(a) && Follows(start, a)
    requires |b.passes| == |a.passes| + 1 && a.passes <= b.passes && b == a.(passes := b.passes) && PassSees(b, |a.passes|)
    ensures Runs(start, b)
  {
    PassKeepsInv(a, b);
    LogFollows(a, b);
    FollowsOn(start, a, b);
    RunsMeans(start, b);
  }

  lemma PassKeepsInv(a: Snap, b: Snap)
    requires SnapInv(a) && Extends(a, b) && b.versions == a.versions && b.reports == a.reports && b.completions == a.completions
    requires |b.passes| == |a.passes| + 1 && PassSees(b, |a.passes|)
    ensures SnapInv(b)
  {
    InvGrows(a, b);
  }

  /** Nothing but logs grew. */
  lemma LogFollows(a: Snap, b: Snap)
    requires Extends(a, b) && a.trace != [] && a.versions != []
    requires b.trace == a.trace && b.destroyed == a.destroyed && b.versions == a.versions
    ensures Follows(a, b)
  {
  }

  /** The search of a pass, as `newMovedProtectedLinkSearchWithGlobalRoots` sets it up. */
  method NewSearch(plan: Plan, st: Entries, m: Index, mount: Parts, ghost s: Snap, ghost start: Snap)
    returns (search: MovedLinkSearch, ghost pass: PassStart)
    requires plan.workers >= 1 && Runs(start, s) && s.trace != [] && s.versions != []
    requires Last(s) == st && IndexNow(s) == m && s.mount == mount
    ensures fresh(search) && search.Valid() && MadeFor(search.State(), pass) && search.failedRoots == {}
    ensures search.nextRoot == 0 && search.byTarget == {} && search.comprehensive == plan.global && !search.indexed
    ensures pass.plan == plan && pass.taken == |s.trace| - 1 && Runs(start, s.(passes := s.passes + [pass]))
  {
    TreeIsWellFormed(st, plan);
    var scope := ScopeOf(plan, st, m, mount);
    search := new MovedLinkSearch(scope, plan.roots, plan.global, plan.workers, plan.broken);
    pass := PassStart(plan, |s.trace| - 1, |s.versions| - 1, scope);
    PassFollows(start, s, s.(passes := s.passes + [pass]), pass);
  }

  /** Nothing was done about the object yet, and the volume's copy is current about it. */
  ghost predicate Pending(start: Snap, s: Snap, id: string) {
    Agrees(s, id) && ViewOf(IndexNow(s), id) == ViewOf(IndexNow(start), id)
  }

  ghost predicate AllConcluded(start: Snap, s: Snap, conclusions: map<string, Conclusion>, faulty: bool) {
    forall id | id in conclusions :: Concluded(start, s, id, conclusions[id], faulty)
  }

  /** What a pass has found out so far: whether there was no issue, the directory moves with their counts,
      and the conclusion and the suggested move for each object. */
  datatype Work = Work(ok: bool, moves: map<Move, nat>, conclusions: map<string, Conclusion>, answers: map<string, Option<Move>>)
  {
    ghost function After(id: string, c: Conclusion, move: Option<Move>): Work {
      Work(ok && Settles(c), Counted(moves, move), conclusions[id := c], answers[id := move])
    }
  }

  const NO_WORK := Work(true, map[], map[], map[])

  ghost predicate Midway(start: Snap, s: Snap, ids: set<string>, todo: set<string>, work: Work, faulty: bool) {
    match work
    case Work(ok, moves, conclusions, answers) =>
      Halfway(start, s, ids, todo, conclusions, ok, faulty) && Tally(start, s, moves, conclusions, answers)
  }

  lemma TodoIsPending(start: Snap, a: Snap, id: string, ids: set<string>, todo: set<string>, work: Work, faulty: bool)
    requires Midway(start, a, ids, todo, work, faulty) && id in todo
    ensures Agrees(a, id)
  {
    assert Pending(start, a, id);
  }

  lemma RecordIsCounted(start: Snap, a: Snap, b: Snap, id: string, c: Conclusion, move: Option<Move>, ids: set<string>,
                        todo: set<string>, work: Work, faulty: bool)
    requires Runs(start, a) && Keeps(a, b, id) && Concluded(a, b, id, c, faulty) && a.passes == b.passes
    requires Midway(start, a, ids, todo, work, faulty) && id in todo
    requires move.Some? ==> Backs(b, |a.versions|, |b.passes|, id, move.value)
    requires Traced(c, move, LinkOf(IndexNow(a), ObjectKey(id)))
    ensures Runs(start, b) && Midway(start, b, ids, todo - {id}, work.After(id, c, move), faulty)
  {
    RecordIsKept(start, a, b, id, c, ids, todo, work.conclusions, work.ok, faulty);
    TallyOn(start, a, b, work.moves, work.conclusions, work.answers, id, c, move);
  }

  /** In the middle of a pass. */
  ghost predicate Halfway(start: Snap, s: Snap, ids: set<string>, todo: set<string>, conclusions: map<string, Conclusion>, ok: bool, faulty: bool) {
    match ok
    case true => AllSettle(conclusions) && Advanced(start, s, ids, todo, conclusions, faulty)
    case false => AnyIssue(conclusions) && Advanced(start, s, ids, todo, conclusions, faulty)
  }

  ghost predicate Advanced(start: Snap, s: Snap, ids: set<string>, todo: set<string>, conclusions: map<string, Conclusion>, faulty: bool) {
    && todo <= ids && conclusions.Keys == ids - todo
    && AllConcluded(start, s, conclusions, faulty) && forall id | id in todo :: Pending(start, s, id)
  }

  ghost predicate AllCompleted(start: Snap, s: Snap, conclusions: map<string, Conclusion>) {
    forall id | id in conclusions && conclusions[id].Confirmed? :: CompletedSince(start, s, id)
  }

  /** What a pass reports as an issue. */
  predicate IsIssue(c: Conclusion) { c.Problem? || c.Doubted? || c.Replaced? }

  ghost predicate AnyIssue(conclusions: map<string, Conclusion>) { exists id :: id in conclusions && IsIssue(conclusions[id]) }

  /** A write from version `n` on has rebased registered paths. */
  ghost predicate AnyRebase(s: Snap, n: nat) {
    match s.versions == []
    case true => false
    case false => exists v: nat, move :: n <= v && 1 <= v < |s.versions| && RebasedBy(s, v, move)
  }

  lemma AnyRebaseOn(a: Snap, b: Snap)
    requires Extends(a, b)
    ensures forall n: nat | AnyRebase(a, n) :: AnyRebase(b, n)
  {
    forall n: nat | AnyRebase(a, n) ensures AnyRebase(b, n) {
      var v: nat, move :| n <= v && 1 <= v < |a.versions| && RebasedBy(a, v, move);
      RebaseStays(a, b, v, move);
    }
  }

  lemma AnyRebaseSince(s: Snap, m: nat, n: nat)
    requires AnyRebase(s, n) && m <= n
    ensures AnyRebase(s, m)
  {
  }

  ghost predicate AllSettle(conclusions: map<string, Conclusion>) {
    forall id | id in conclusions :: Settles(conclusions[id])
  }

  ghost predicate AllSettled(start: Snap, s: Snap, conclusions: map<string, Conclusion>, faulty: bool) {
    AllConcluded(start, s, conclusions, faulty) && AllSettle(conclusions)
  }

  /** The object has completed the healthy branch, is in recovery, or has moved. */
  ghost predicate Accounted(start: Snap, s: Snap, id: string) {
    || CompletedSince(start, s, id) || RecoveryOf(IndexNow(s), id).Some?
    || LinkOf(IndexNow(s), ObjectKey(id)) != LinkOf(IndexNow(start), ObjectKey(id))
  }

  /** A pass without issues. */
  lemma SettledPass(start: Snap, s: Snap, conclusions: map<string, Conclusion>, faulty: bool)
    requires AllSettled(start, s, conclusions, faulty) && conclusions.Keys == IndexedIds(IndexNow(s))
    ensures forall id | ObjectKey(id) in IndexNow(s).files :: Resolved(IndexNow(s), id) && Accounted(start, s, id)
  {
    forall id | ObjectKey(id) in IndexNow(s).files ensures Resolved(IndexNow(s), id) && Accounted(start, s, id) {
      IndexedId(IndexNow(s), id);
      assert Concluded(start, s, id, conclusions[id], faulty) && Settles(conclusions[id]);
    }
  }

  lemma PassBegins(start: Snap, s: Snap, ids: set<string>, faulty: bool)
    requires s.memory == IndexNow(s) == IndexNow(start)
    ensures Midway(start, s, ids, ids, NO_WORK, faulty)
  {
  }

  lemma PassEnds(start: Snap, a: Snap, b: Snap, ids: set<string>, conclusions: map<string, Conclusion>, ok: bool, faulty: bool)
    requires Runs(start, b) && Halfway(start, a, ids, {}, conclusions, ok, faulty) && a.completions == b.completions
    requires ids == IndexedIds(IndexNow(start))
    ensures conclusions.Keys == IndexedIds(IndexNow(b)) && AllCompleted(start, b, conclusions)
    ensures ok && IndexNow(b) == IndexNow(a) ==> AllSettled(start, b, conclusions, faulty)
    ensures !ok ==> AnyIssue(conclusions)
  {
    RunsMeans(start, b);
    ConclusionsStand(start, a, b, conclusions, faulty);
  }

  /** The rebases change registered paths only. */
  lemma ConclusionsStand(start: Snap, a: Snap, b: Snap, conclusions: map<string, Conclusion>, faulty: bool)
    requires AllConcluded(start, a, conclusions, faulty) && a.completions == b.completions
    ensures AllCompleted(start, b, conclusions)
    ensures IndexNow(b) == IndexNow(a) ==> AllConcluded(start, b, conclusions, faulty)
  {
    forall id | id in conclusions
      ensures conclusions[id].Confirmed? ==> CompletedSince(start, b, id)
      ensures IndexNow(b) == IndexNow(a) ==> Concluded(start, b, id, conclusions[id], faulty)
    {
      assert Concluded(start, a, id, conclusions[id], faulty);
      if conclusions[id].Confirmed? {
        var e: nat :| |start.completions| <= e && Completes(a, e, id);
        assert |start.completions| <= e && Completes(b, e, id);
      }
    }
  }

  /** Nothing about the object is in doubt. */
  predicate Resolved(m: Index, id: string) {
    MarkOf(m, ObjectKey(id)) == 0 || ObjectKey(id) in m.recovery || ObjectKey(id) !in m.files
  }

  /** Conclusions that raise no issue. */
  predicate Settles(c: Conclusion) { c.Confirmed? || c.Terminal? || c.Deleted? || c.Vanished? || c.Moved? }

  /** How many links agree on a directory move. */
  function Counted(moves: map<Move, nat>, move: Option<Move>): map<Move, nat> {
    if move.None? then moves
    else moves[move.value := 1 + CountOf(moves, move.value)]
  }

  /** The objects whose links suggested the move. */
  function Suggesting(answers: map<string, Option<Move>>, move: Move): set<string> {
    set id | id in answers && answers[id] == Some(move)
  }

  /** A move is counted once for each object whose link suggested it. */
  ghost predicate Tallied(moves: map<Move, nat>, answers: map<string, Option<Move>>) {
    forall move :: CountOf(moves, move) == |Suggesting(answers, move)|
  }

  function CountOf(moves: map<Move, nat>, move: Move): nat { if move in moves then moves[move] else 0 }

  lemma TallyGrows(moves: map<Move, nat>, answers: map<string, Option<Move>>, id: string, answer: Option<Move>)
    requires Tallied(moves, answers) && id !in answers
    ensures Tallied(Counted(moves, answer), answers[id := answer])
  {
    forall move ensures CountOf(Counted(moves, answer), move) == |Suggesting(answers[id := answer], move)| {
      assert CountOf(moves, move) == |Suggesting(answers, move)|;
      OneMoreSuggests(answers, id, answer, move);
    }
  }

  lemma OneMoreSuggests(answers: map<string, Option<Move>>, id: string, answer: Option<Move>, move: Move)
    requires id !in answers
    ensures |Suggesting(answers[id := answer], move)| == |Suggesting(answers, move)| + if answer == Some(move) then 1 else 0
  {
    var was, now := Suggesting(answers, move), Suggesting(answers[id := answer], move);
    if answer == Some(move) { assert now == was + {id}; } else { assert now == was; }
  }

  /** In this pass, the object's link had moved with the directory when a version was written. */
  ghost predicate BacksNow(s: Snap, id: string, move: Move) { exists v :: Backs(s, v, |s.passes|, id, move) }

  ghost predicate AllBack(s: Snap, answers: map<string, Option<Move>>) {
    forall id | id in answers && answers[id].Some? :: BacksNow(s, id, answers[id].value)
  }

  lemma AllBackOn(a: Snap, b: Snap, answers: map<string, Option<Move>>)
    requires AllBack(a, answers) && Extends(a, b) && a.passes == b.passes
    ensures AllBack(b, answers)
  {
    forall id | id in answers && answers[id].Some? ensures BacksNow(b, id, answers[id].value) {
      var move := answers[id].value;
      assert BacksNow(a, id, move);
      var v :| Backs(a, v, |a.passes|, id, move);
      BackingStays(a, b, v, |a.passes|, id, move);
    }
  }

  /** Whoever moved is counted for what the way from the registered path suggests. */
  ghost predicate AllTraced(start: Snap, conclusions: map<string, Conclusion>, answers: map<string, Option<Move>>) {
    answers.Keys == conclusions.Keys && forall id | id in conclusions :: Traced(conclusions[id], answers[id], LinkOf(IndexNow(start), ObjectKey(id)))
  }

  /** The count of the directory moves so far. */
  ghost predicate Tally(start: Snap, s: Snap, moves: map<Move, nat>, conclusions: map<string, Conclusion>, answers: map<string, Option<Move>>) {
    match AllTraced(start, conclusions, answers)
    case true => Tallied(moves, answers) && AllBack(s, answers)
    case false => false
  }

  lemma TallyOn(start: Snap, a: Snap, b: Snap, moves: map<Move, nat>, conclusions: map<string, Conclusion>,
                answers: map<string, Option<Move>>, id: string, c: Conclusion, answer: Option<Move>)
    requires Tally(start, a, moves, conclusions, answers) && Keeps(a, b, id) && a.passes == b.passes && id !in conclusions
    requires answer.Some? ==> Backs(b, |a.versions|, |b.passes|, id, answer.value)
    requires Pending(start, a, id) && Traced(c, answer, LinkOf(IndexNow(a), ObjectKey(id)))
    ensures Tally(start, b, Counted(moves, answer), conclusions[id := c], answers[id := answer])
  {
    KeepsMeans(a, b, id);
    TallyGrows(moves, answers, id, answer);
    AllBackOn(a, b, answers);
    if answer.Some? { assert BacksNow(b, id, answer.value); }
  }

  /** Two objects back the move in the current pass. */
  ghost predicate Agreed(s: Snap, move: Move) {
    match move
    case Move(_, _) => exists id, other :: id != other && BacksNow(s, id, move) && BacksNow(s, other, move)
  }

  lemma CountMeansAgreement(s: Snap, moves: map<Move, nat>, answers: map<string, Option<Move>>, move: Move)
    requires Tallied(moves, answers) && AllBack(s, answers) && move in moves && moves[move] >= 2
    ensures Agreed(s, move)
  {
    var ids := Suggesting(answers, move);
    assert CountOf(moves, move) == |ids|;
    var id :| id in ids;
    assert ids == {id} + (ids - {id});
    assert |ids - {id}| >= 1;
    var other :| other in ids - {id};
    assert BacksNow(s, id, answers[id].value) && BacksNow(s, other, answers[other].value);
  }

  lemma AgreementCounts(a: Snap, b: Snap, move: Move)
    requires Agreed(a, move) && Extends(a, b) && Writes(a, b)
    ensures TwoBack(b, |a.versions|, move)
  {
    var id, other :| id != other && BacksNow(a, id, move) && BacksNow(a, other, move);
    var u :| Backs(a, u, |a.passes|, id, move);
    var w :| Backs(a, w, |a.passes|, other, move);
    BackingStays(a, b, u, |a.passes|, id, move);
    BackingStays(a, b, w, |a.passes|, other, move);
    assert BothBack(b, |a.versions|, |a.passes|, move, id, other, u, w) && b.versions[|a.versions|].pass == |a.passes|;
  }

  lemma AgreementStays(a: Snap, b: Snap, move: Move)
    requires Agreed(a, move) && Extends(a, b) && a.passes == b.passes
    ensures Agreed(b, move)
  {
    var id, other :| id != other && BacksNow(a, id, move) && BacksNow(a, other, move);
    var u :| Backs(a, u, |a.passes|, id, move);
    var w :| Backs(a, w, |a.passes|, other, move);
    BackingStays(a, b, u, |a.passes|, id, move);
    BackingStays(a, b, w, |a.passes|, other, move);
    assert BacksNow(b, id, move) && BacksNow(b, other, move);
  }

  ghost predicate EachAgreed(s: Snap, moves: map<Move, nat>) {
    forall move | move in moves && moves[move] >= 2 :: Agreed(s, move)
  }

  /** The same with its definition out of sight. */
  ghost predicate AllAgreed(s: Snap, moves: map<Move, nat>) { AgreedFolded(|s.trace| + 1, s, moves) }

  ghost predicate AgreedFolded(n: nat, s: Snap, moves: map<Move, nat>) {
    if n == 0 then EachAgreed(s, moves) else AgreedFolded(n - 1, s, moves)
  }

  lemma {:induction false} AgreedUnfolded(n: nat, s: Snap, moves: map<Move, nat>)
    ensures AgreedFolded(n, s, moves) <==> EachAgreed(s, moves)
  {
    if n > 0 { AgreedUnfolded(n - 1, s, moves); }
  }

  lemma TallyAgrees(start: Snap, s: Snap, moves: map<Move, nat>, conclusions: map<string, Conclusion>, answers: map<string, Option<Move>>)
    requires Tally(start, s, moves, conclusions, answers)
    ensures AllAgreed(s, moves)
  {
    AgreedUnfolded(|s.trace| + 1, s, moves);
    forall move | move in moves && moves[move] >= 2 ensures Agreed(s, move) {
      CountMeansAgreement(s, moves, answers, move);
    }
  }

  lemma AllAgreedOn(a: Snap, b: Snap, moves: map<Move, nat>)
    requires AllAgreed(a, moves) && Extends(a, b) && a.passes == b.passes
    ensures AllAgreed(b, moves)
  {
    AgreedUnfolded(|a.trace| + 1, a, moves);
    AgreedUnfolded(|b.trace| + 1, b, moves);
    forall move | move in moves && moves[move] >= 2 ensures Agreed(b, move) { AgreementStays(a, b, move); }
  }

  /** A rebase that two links agree on and the disk confirms. */
  lemma RebaseLands(start: Snap, a: Snap, b: Snap, moves: map<Move, nat>, move: Move, at: nat)
    requires Runs(start, a) && Attempts(a, b, Rebase(move)) && Recent(a, at) && RootsMoved(a.trace[at], move)
    requires AllAgreed(a, moves) && move in moves && moves[move] >= 2
    ensures Runs(start, b) && AllAgreed(b, moves) && IndexNow(b) == IndexNow(a).(links := IndexNow(b).links)
    ensures forall n: nat | AnyRebase(a, n) :: AnyRebase(b, n)
    ensures IndexNow(b) != IndexNow(a) ==> AnyRebase(b, |a.versions|)
  {
    assert Extends(a, b);
    AnyRebaseOn(a, b);
    AgreedUnfolded(|a.trace| + 1, a, moves);
    AgreementCounts(a, b, move);
    RebaseFollows(start, a, b, move, at);
    if IndexNow(b) != IndexNow(a) { assert RebasedBy(b, |a.versions|, move); }
    AllAgreedOn(a, b, moves);
  }

  lemma OthersActed(start: Snap, a: Snap, b: Snap, moves: map<Move, nat>)
    requires Runs(start, a) && a.passes != [] && |b.trace| == |a.trace| + 1 && a.trace <= b.trace && b == a.(trace := b.trace)
    requires AllAgreed(a, moves)
    ensures AllAgreed(b, moves) && Recent(b, |a.trace|) && forall n: nat | AnyRebase(a, n) :: AnyRebase(b, n)
  {
    AnyRebaseOn(a, b);
    LatestPassRuns(start, a);
    AllAgreedOn(a, b, moves);
  }

  /** These moves are rebased, one after the other. */
  function RebasedInTurn<K>(moves: seq<Move>, links: map<K, Location>): map<K, Location> {
    if moves == [] then links else RebasedAll(moves[|moves| - 1], RebasedInTurn(moves[..|moves| - 1], links))
  }

  // ------------------------------------------------------------ what runs promise

  function RecoveryAt(s: Snap, v: nat, id: string): Option<RecoveryEntry>
    requires v < |s.versions|
  {
    RecoveryOf(s.versions[v].index, id)
  }

  /** The last step at which a value changed. */
  lemma {:induction false} LastChange<T>(values: seq<T>, lo: nat, hi: nat) returns (v: nat)
    requires lo < hi < |values| && values[lo] != values[hi]
    ensures lo < v <= hi && values[v] == values[hi] && values[v - 1] != values[v]
    decreases hi
  {
    if values[hi - 1] != values[hi] { return hi; }
    v := LastChange(values, lo, hi - 1);
  }

  /** The first one. */
  lemma {:induction false} FirstChange(s: Snap, lo: nat, hi: nat, id: string) returns (v: nat)
    requires lo < hi < |s.versions| && RecoveryAt(s, lo, id) != RecoveryAt(s, hi, id)
    ensures lo < v <= hi && RecoveryAt(s, v, id) != RecoveryAt(s, lo, id)
    ensures forall w | lo <= w < v :: RecoveryAt(s, w, id) == RecoveryAt(s, lo, id)
    decreases hi - lo
  {
    if RecoveryAt(s, lo + 1, id) != RecoveryAt(s, lo, id) { return lo + 1; }
    v := FirstChange(s, lo + 1, hi, id);
  }

  /** Over any run, an object newly in trash was put there by a write of that run which rests on
      evidence: while the previous version of the index was in force, and in the pass that
      wrote, its registered path was seen empty, and either the kernel said its link was gone
      while a mark at least 500 ms old stood, or it was untracked and the complete search of
      that pass found no other link. */
  lemma TrashHasEvidence(a: Snap, b: Snap, id: string) returns (v: nat)
    requires Follows(a, b) && SnapInv(b)
    requires RecoveryOf(IndexNow(b), id).Some? && RecoveryOf(IndexNow(b), id).value.state.Trash?
    requires RecoveryOf(IndexNow(b), id) != RecoveryOf(IndexNow(a), id)
    ensures |a.versions| <= v < |b.versions| && RecoveryAt(b, v, id) == RecoveryOf(IndexNow(b), id)
    ensures RecoveryAt(b, v - 1, id).None?
    ensures RecoveryAt(b, v, id).value.observed == b.versions[v].time
    ensures LinkOf(b.versions[v - 1].index, ObjectKey(id)) == Absolute(RecoveryAt(b, v, id).value.path)
    ensures PathWasEmpty(b, v, id) && (KernelSaysGone(b, v, id) || FoundNowhere(b, v, id))
  {
    assert IndexNow(a) == b.versions[|a.versions| - 1].index;
    var entries := seq(|b.versions|, v requires 0 <= v < |b.versions| => RecoveryAt(b, v, id));
    v := LastChange(entries, |a.versions| - 1, |b.versions| - 1);
    assert Justified(b, v) && RecoveryJustified(b, v, id);
  }

  /** Over any run, an object whose registered path is not the one it had was last given its path by a
      write of that run: in the pass that wrote, and while the previous version of the index was
      in force, the object's link was seen at that path after its registered path had been seen
      empty; or the paths below a directory were rebased, for a move which the links of two objects
      agree on and the disk confirmed. */
  lemma RegistrationHasEvidence(a: Snap, b: Snap, id: string) returns (v: nat)
    requires Follows(a, b) && SnapInv(b) && LinkOf(IndexNow(b), ObjectKey(id)) != LinkOf(IndexNow(a), ObjectKey(id))
    ensures |a.versions| <= v < |b.versions| && LinkAt(b, v, id) == LinkOf(IndexNow(b), ObjectKey(id)) != LinkAt(b, v - 1, id)
    ensures Reregistered(b, v, id) || exists move :: RebasedBy(b, v, move) && Below(move.oldRoot, LinkAt(b, v - 1, id))
  {
    assert IndexNow(a) == b.versions[|a.versions| - 1].index;
    var links := seq(|b.versions|, v requires 0 <= v < |b.versions| => LinkAt(b, v, id));
    v := LastChange(links, |a.versions| - 1, |b.versions| - 1);
    assert Justified(b, v) && LinkJustified(b, v, id);
  }

  /** A recovery entry stays exactly as recorded in every version of the index, until a write that
      removes it because its registered path was seen to be a link to the object, or to its
      legacy target, under the very index that held the entry. */
  lemma RecoveryStaysUntilSeen(a: Snap, b: Snap, id: string) returns (v: nat)
    requires Follows(a, b) && SnapInv(b) && RecoveryOf(IndexNow(a), id).Some?
    ensures |a.versions| <= v <= |b.versions|
    ensures forall w | |a.versions| - 1 <= w < v :: RecoveryAt(b, w, id) == RecoveryOf(IndexNow(a), id)
    ensures v < |b.versions| ==> RecoveryAt(b, v, id).None? && LinkWasSeen(b, v, id)
  {
    var lo := |a.versions| - 1;
    assert b.versions[lo] == a.versions[lo];
    if w :| lo <= w < |b.versions| && RecoveryAt(b, w, id) != RecoveryAt(b, lo, id) {
      v := FirstChange(b, lo, w, id);
      assert Justified(b, v) && RecoveryJustified(b, v, id) && RecoveryAt(b, v - 1, id) == RecoveryAt(b, lo, id);
    } else {
      v := |b.versions|;
    }
  }

  function MarkAt(s: Snap, v: nat, id: string): int
    requires v < |s.versions|
  {
    MarkOf(s.versions[v].index, ObjectKey(id))
  }

  /** Where the mark that stands in version `v` was set: at the very beginning, or by the write whose
      time it carries. */
  lemma {:induction false} MarkOrigin(s: Snap, v: nat, id: string) returns (u: nat)
    requires SnapInv(s) && v < |s.versions| && MarkAt(s, v, id) != 0
    ensures u <= v && (forall w | u <= w <= v :: MarkAt(s, w, id) == MarkAt(s, v, id))
    ensures u == 0 || s.versions[u].time == MarkAt(s, v, id)
    decreases v
  {
    u := v;
    if v > 0 {
      assert Justified(s, v) && MarkJustified(s, v, id);
      if MarkAt(s, v - 1, id) == MarkAt(s, v, id) { u := MarkOrigin(s, v - 1, id); }
    }
  }

  /** A deletion that the kernel's answer led to: the mark it rests on stood from version `u`, which
      was written at least 500 ms earlier, until the deletion, and in between no pass completed
      the healthy branch for the object with its writes succeeding. */
  lemma MarkStoodUntilDeletion(s: Snap, v: nat, id: string) returns (u: nat)
    requires SnapInv(s) && 1 <= v < |s.versions| && KernelSaysGone(s, v, id)
    ensures u < v && forall w | u <= w < v :: MarkAt(s, w, id) == MarkAt(s, v - 1, id) != 0
    ensures u == 0 || (s.versions[u].time == MarkAt(s, v - 1, id) && s.versions[v].time - s.versions[u].time >= 500_000_000)
    ensures forall c | 0 <= c < |s.completions| && s.completions[c].id == id && s.completions[c].recorded ::
      !(u <= s.completions[c].version < v)
  {
    u := MarkOrigin(s, v - 1, id);
    forall c | 0 <= c < |s.completions| && s.completions[c].id == id && s.completions[c].recorded
      ensures !(u <= s.completions[c].version < v)
    {
      assert CompletionOk(s, c);
      assert MarkAt(s, s.completions[c].version, id) == 0;
    }
  }

  /** While a mark stands, no pass since it was set completed the healthy branch with its writes
      succeeding. */
  lemma StandingMarkIsUnrefuted(s: Snap, id: string) returns (u: nat)
    requires SnapInv(s) && MarkOf(IndexNow(s), ObjectKey(id)) != 0
    ensures u < |s.versions| && (u == 0 || s.versions[u].time == MarkOf(IndexNow(s), ObjectKey(id)))
    ensures forall w | u <= w < |s.versions| :: MarkAt(s, w, id) == MarkOf(IndexNow(s), ObjectKey(id))
    ensures forall c | 0 <= c < |s.completions| && s.completions[c].id == id && s.completions[c].recorded ::
      s.completions[c].version < u
  {
    u := MarkOrigin(s, |s.versions| - 1, id);
    forall c | 0 <= c < |s.completions| && s.completions[c].id == id && s.completions[c].recorded
      ensures s.completions[c].version < u
    {
      assert CompletionOk(s, c);
      assert MarkAt(s, s.completions[c].version, id) == 0;
    }
  }

  lemma {:induction false} SameFiles(s: Snap, v: nat, w: nat)
    requires SnapInv(s) && v <= w < |s.versions|
    ensures s.versions[v].index.files == s.versions[w].index.files
    decreases w
  {
    if v < w {
      SameFiles(s, v, w - 1);
      assert Justified(s, w);
    }
  }

  /** In state `st`, no path below the roots and outside the vault and the mount held a readable
      link to the object, other than `source`; except below failed roots. */
  ghost predicate NoLinkOnDisk(st: Entries, plan: Plan, failed: set<Parts>, source: Parts, id: string, mount: Parts, m: Index) {
    forall i, p | 0 <= i < |plan.roots| && plan.roots[i] !in failed && Below(plan.roots[i], Absolute(p))
                  && LinkOnDisk(st, plan, p, id, mount, m) && !InternalPath(plan, p) :: p == source
  }

  predicate InternalPath(plan: Plan, p: Parts) {
    exists i | 0 <= i < |plan.internalRoots| :: PathWithin(plan.internalRoots[i], p)
  }

  lemma SearchMeansDisk(st: Entries, plan: Plan, failed: set<Parts>, source: Parts, id: string, mount: Parts, m: Index)
    requires NoOtherLink(ScopeOf(plan, st, m, mount), plan.roots, failed, source, ByID(mount, id)) && ObjectKey(id) in m.files
    ensures NoLinkOnDisk(st, plan, failed, source, id, mount, m)
  {
    var scope := ScopeOf(plan, st, m, mount);
    forall i, p | 0 <= i < |plan.roots| && plan.roots[i] !in failed && Below(plan.roots[i], Absolute(p))
                  && LinkOnDisk(st, plan, p, id, mount, m) && !InternalPath(plan, p)
      ensures p == source
    {
      LinkIsVisible(st, plan, p, id, mount, m);
      assert scope.Links(p, ByID(mount, id)) && !scope.Internal(p);
    }
  }

  /** What a complete search that found nothing means: in the state of the disk that the search of
      that pass read, there was no other link to the object below any root of the plan, apart
      from roots that an earlier call of the same pass reported as failed. */
  lemma NowhereOnDisk(s: Snap, v: nat, id: string) returns (pass: nat, r: nat, failed: set<Parts>)
    requires SnapInv(s) && 1 <= v < |s.versions| && FoundNowhere(s, v, id)
    requires ObjectKey(id) in s.versions[v].index.files
    ensures pass == s.versions[v].pass - 1 && pass < |s.passes| && Reported(s, v, r)
    ensures s.passes[pass].taken < |s.trace| && s.passes[pass].version < |s.versions|
    ensures forall f | f in failed :: LostBy(s.reports, r, pass, f)
    ensures NoLinkOnDisk(s.trace[s.passes[pass].taken], s.passes[pass].plan, failed,
                         LinkOf(s.versions[v - 1].index, ObjectKey(id)).parts, id, s.mount, s.versions[s.passes[pass].version].index)
  {
    var m, k := s.versions[v - 1].index, ObjectKey(id);
    r :| Reported(s, v, r) && s.reports[r].Complete() && s.reports[r].result.NotFound?
         && s.reports[r].target == ByID(s.mount, id) && s.reports[r].source == LinkOf(m, k).parts;
    var report := s.reports[r];
    pass, failed := report.pass, report.after.failedRoots;
    assert ReportOk(s, r) && PassSees(s, pass);
    LostEarlier(s.reports, r, pass, failed);
    var start := s.passes[pass];
    SameSight(report.after.scope, start.scope, start.plan.roots, failed, report.source, report.target);
    ObjectIsIndexed(s, v, start.version, id);
    SearchMeansDisk(s.trace[start.taken], start.plan, failed, LinkOf(m, k).parts, id, s.mount, s.versions[start.version].index);
  }

  /** The exact condition: that conclusion is warranted, whatever lies where the search has not read, if
      and only if every root lost in an earlier call lies below an indexed root, or inside the
      vault or the mount. */
  lemma NowhereIsWarrantedIff(s: Snap, v: nat, id: string) returns (r: nat)
    requires SnapInv(s) && 1 <= v < |s.versions| && FoundNowhere(s, v, id)
    requires ObjectKey(id) in s.versions[v].index.files
    ensures Reported(s, v, r) && s.reports[r].target == ByID(s.mount, id)
    ensures Warranted(s.reports[r].after, s.reports[r].source, s.reports[r].target) <==>
      forall f | f in s.reports[r].after.failedRoots :: Read(s.reports[r].after.scope, f) || Inside(s.reports[r].after.scope, f)
  {
    var m, k := s.versions[v - 1].index, ObjectKey(id);
    r :| Reported(s, v, r) && s.reports[r].Complete() && s.reports[r].result.NotFound?
         && s.reports[r].target == ByID(s.mount, id) && s.reports[r].source == LinkOf(m, k).parts;
    var report := s.reports[r];
    assert ReportOk(s, r) && PassSees(s, report.pass);
    var pass := s.passes[report.pass];
    ObjectIsIndexed(s, v, pass.version, id);
    ObjectIsTarget(pass.plan, s.trace[pass.taken], s.versions[pass.version].index, s.mount, id);
    EmptyAnswerWarrantedIff(report.after, report.source, report.target);
  }

  lemma ObjectIsTarget(plan: Plan, st: Entries, m: Index, mount: Parts, id: string)
    requires ObjectKey(id) in m.files
    ensures ByID(mount, id) in ScopeOf(plan, st, m, mount).targets
  {
    IndexedId(m, id);
  }

  lemma LostEarlier(reports: seq<Report>, r: nat, pass: nat, failed: set<Parts>)
    requires r < |reports| && !reports[r].result.SearchFailed? && AllLost(reports, r + 1, pass, failed)
    ensures AllLost(reports, r, pass, failed)
  {
    forall f | f in failed ensures LostBy(reports, r, pass, f) {
      assert LostBy(reports, r + 1, pass, f);
      var e: nat :| e < r + 1 && LostIn(reports, e, pass, f);
      assert e < r && LostIn(reports, e, pass, f);
    }
  }

  /** No search of the pass had failed before report `r`. */
  predicate NoneFailed(s: Snap, r: nat, pass: nat) {
    forall e | 0 <= e < r && e < |s.reports| && s.reports[e].pass == pass :: !s.reports[e].result.SearchFailed?
  }

  /** In a pass whose searches did not fail, there was no other link below any root of the plan. */
  lemma NowhereAtAll(s: Snap, v: nat, id: string) returns (pass: nat, r: nat)
    requires SnapInv(s) && 1 <= v < |s.versions| && FoundNowhere(s, v, id)
    requires ObjectKey(id) in s.versions[v].index.files
    ensures pass == s.versions[v].pass - 1 && pass < |s.passes| && Reported(s, v, r)
    ensures s.passes[pass].taken < |s.trace| && s.passes[pass].version < |s.versions|
    ensures NoneFailed(s, r, pass) ==>
      NoLinkOnDisk(s.trace[s.passes[pass].taken], s.passes[pass].plan, {},
                   LinkOf(s.versions[v - 1].index, ObjectKey(id)).parts, id, s.mount, s.versions[s.passes[pass].version].index)
  {
    var failed;
    pass, r, failed := NowhereOnDisk(s, v, id);
    if NoneFailed(s, r, pass) {
      assert forall f | f in failed :: !LostBy(s.reports, r, pass, f);
      assert failed == {};
    }
  }

  /** The path holds a readable link to the object, and its target is not another object's legacy
      target. */
  predicate LinkOnDisk(st: Entries, plan: Plan, p: Parts, id: string, mount: Parts, m: Index) {
    && Project(p) in st && PointsTo(st[Project(p)], id) && Rooted(st, p) && p !in plan.uninspectable
    && (st[Project(p)].target == ByID(mount, id) || forall k | k in m.legacy :: m.legacy[k] != st[Project(p)].target)
  }

  lemma LinkIsVisible(st: Entries, plan: Plan, p: Parts, id: string, mount: Parts, m: Index)
    requires LinkOnDisk(st, plan, p, id, mount, m) && ObjectKey(id) in m.files
    ensures ScopeOf(plan, st, m, mount).Links(p, ByID(mount, id))
  {
    var scope := ScopeOf(plan, st, m, mount);
    var target := st[Project(p)].target;
    IndexedId(m, id);
    assert scope.tree[p] == Link(target, true);
    assert target in scope.targets ==> target == ByID(mount, id);
  }

  // ------------------------------------------------ a failed root and the next record

  const VAULT_MOUNT: Parts := ["mount"]
  const MOVED_TO: Parts := ["home", "new"]

  function RegisteredAt(id: string): Parts { ["home", id] }

  /** Two objects, registered at paths that are both empty. */
  function TwoObjects(): Index {
    var meta := FileMeta(0, 0, 0, 0, 0);
    Index(FORMAT_VERSION, map[ObjectKey("a") := meta, ObjectKey("b") := meta],
          map[ObjectKey("a") := Absolute(RegisteredAt("a")), ObjectKey("b") := Absolute(RegisteredAt("b"))],
          map[], map[], map[], false)
  }

  /** The link of the second was moved, within the only root. */
  function OneLinkMoved(): Entries {
    map[Project(["home"]) := Directory, Project(MOVED_TO) := Symlink(ByID(VAULT_MOUNT, "b"))]
  }

  /** Everything is to be searched, and inspecting the root will fail. */
  function BrokenHome(): Plan { Plan([["home"]], true, 1, [], [], {}, {}, {}, {}, {["home"]}) }

  lemma TwoObjectsAreUntraced()
    ensures Untraced(TwoObjects(), OneLinkMoved(), "a") && Untraced(TwoObjects(), OneLinkMoved(), "b")
    ensures forall name | name in OneLinkMoved() :: !Temporary(name) && !OneLinkMoved()[name].Regular?
    ensures var plan := BrokenHome(); |plan.roots| == 1 && plan.roots[0] in plan.broken && plan.global && plan.workers == 1
  {
  }

  lemma MovedLinkIsOnDisk()
    ensures LinkOnDisk(OneLinkMoved(), BrokenHome(), MOVED_TO, "b", VAULT_MOUNT, TwoObjects())
    ensures Below(BrokenHome().roots[0], Absolute(MOVED_TO)) && !InternalPath(BrokenHome(), MOVED_TO)
  {
    assert MOVED_TO[..1] == ["home"];
  }

  /** A new, global search whose only root cannot be inspected. */
  ghost predicate Unstarted(p: Progress) {
    |p.roots| == 1 && p.roots[0] in p.broken && p.nextRoot == 0 && p.byTarget == {} && p.comprehensive
  }

  /** The same after a call that met that root. */
  ghost predicate RootWasLost(p: Progress) {
    |p.roots| == 1 && p.nextRoot == 1 && p.byTarget == {} && p.comprehensive
  }

  lemma FirstCallFails(a: Progress, b: Progress, source: Parts, target: Target, r: FindResult)
    requires Unstarted(a) && Answers(a, b, source, target, r)
    ensures r.SearchFailed? && RootWasLost(b)
  {
    assert MeetsBrokenRoot(a, source, target);
  }

  lemma NextCallIsEmpty(a: Progress, b: Progress, source: Parts, target: Target, r: FindResult)
    requires RootWasLost(a) && Answers(a, b, source, target, r)
    ensures r.NotFound? && b.comprehensive && b.indexed
  {
  }

  lemma ReportIsAnswer(a: Snap, b: Snap, id: string, r: nat)
    requires Keeps(a, b, id) && r < |b.reports|
    ensures var report := b.reports[r]; Answers(report.before, report.after, report.source, report.target, report.result)
  {
    KeepsMeans(a, b, id);
    assert ReportOk(b, r);
  }

  /** The object can only be found by the search. */
  predicate Untraced(m: Index, st: Entries, id: string) { Searchable(m, id) && RegisteredEmpty(st, m, id) }

  lemma FirstRecordIsDoubted(a: Snap, b: Snap, before: Progress, after: Progress, id: string, source: Parts, target: Target, c: Conclusion)
    requires Keeps(a, b, id) && Judged(a.reports, b.reports, source, target, before, after, c) && Unstarted(before)
    ensures c.Doubted? && RootWasLost(after)
  {
    ReportIsAnswer(a, b, id, |a.reports|);
    FirstCallFails(before, after, source, target, b.reports[|a.reports|].result);
  }

  lemma OtherStaysUntraced(a: Snap, b: Snap, st: Entries, id: string, other: string)
    requires Keeps(a, b, id) && Agrees(a, other) && Untraced(IndexNow(a), st, other) && other != id
    ensures Agrees(b, other) && Untraced(IndexNow(b), st, other)
  {
    KeepsMeans(a, b, id);
    assert ViewOf(IndexNow(b), other) == ViewOf(IndexNow(a), other);
  }

  lemma SecondRecordIsDeleted(a: Snap, b: Snap, before: Progress, after: Progress, id: string, source: Parts, target: Target, c: Conclusion)
    requires Keeps(a, b, id) && Judged(a.reports, b.reports, source, target, before, after, c) && RootWasLost(before)
    ensures c.Deleted?
  {
    ReportIsAnswer(a, b, id, |a.reports|);
    NextCallIsEmpty(before, after, source, target, b.reports[|a.reports|].result);
  }

  lemma ObjectIsIndexed(s: Snap, v: nat, w: nat, id: string)
    requires SnapInv(s) && v < |s.versions| && w < |s.versions| && ObjectKey(id) in s.versions[v].index.files
    ensures ObjectKey(id) in s.versions[w].index.files
  {
    if v <= w { SameFiles(s, v, w); } else { SameFiles(s, w, v); }
  }

  /** If nobody else acts, every file, directory and empty path of the project is as it was at every
      moment of a run. */
  lemma UserEntriesAreUntouched(a: Snap, b: Snap, i: nat, path: Parts)
    requires Follows(a, b) && !a.busy && |a.trace| <= i < |b.trace|
    requires Project(path) in Last(a) ==> !Last(a)[Project(path)].Symlink?
    ensures At(b.trace[i], Project(path)) == At(Last(a), Project(path))
  {
    assert KeptAt(a, b, i);
  }

  /** Whatever others do, a run destroys only links of ours; or an entry that stood where the run had
      put its link in exchange for another entry, and that made way for that entry. */
  lemma OnlyOurLinksAreDestroyed(a: Snap, b: Snap, i: nat) returns (path: Parts, id: string, d: Option<Entry>)
    requires Follows(a, b) && |a.destroyed| <= i < |b.destroyed|
    ensures OurLink(b.destroyed[i], IndexNow(a))
            || SwappedOut(b.trace, |a.trace|, Project(path), d, Symlink(ByID(a.mount, id)), Some(b.destroyed[i]))
    ensures !a.busy ==> OurLink(b.destroyed[i], IndexNow(a))
  {
    assert ExpendableAt(a, b, i);
    path, id, d := [], "", None;
    if !OurLink(b.destroyed[i], IndexNow(a)) {
      path, id, d :| SwappedOut(b.trace, |a.trace|, Project(path), d, Symlink(ByID(a.mount, id)), Some(b.destroyed[i]));
    }
  }

  /** At no moment does a run touch a ciphertext, and it drops no indexed object. */
  lemma ObjectsAreUntouched(a: Snap, b: Snap, i: nat, id: string)
    requires Follows(a, b) && |a.trace| <= i < |b.trace|
    ensures At(b.trace[i], ObjectFile(id)) == At(Last(a), ObjectFile(id)) && IndexNow(b).files == IndexNow(a).files
  {
    assert KeptAt(a, b, i);
  }
}
