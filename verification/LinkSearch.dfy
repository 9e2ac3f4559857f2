/** The search for protected links that moved while nobody watched.

  Roots are indexed one by one, on demand, by a pool of workers that scan directories
  concurrently.  The tree does not change during a search.
*/
module LinkSearch {
  import opened Optional
  import opened DirectoryMoves
  import opened Metadata

  datatype Node = Dir(readable: bool) | Link(target: Target, inspectable: bool) | Other

  type Tree = map<Parts, Node>

  predicate WellFormed(tree: Tree) {
    forall p | p in tree && p != [] :: p[..|p| - 1] in tree && tree[p[..|p| - 1]].Dir?
  }

  /** Nothing but itself is within the root directory. */
  predicate PathWithin(root: Parts, path: Parts) { root == path || (root != [] && root <= path) }

  predicate EndsWith(s: string, suffix: string) { |suffix| <= |s| && s[|s| - |suffix|..] == suffix }

  datatype Hit = Hit(target: Target, path: Parts)

  /** Everything a directory scan depends on. */
  datatype Scope = Scope(
    tree: Tree,
    targets: set<Target>,
    objectTargets: map<string, Target>,
    internalRoots: seq<Parts>,
    indexedRoots: seq<Parts>,
    home: Parts,
    homeNames: set<string>,
    names: set<string>)
  {
    predicate IsDir(d: Parts) { d in tree && tree[d].Dir? }

    predicate Readable(d: Parts) { d in tree && tree[d].Dir? && tree[d].readable }

    predicate Internal(path: Parts) { exists i | 0 <= i < |internalRoots| :: PathWithin(internalRoots[i], path) }

    predicate Covered(path: Parts) { exists i | 0 <= i < |indexedRoots| :: PathWithin(indexedRoots[i], path) }

    /** Dependency stores, caches and bundles, skipped at the price of completeness. */
    predicate Excluded(d: Parts)
      requires d != []
    {
      var name := d[|d| - 1];
      (d[..|d| - 1] == home && name in homeNames) || name in names
      || EndsWith(name, ".app") || EndsWith(name, ".dsym") || EndsWith(name, ".framework") || EndsWith(name, ".xcarchive")
    }

    predicate Skips(d: Parts)
      requires d != []
    {
      Internal(d) || Covered(d) || Excluded(d)
    }

    /** Leaves out a directory that no other scan covers. */
    predicate Misses(d: Parts)
      requires d != []
    {
      !Internal(d) && !Covered(d) && Excluded(d)
    }

    /** The name a link's target is indexed under: itself, or the object's current target. */
    function IndexTarget(target: Target): Option<Target> {
      if target in targets then Some(target)
      else if target.ByID? && target.id in objectTargets then Some(objectTargets[target.id])
      else None
    }

    /** The path is a readable link to something the search tracks. */
    predicate Links(p: Parts, target: Target) {
      p in tree && tree[p].Link? && tree[p].inspectable && IndexTarget(tree[p].target) == Some(target)
    }

    // What scanning one directory yields.

    predicate ChildOf(p: Parts, d: Parts) { p in tree && |p| == |d| + 1 && p[..|d|] == d }

    predicate Descends(p: Parts, d: Parts) { ChildOf(p, d) && tree[p].Dir? && !Skips(p) }

    function SubdirectoriesOf(d: Parts): set<Parts> {
      if Readable(d) then set p | p in tree && Descends(p, d) else {}
    }

    function HitsOf(d: Parts): set<Hit> {
      if !Readable(d) then {}
      else set p | p in tree && ChildOf(p, d) && tree[p].Link? && tree[p].inspectable && IndexTarget(tree[p].target).Some?
           :: Hit(IndexTarget(tree[p].target).value, p)
    }

    predicate Incomplete(d: Parts) {
      !Readable(d) || exists p | p in tree :: ChildOf(p, d) && tree[p].Dir? && Misses(p)
    }

    // What indexing a root yields.

    /** The traversal from `root` gets to `d`. */
    predicate Reaches(root: Parts, d: Parts)
      decreases |d|
    {
      d == root
      || (|root| < |d| && Readable(d[..|d| - 1]) && Descends(d, d[..|d| - 1]) && Reaches(root, d[..|d| - 1]))
    }

    predicate FoundFrom(root: Parts, h: Hit) {
      h.path != [] && Reaches(root, h.path[..|h.path| - 1]) && h in HitsOf(h.path[..|h.path| - 1])
    }

    predicate CompleteFrom(root: Parts) {
      forall d | d in tree.Keys + {root} :: Reaches(root, d) ==> !Incomplete(d)
    }
  }

  datatype ScanResult = ScanResult(directory: Parts, directories: seq<Parts>, hits: set<Hit>, incomplete: bool)

  predicate ScanIsRight(s: Scope, r: ScanResult) {
    && NoDuplicates(r.directories) && (set p | p in r.directories) == s.SubdirectoriesOf(r.directory)
    && r.hits == s.HitsOf(r.directory) && r.incomplete == s.Incomplete(r.directory)
  }

  predicate NoDuplicates(q: seq<Parts>) { forall i, j | 0 <= i < j < |q| :: q[i] != q[j] }

  /** `shouldSkipDirectory`. */
  method ShouldSkipDirectory(s: Scope, path: Parts) returns (skip: bool, incomplete: bool)
    requires path != []
    ensures skip == s.Skips(path) && incomplete == s.Misses(path)
  {
    if s.Internal(path) || s.Covered(path) { return true, false; }
    skip := s.Excluded(path);
    incomplete := skip;
  }

  /** The result after the entries in `done`. */
  ghost predicate ScannedSoFar(s: Scope, r: ScanResult, done: set<Parts>)
    requires forall p | p in done :: s.ChildOf(p, r.directory)
  {
    && NoDuplicates(r.directories)
    && (forall p :: p in r.directories <==> p in done && s.Descends(p, r.directory))
    && (forall h :: h in r.hits <==> h.path in done && s.Links(h.path, h.target))
    && (r.incomplete <==> exists p | p in done :: s.tree[p].Dir? && s.Misses(p))
  }

  lemma EntryExtendsScan(s: Scope, r: ScanResult, after: ScanResult, done: set<Parts>, p: Parts)
    requires (forall q | q in done :: s.ChildOf(q, r.directory)) && s.ChildOf(p, r.directory)
    requires ScannedSoFar(s, r, done) && p !in done && after.directory == r.directory
    requires after.directories == if s.Descends(p, r.directory) then r.directories + [p] else r.directories
    requires forall h :: h in after.hits <==> h in r.hits || (h.path == p && s.Links(p, h.target))
    requires after.incomplete == (r.incomplete || (s.tree[p].Dir? && s.Misses(p)))
    ensures ScannedSoFar(s, after, done + {p})
  {
  }

  lemma WholeScanIsRight(s: Scope, r: ScanResult, done: set<Parts>)
    requires s.Readable(r.directory) && done == set p | p in s.tree && s.ChildOf(p, r.directory)
    requires ScannedSoFar(s, r, done)
    ensures ScanIsRight(s, r)
  {
    assert (set p | p in r.directories) == s.SubdirectoriesOf(r.directory);
    forall h ensures h in r.hits <==> h in s.HitsOf(r.directory) {
    }
  }

  /** `scanDirectory`, visiting the entries in any order. */
  method ScanDirectory(s: Scope, directory: Parts) returns (r: ScanResult)
    ensures r.directory == directory && ScanIsRight(s, r)
  {
    r := ScanResult(directory, [], {}, true);
    if !s.Readable(directory) { return; }
    r := r.(incomplete := false);
    var todo := set p | p in s.tree && s.ChildOf(p, directory);
    ghost var all := todo;
    while todo != {}
      invariant todo <= all && r.directory == directory
      invariant ScannedSoFar(s, r, all - todo)
      decreases |todo|
    {
      var p :| p in todo;
      var after := ScanEntry(s, r, p);
      EntryExtendsScan(s, r, after, all - todo, p);
      assert all - (todo - {p}) == all - todo + {p};
      r, todo := after, todo - {p};
    }
    assert all - todo == all;
    WholeScanIsRight(s, r, all);
  }

  /** One entry of a directory listing. */
  method ScanEntry(s: Scope, r: ScanResult, p: Parts) returns (after: ScanResult)
    requires s.ChildOf(p, r.directory)
    ensures after.directory == r.directory
    ensures after.directories == if s.Descends(p, r.directory) then r.directories + [p] else r.directories
    ensures forall h :: h in after.hits <==> h in r.hits || (h.path == p && s.Links(p, h.target))
    ensures after.incomplete == (r.incomplete || (s.tree[p].Dir? && s.Misses(p)))
  {
    after := r;
    match s.tree[p]
    case Dir(_) =>
      var skip, incomplete := ShouldSkipDirectory(s, p);
      if incomplete { after := after.(incomplete := true); }
      if !skip { after := after.(directories := after.directories + [p]); }
    case Link(target, inspectable) =>
      if inspectable && s.IndexTarget(target).Some? {
        after := after.(hits := after.hits + {Hit(s.IndexTarget(target).value, p)});
      }
    case Other =>
  }

  // ------------------------------------------------------------ worker pool

  /** The coordinator's queue, what each busy worker does, and the result channel, which
      holds at most as many results as there are workers. */
  datatype Pool = Pool(
    queue: seq<Parts>, scanning: seq<Parts>, sending: seq<ScanResult>, results: seq<ScanResult>, active: nat)

  function Directories(rs: seq<ScanResult>): seq<Parts> { seq(|rs|, i requires 0 <= i < |rs| => rs[i].directory) }

  function Without<T>(q: seq<T>, i: nat): seq<T>
    requires i < |q|
  {
    q[..i] + q[i + 1..]
  }

  ghost function InFlight(pool: Pool): multiset<Parts> {
    multiset(pool.queue) + multiset(pool.scanning) + multiset(Directories(pool.sending)) + multiset(Directories(pool.results))
  }

  /** Found so far: the root and the subdirectories of the directories dealt with. */
  ghost predicate SeenFrom(s: Scope, root: Parts, seen: set<Parts>, done: set<Parts>) {
    && done <= seen
    && forall c :: c in seen <==>
         c == root || (|root| < |c| && c[..|c| - 1] in done && c in s.SubdirectoriesOf(c[..|c| - 1]))
  }

  /** Each directory found and not dealt with is in exactly one place, and never are more
      jobs out than there are workers. */
  ghost predicate PoolInv(s: Scope, root: Parts, workers: nat, pool: Pool, seen: set<Parts>, done: set<Parts>) {
    && pool.active == |pool.scanning| + |pool.sending| + |pool.results| <= workers
    && InFlight(pool) == multiset(seen - done)
    && SeenFrom(s, root, seen, done)
    && (forall d | d in seen :: s.Reaches(root, d) && |root| <= |d|)
    && (forall i | 0 <= i < |pool.sending| :: ScanIsRight(s, pool.sending[i]))
    && (forall i | 0 <= i < |pool.results| :: ScanIsRight(s, pool.results[i]))
  }

  ghost function Rank(s: Scope, root: Parts, pool: Pool, seen: set<Parts>): nat {
    5 * |s.tree.Keys + {root} - seen| + 4 * |pool.queue| + 3 * |pool.scanning| + 2 * |pool.sending| + |pool.results|
  }

  lemma WithoutOne<T>(q: seq<T>, i: nat)
    requires i < |q|
    ensures multiset(q) == multiset(Without(q, i)) + multiset{q[i]}
  {
    assert q == q[..i] + [q[i]] + q[i + 1..];
  }

  lemma DirectoriesWithoutOne(rs: seq<ScanResult>, i: nat)
    requires i < |rs|
    ensures multiset(Directories(rs)) == multiset(Directories(Without(rs, i))) + multiset{rs[i].directory}
  {
    assert Directories(Without(rs, i)) == Without(Directories(rs), i);
    WithoutOne(Directories(rs), i);
  }

  lemma DirectoriesWithOne(rs: seq<ScanResult>, r: ScanResult)
    ensures multiset(Directories(rs + [r])) == multiset(Directories(rs)) + multiset{r.directory}
  {
    assert Directories(rs + [r]) == Directories(rs) + [r.directory];
  }

  /** A sequence without duplicates is its set. */
  lemma {:induction false} DistinctIsSet(q: seq<Parts>)
    requires NoDuplicates(q)
    ensures multiset(q) == multiset(set p | p in q) && |set p | p in q| == |q|
  {
    if q != [] {
      var n := |q| - 1;
      DistinctIsSet(q[..n]);
      assert q == q[..n] + [q[n]];
      assert (set p | p in q) == (set p | p in q[..n]) + {q[n]};
      assert q[n] !in q[..n];
    } else {
      assert (set p | p in q) == {};
    }
  }

  lemma DispatchKeepsInv(s: Scope, root: Parts, workers: nat, pool: Pool, seen: set<Parts>, done: set<Parts>)
    requires PoolInv(s, root, workers, pool, seen, done) && pool.queue != [] && pool.active < workers
    ensures var after := pool.(queue := pool.queue[1..], scanning := pool.scanning + [pool.queue[0]], active := pool.active + 1);
            PoolInv(s, root, workers, after, seen, done) && Rank(s, root, after, seen) < Rank(s, root, pool, seen)
  {
    DispatchMovesFlight(pool);
  }

  lemma DispatchMovesFlight(pool: Pool)
    requires pool.queue != []
    ensures InFlight(pool.(queue := pool.queue[1..], scanning := pool.scanning + [pool.queue[0]], active := pool.active + 1)) == InFlight(pool)
  {
    assert pool.queue == [pool.queue[0]] + pool.queue[1..];
  }

  lemma FinishKeepsInv(s: Scope, root: Parts, workers: nat, pool: Pool, seen: set<Parts>, done: set<Parts>, i: nat, r: ScanResult)
    requires PoolInv(s, root, workers, pool, seen, done) && i < |pool.scanning|
    requires r.directory == pool.scanning[i] && ScanIsRight(s, r)
    ensures var after := pool.(scanning := Without(pool.scanning, i), sending := pool.sending + [r]);
            PoolInv(s, root, workers, after, seen, done) && Rank(s, root, after, seen) < Rank(s, root, pool, seen)
  {
    FinishMovesFlight(pool, i, r);
  }

  lemma FinishMovesFlight(pool: Pool, i: nat, r: ScanResult)
    requires i < |pool.scanning| && r.directory == pool.scanning[i]
    ensures InFlight(pool.(scanning := Without(pool.scanning, i), sending := pool.sending + [r])) == InFlight(pool)
  {
    WithoutOne(pool.scanning, i);
    DirectoriesWithOne(pool.sending, r);
  }

  lemma SendKeepsInv(s: Scope, root: Parts, workers: nat, pool: Pool, seen: set<Parts>, done: set<Parts>, i: nat)
    requires PoolInv(s, root, workers, pool, seen, done) && i < |pool.sending|
    ensures var after := pool.(sending := Without(pool.sending, i), results := pool.results + [pool.sending[i]]);
            PoolInv(s, root, workers, after, seen, done) && Rank(s, root, after, seen) < Rank(s, root, pool, seen)
  {
    SendMovesFlight(pool, i);
  }

  lemma SendMovesFlight(pool: Pool, i: nat)
    requires i < |pool.sending|
    ensures InFlight(pool.(sending := Without(pool.sending, i), results := pool.results + [pool.sending[i]])) == InFlight(pool)
  {
    DirectoriesWithoutOne(pool.sending, i);
    DirectoriesWithOne(pool.results, pool.sending[i]);
  }

  /** Subdirectories of a directory still out were not found before. */
  lemma SubdirectoriesAreNew(s: Scope, root: Parts, workers: nat, pool: Pool, seen: set<Parts>, done: set<Parts>)
    requires PoolInv(s, root, workers, pool, seen, done) && pool.results != []
    ensures var d := pool.results[0].directory;
            d in seen - done && s.SubdirectoriesOf(d) !! seen
  {
    var d := pool.results[0].directory;
    assert Directories(pool.results)[0] == d;
    assert d in InFlight(pool);
    NewBelow(s, root, seen, done, d);
  }

  lemma NewBelow(s: Scope, root: Parts, seen: set<Parts>, done: set<Parts>, d: Parts)
    requires SeenFrom(s, root, seen, done) && d !in done && |root| <= |d|
    ensures s.SubdirectoriesOf(d) !! seen
  {
    forall c | c in s.SubdirectoriesOf(d) ensures c !in seen {
      assert c[..|c| - 1] == d;
    }
  }

  ghost function Received(pool: Pool): Pool
    requires pool.results != [] && pool.active > 0
  {
    pool.(queue := pool.queue + pool.results[0].directories, results := pool.results[1..], active := pool.active - 1)
  }

  lemma ReceiveMovesFlight(s: Scope, root: Parts, workers: nat, pool: Pool, seen: set<Parts>, done: set<Parts>)
    requires PoolInv(s, root, workers, pool, seen, done) && pool.results != []
    ensures var d := pool.results[0].directory;
            InFlight(Received(pool)) == multiset((seen + s.SubdirectoriesOf(d)) - (done + {d}))
  {
    var d, more := pool.results[0].directory, s.SubdirectoriesOf(pool.results[0].directory);
    SubdirectoriesAreNew(s, root, workers, pool, seen, done);
    DistinctIsSet(pool.results[0].directories);
    ReceivedFlight(pool, more);
    FlightAsSet(seen, done, d, more);
  }

  lemma ReceivedFlight(pool: Pool, more: set<Parts>)
    requires pool.results != [] && pool.active > 0 && multiset(pool.results[0].directories) == multiset(more)
    ensures InFlight(Received(pool)) == InFlight(pool) - multiset{pool.results[0].directory} + multiset(more)
  {
    DirectoriesWithoutOne(pool.results, 0);
    assert Without(pool.results, 0) == pool.results[1..];
    assert multiset(pool.queue + pool.results[0].directories) == multiset(pool.queue) + multiset(more);
  }

  lemma FlightAsSet(seen: set<Parts>, done: set<Parts>, d: Parts, more: set<Parts>)
    requires done <= seen && d in seen - done && more !! seen
    ensures multiset((seen + more) - (done + {d})) == multiset(seen - done) - multiset{d} + multiset(more)
  {
  }

  lemma ReceiveExtendsSeen(s: Scope, root: Parts, seen: set<Parts>, done: set<Parts>, d: Parts)
    requires SeenFrom(s, root, seen, done) && d in seen && |root| <= |d|
    requires forall e | e in seen :: s.Reaches(root, e) && |root| <= |e|
    ensures SeenFrom(s, root, seen + s.SubdirectoriesOf(d), done + {d})
    ensures forall e | e in seen + s.SubdirectoriesOf(d) :: s.Reaches(root, e) && |root| <= |e|
  {
    forall c ensures c in seen + s.SubdirectoriesOf(d) <==>
        c == root || (|root| < |c| && c[..|c| - 1] in done + {d} && c in s.SubdirectoriesOf(c[..|c| - 1]))
    {
      if c in s.SubdirectoriesOf(d) { assert c[..|c| - 1] == d; }
    }
    forall e | e in s.SubdirectoriesOf(d) ensures s.Reaches(root, e) {
      assert e[..|e| - 1] == d;
    }
  }

  lemma ReceiveKeepsInv(s: Scope, root: Parts, workers: nat, pool: Pool, seen: set<Parts>, done: set<Parts>)
    requires PoolInv(s, root, workers, pool, seen, done) && pool.results != []
    ensures var d := pool.results[0].directory;
            PoolInv(s, root, workers, Received(pool), seen + s.SubdirectoriesOf(d), done + {d})
  {
    SubdirectoriesAreNew(s, root, workers, pool, seen, done);
    ReceiveMovesFlight(s, root, workers, pool, seen, done);
    ReceiveExtendsSeen(s, root, seen, done, pool.results[0].directory);
  }

  lemma ReceiveLowersRank(s: Scope, root: Parts, workers: nat, pool: Pool, seen: set<Parts>, done: set<Parts>)
    requires PoolInv(s, root, workers, pool, seen, done) && pool.results != []
    ensures Rank(s, root, Received(pool), seen + s.SubdirectoriesOf(pool.results[0].directory)) < Rank(s, root, pool, seen)
  {
    var more := s.SubdirectoriesOf(pool.results[0].directory);
    SubdirectoriesAreNew(s, root, workers, pool, seen, done);
    DistinctIsSet(pool.results[0].directories);
    var unseen := s.tree.Keys + {root} - seen;
    assert more <= unseen;
    assert s.tree.Keys + {root} - (seen + more) == unseen - more;
  }

  /** Once nothing is out, exactly the reachable directories were dealt with. */
  lemma {:induction false} FinishedReaches(s: Scope, root: Parts, done: set<Parts>, d: Parts)
    requires SeenFrom(s, root, done, done) && s.Reaches(root, d)
    ensures d in done
    decreases |d|
  {
    if d != root { FinishedReaches(s, root, done, d[..|d| - 1]); }
  }

  lemma FinishedPool(s: Scope, root: Parts, workers: nat, pool: Pool, seen: set<Parts>, done: set<Parts>)
    requires PoolInv(s, root, workers, pool, seen, done) && pool.queue == [] && pool.active == 0
    ensures forall d :: s.Reaches(root, d) <==> d in done
  {
    assert InFlight(pool) == multiset{};
    assert forall d :: d in seen - done <==> d in multiset(seen - done);
    assert seen == done;
    forall d | s.Reaches(root, d) ensures d in done { FinishedReaches(s, root, done, d); }
  }

  ghost predicate HitsAdded(s: Scope, before: set<Hit>, after: set<Hit>, done: set<Parts>) {
    forall h :: h in after <==>
      h in before || (h.path != [] && h.path[..|h.path| - 1] in done && h in s.HitsOf(h.path[..|h.path| - 1]))
  }

  lemma HitsGrow(s: Scope, before: set<Hit>, after: set<Hit>, done: set<Parts>, d: Parts)
    requires HitsAdded(s, before, after, done)
    ensures HitsAdded(s, before, after + s.HitsOf(d), done + {d})
  {
    forall h ensures h in after + s.HitsOf(d) <==>
        h in before || (h.path != [] && h.path[..|h.path| - 1] in done + {d} && h in s.HitsOf(h.path[..|h.path| - 1]))
    {
      if h in s.HitsOf(d) { assert h.path[..|h.path| - 1] == d; }
    }
  }

  /** The coordinator hands the next directory to a free worker. */
  method Dispatch(s: Scope, root: Parts, workers: nat, pool: Pool, ghost seen: set<Parts>, ghost done: set<Parts>)
    returns (after: Pool)
    requires PoolInv(s, root, workers, pool, seen, done) && pool.queue != [] && pool.active < workers
    ensures PoolInv(s, root, workers, after, seen, done) && Rank(s, root, after, seen) < Rank(s, root, pool, seen)
  {
    DispatchKeepsInv(s, root, workers, pool, seen, done);
    after := pool.(queue := pool.queue[1..], scanning := pool.scanning + [pool.queue[0]], active := pool.active + 1);
  }

  /** Any busy worker finishes its scan. */
  method FinishScan(s: Scope, root: Parts, workers: nat, pool: Pool, ghost seen: set<Parts>, ghost done: set<Parts>)
    returns (after: Pool)
    requires PoolInv(s, root, workers, pool, seen, done) && pool.scanning != []
    ensures PoolInv(s, root, workers, after, seen, done) && Rank(s, root, after, seen) < Rank(s, root, pool, seen)
  {
    var i :| 0 <= i < |pool.scanning|;
    var result := ScanDirectory(s, pool.scanning[i]);
    FinishKeepsInv(s, root, workers, pool, seen, done, i, result);
    after := pool.(scanning := Without(pool.scanning, i), sending := pool.sending + [result]);
  }

  /** Any finished worker delivers its result. */
  method SendResult(s: Scope, root: Parts, workers: nat, pool: Pool, ghost seen: set<Parts>, ghost done: set<Parts>)
    returns (after: Pool)
    requires PoolInv(s, root, workers, pool, seen, done) && pool.sending != []
    ensures PoolInv(s, root, workers, after, seen, done) && Rank(s, root, after, seen) < Rank(s, root, pool, seen)
  {
    var i :| 0 <= i < |pool.sending|;
    SendKeepsInv(s, root, workers, pool, seen, done, i);
    after := pool.(sending := Without(pool.sending, i), results := pool.results + [pool.sending[i]]);
  }

  // ------------------------------------------------------------ completeness

  /** Every link below `root`, outside the vault and the mount, is in the index. */
  ghost predicate AllFound(s: Scope, hits: set<Hit>, root: Parts) {
    forall p, t | root <= p && root != p && s.Links(p, t) && !s.Internal(p) :: Hit(t, p) in hits
  }

  /** With nothing left out, each directory above an outside link is reached, or was covered
      when an earlier root was indexed. */
  lemma {:induction false} AncestorReachedOrCovered(s: Scope, root: Parts, p: Parts, k: nat)
    requires WellFormed(s.tree) && s.CompleteFrom(root) && root in s.tree
    requires p in s.tree && root <= p && |root| <= k < |p| && !s.Internal(p)
    ensures s.IsDir(p[..k]) && (s.Reaches(root, p[..k]) || s.Covered(p[..k]))
    decreases k
  {
    AncestorIsDir(s.tree, p, k);
    var d := p[..k];
    if k > |root| {
      AncestorReachedOrCovered(s, root, p, k - 1);
      var up := p[..k - 1];
      assert d[..|d| - 1] == up;
      if s.Reaches(root, up) {
        assert !s.Incomplete(up) && s.ChildOf(d, up);
        NotInternalAbove(s, p, k);
      } else {
        var i :| 0 <= i < |s.indexedRoots| && PathWithin(s.indexedRoots[i], up);
        assert PathWithin(s.indexedRoots[i], d);
      }
    }
  }

  lemma NotInternalAbove(s: Scope, p: Parts, k: nat)
    requires !s.Internal(p) && 0 < k <= |p|
    ensures !s.Internal(p[..k])
  {
  }

  lemma {:induction false} AncestorIsDir(tree: Tree, p: Parts, k: nat)
    requires WellFormed(tree) && p in tree && k < |p|
    ensures p[..k] in tree && tree[p[..k]].Dir?
    decreases |p| - k
  {
    if k < |p| - 1 {
      AncestorIsDir(tree, p, k + 1);
      assert p[..k + 1][..k] == p[..k];
    }
  }

  /** Indexing a root without missing anything finds every outside link below it. */
  lemma CompleteRootIsFound(s: Scope, hits: set<Hit>, root: Parts)
    requires WellFormed(s.tree) && s.CompleteFrom(root)
    requires forall h | s.FoundFrom(root, h) :: h in hits
    requires AllRootsFound(s, hits)
    ensures AllFound(s, hits, root)
  {
    forall p, t | root <= p && root != p && s.Links(p, t) && !s.Internal(p) ensures Hit(t, p) in hits {
      LinkBelowIsFound(s, hits, root, p, t);
    }
  }

  lemma LinkBelowIsFound(s: Scope, hits: set<Hit>, root: Parts, p: Parts, t: Target)
    requires WellFormed(s.tree) && s.CompleteFrom(root) && root <= p && root != p && s.Links(p, t) && !s.Internal(p)
    requires forall h | s.FoundFrom(root, h) :: h in hits
    requires AllRootsFound(s, hits)
    ensures Hit(t, p) in hits
  {
    var up := p[..|p| - 1];
    PrefixIsThere(s.tree, root, p);
    AncestorReachedOrCovered(s, root, p, |p| - 1);
    if s.Reaches(root, up) {
      assert !s.Incomplete(up) && s.ChildOf(p, up);
      assert s.FoundFrom(root, Hit(t, p));
    } else {
      var i :| 0 <= i < |s.indexedRoots| && PathWithin(s.indexedRoots[i], up);
      assert AllFound(s, hits, s.indexedRoots[i]);
    }
  }

  /** Nothing is below a root that is not there. */
  lemma AbsentRootIsFound(s: Scope, hits: set<Hit>, root: Parts)
    requires WellFormed(s.tree) && root !in s.tree
    ensures AllFound(s, hits, root)
  {
    forall p | p in s.tree ensures !(root <= p && root != p) {
      if root <= p && root != p { PrefixIsThere(s.tree, root, p); }
    }
  }

  lemma PrefixIsThere(tree: Tree, root: Parts, p: Parts)
    requires WellFormed(tree) && p in tree && root <= p && root != p
    ensures root in tree
  {
    AncestorIsDir(tree, p, |root|);
    assert p[..|root|] == root;
  }

  ghost predicate AllRootsFound(s: Scope, hits: set<Hit>) {
    forall q | q in s.indexedRoots :: AllFound(s, hits, q)
  }

  lemma FoundCarriesOver(s: Scope, longer: Scope, before: set<Hit>, after: set<Hit>, q: Parts)
    requires longer == s.(indexedRoots := longer.indexedRoots) && before <= after && AllFound(s, before, q)
    ensures AllFound(longer, after, q)
  {
    forall p, t | q <= p && q != p && longer.Links(p, t) && !longer.Internal(p) ensures Hit(t, p) in after {
      assert s.Links(p, t) && !s.Internal(p);
    }
  }

  /** The index stays complete when one more root was indexed or is not there. */
  lemma IndexStaysComplete(s: Scope, before: set<Hit>, after: set<Hit>, root: Parts)
    requires WellFormed(s.tree) && before <= after && AllRootsFound(s, before)
    requires root in s.tree ==> s.CompleteFrom(root) && forall h | s.FoundFrom(root, h) :: h in after
    ensures AllRootsFound(s.(indexedRoots := s.indexedRoots + [root]), after)
  {
    var longer := s.(indexedRoots := s.indexedRoots + [root]);
    forall q | q in s.indexedRoots ensures AllFound(s, after, q) { FoundCarriesOver(s, s, before, after, q); }
    if root in s.tree { CompleteRootIsFound(s, after, root); } else { AbsentRootIsFound(s, after, root); }
    forall q | q in longer.indexedRoots ensures AllFound(longer, after, q) {
      FoundCarriesOver(s, longer, after, after, q);
    }
  }

  /** What is found is true. */
  ghost predicate AllTrue(s: Scope, hits: set<Hit>) { forall h | h in hits :: s.Links(h.path, h.target) }

  lemma HitsAreTrue(s: Scope, before: set<Hit>, after: set<Hit>, root: Parts)
    requires AllTrue(s, before)
    requires forall h :: h in after <==> h in before || s.FoundFrom(root, h)
    ensures AllTrue(s.(indexedRoots := s.indexedRoots + [root]), after)
  {
    var longer := s.(indexedRoots := s.indexedRoots + [root]);
    forall h | h in after ensures longer.Links(h.path, h.target) {
      assert s.Links(h.path, h.target);
    }
  }

  datatype FindResult = NotFound | FoundAt(path: Parts) | Ambiguous | SearchFailed

  datatype StatResult = Present | NotThere | StatFailed

  /** How far a search got. */
  datatype Progress = Progress(scope: Scope, roots: seq<Parts>, workers: nat, byTarget: set<Hit>, nextRoot: nat,
                               comprehensive: bool, indexed: bool, failedRoots: set<Parts>, broken: set<Parts>)

  /** The index holds only true links, and while it is comprehensive all links below the roots
      indexed so far. */
  ghost predicate Sound(p: Progress) {
    && WellFormed(p.scope.tree) && p.workers >= 1 && p.nextRoot <= |p.roots| && (p.indexed ==> p.nextRoot == |p.roots|)
    && AllTrue(p.scope, p.byTarget)
    && (forall i | 0 <= i < p.nextRoot :: p.roots[i] in p.scope.indexedRoots || p.roots[i] in p.failedRoots)
    && (forall f | f in p.failedRoots :: f in p.roots)
    && (p.comprehensive ==> AllRootsFound(p.scope, p.byTarget))
  }

  /** No other link below any root outside the vault and the mount, except below the given roots. */
  ghost predicate NoOtherLink(s: Scope, roots: seq<Parts>, failed: set<Parts>, source: Parts, target: Target) {
    forall i, p | 0 <= i < |roots| && roots[i] !in failed && Below(roots[i], Absolute(p))
                  && s.Links(p, target) && !s.Internal(p) :: p == source
  }

  /** How a call of `find` leaves a search that was at `a`.  A link it returns is real.  An empty answer
      of a comprehensive search means there is no other link below any root, apart from roots that
      an earlier, failed call could not inspect. */
  ghost predicate Answers(a: Progress, b: Progress, source: Parts, target: Target, r: FindResult) {
    match r
    case FoundAt(path) =>
      Proceeds(a, b, source, target) && path != source && Shown(b, path, target) && OnlyThese(b.byTarget, source, path, target)
    case Ambiguous =>
      && Proceeds(a, b, source, target)
      && exists p, q :: p != q && p != source && q != source && Shown(b, p, target) && Shown(b, q, target)
    case NotFound =>
      && Proceeds(a, b, source, target) && b.indexed && OnlySource(b.byTarget, source, target)
      && (b.comprehensive ==> NoOtherLink(b.scope, b.roots, b.failedRoots, source, target))
    case SearchFailed =>
      && Advances(a, b) && a.nextRoot < b.nextRoot && b.failedRoots == a.failedRoots + {b.roots[b.nextRoot - 1]}
      && (MeetsBrokenRoot(a, source, target) ==> b.nextRoot == a.nextRoot + 1)
      && (b.nextRoot == a.nextRoot + 1 ==> SameIndex(a, b))
  }

  predicate Shown(p: Progress, path: Parts, target: Target) { Hit(target, path) in p.byTarget && p.scope.Links(path, target) }

  ghost predicate Advances(a: Progress, b: Progress) {
    && (b.comprehensive ==> a.comprehensive) && b.roots == a.roots && b.broken == a.broken
    && b.scope == a.scope.(indexedRoots := b.scope.indexedRoots) && a.nextRoot <= b.nextRoot <= |b.roots|
  }

  /** No root failed. */
  ghost predicate Proceeds(a: Progress, b: Progress, source: Parts, target: Target) {
    && Advances(a, b) && b.failedRoots == a.failedRoots && !MeetsBrokenRoot(a, source, target)
    && (b.nextRoot == a.nextRoot ==> SameIndex(a, b))
  }

  predicate SameIndex(a: Progress, b: Progress) { b.byTarget == a.byTarget && b.comprehensive == a.comprehensive }

  /** Nothing is indexed that would answer, and inspecting the next root is bound to fail. */
  ghost predicate MeetsBrokenRoot(p: Progress, source: Parts, target: Target) {
    p.nextRoot < |p.roots| && p.roots[p.nextRoot] in p.broken && OnlySource(p.byTarget, source, target)
  }

  ghost predicate OnlyThese(hits: set<Hit>, source: Parts, path: Parts, target: Target) {
    forall p :: Hit(target, p) in hits ==> p == source || p == path
  }

  ghost predicate OnlySource(hits: set<Hit>, source: Parts, target: Target) {
    forall p :: Hit(target, p) in hits ==> p == source
  }

  class MovedLinkSearch {
    const tree: Tree
    const targets: set<Target>
    const objectTargets: map<string, Target>
    const roots: seq<Parts>
    const internalRoots: seq<Parts>
    const home: Parts
    const homeNames: set<string>
    const names: set<string>
    const workers: nat
    const broken: set<Parts>  // inspecting these is bound to fail; inspecting any other root may
    var indexedRoots: seq<Parts>
    var byTarget: set<Hit>
    var nextRoot: nat
    var comprehensive: bool
    var indexed: bool
    ghost var failedRoots: set<Parts>

    constructor (scope: Scope, roots: seq<Parts>, global: bool, workers: nat, broken: set<Parts>)
      requires WellFormed(scope.tree) && workers >= 1
      ensures Valid()
      ensures tree == scope.tree && targets == scope.targets && objectTargets == scope.objectTargets
      ensures this.roots == roots && internalRoots == scope.internalRoots && this.workers == workers && this.broken == broken
      ensures home == scope.home && homeNames == scope.homeNames && names == scope.names
      ensures indexedRoots == [] && byTarget == {} && nextRoot == 0 && comprehensive == global && !indexed && failedRoots == {}
    {
      tree, targets, objectTargets := scope.tree, scope.targets, scope.objectTargets;
      this.roots, internalRoots, this.workers, this.broken := roots, scope.internalRoots, workers, broken;
      home, homeNames, names := scope.home, scope.homeNames, scope.names;
      indexedRoots, byTarget, nextRoot, comprehensive, indexed, failedRoots := [], {}, 0, global, false, {};
    }

    ghost function State(): Progress
      reads this
    {
      Progress(Current(), roots, workers, byTarget, nextRoot, comprehensive, indexed, failedRoots, broken)
    }

    ghost predicate Valid()
      reads this
    {
      Sound(State())
    }

    function Current(): Scope
      reads this
    {
      Scope(tree, targets, objectTargets, internalRoots, indexedRoots, home, homeNames, names)
    }

    method Stat(root: Parts) returns (r: StatResult)
      ensures r.Present? ==> root in tree
      ensures r.NotThere? ==> root !in tree
      ensures root in broken ==> r.StatFailed?
    {
      var failed: bool := *;
      r := if failed || root in broken then StatFailed else if root in tree then Present else NotThere;
    }

    /** `indexRoot`, for every schedule of the coordinator and its workers: some step is always
        enabled until the end, the loop ends, and what was found does not depend on the
        schedule. */
    method IndexRoot(root: Parts) returns (r: StatResult)
      requires workers >= 1
      modifies this`byTarget, this`comprehensive
      ensures r.Present? ==> root in tree
      ensures r.NotThere? ==> root !in tree
      ensures root in broken ==> r.StatFailed?
      ensures r.Present? ==> forall h :: h in byTarget <==> h in old(byTarget) || Current().FoundFrom(root, h)
      ensures r.Present? ==> (comprehensive <==> old(comprehensive) && Current().CompleteFrom(root))
      ensures !r.Present? ==> byTarget == old(byTarget) && comprehensive == old(comprehensive)
    {
      r := Stat(root);
      if !r.Present? { return; }
      var s := Current();
      var pool := Pool([root], [], [], [], 0);
      ghost var seen: set<Parts>, done: set<Parts> := {root}, {};
      InitialPool(s, root, workers);
      while pool.queue != [] || pool.active > 0
        modifies this`byTarget, this`comprehensive
        invariant PoolInv(s, root, workers, pool, seen, done)
        invariant HitsAdded(s, old(byTarget), byTarget, done)
        invariant comprehensive <==> old(comprehensive) && forall d | d in done :: !s.Incomplete(d)
        decreases Rank(s, root, pool, seen)
      {
        if
        case pool.queue != [] && pool.active < workers && |pool.scanning| + |pool.sending| < workers =>
          pool := Dispatch(s, root, workers, pool, seen, done);
        case !(pool.queue != [] && pool.active < workers) && pool.results != [] =>
          pool, seen, done := Receive(s, root, pool, seen, done, old(byTarget), old(comprehensive));
        case pool.scanning != [] =>
          pool := FinishScan(s, root, workers, pool, seen, done);
        case pool.sending != [] && |pool.results| < workers =>
          pool := SendResult(s, root, workers, pool, seen, done);
      }
      FinishedPool(s, root, workers, pool, seen, done);
    }

    /** The coordinator takes a finished result. */
    method Receive(s: Scope, root: Parts, pool: Pool, ghost seen: set<Parts>, ghost done: set<Parts>,
                   ghost hits: set<Hit>, ghost initially: bool)
      returns (after: Pool, ghost nowSeen: set<Parts>, ghost nowDone: set<Parts>)
      requires PoolInv(s, root, workers, pool, seen, done) && pool.results != []
      requires HitsAdded(s, hits, byTarget, done)
      requires comprehensive <==> initially && forall d | d in done :: !s.Incomplete(d)
      modifies this`byTarget, this`comprehensive
      ensures PoolInv(s, root, workers, after, nowSeen, nowDone)
      ensures Rank(s, root, after, nowSeen) < Rank(s, root, pool, seen)
      ensures HitsAdded(s, hits, byTarget, nowDone)
      ensures comprehensive <==> initially && forall d | d in nowDone :: !s.Incomplete(d)
    {
      var result := pool.results[0];
      ReceiveKeepsInv(s, root, workers, pool, seen, done);
      ReceiveLowersRank(s, root, workers, pool, seen, done);
      HitsGrow(s, hits, byTarget, done, result.directory);
      after := pool.(queue := pool.queue + result.directories, results := pool.results[1..], active := pool.active - 1);
      if result.incomplete { comprehensive := false; }
      byTarget := byTarget + result.hits;
      nowSeen, nowDone := seen + s.SubdirectoriesOf(result.directory), done + {result.directory};
    }

    /** `indexNextRoot`.  A root that could not be inspected is not tried again. */
    method IndexNextRoot() returns (ok: bool)
      requires Valid() && !indexed
      modifies this
      ensures Valid() && (comprehensive ==> old(comprehensive)) && old(byTarget) <= byTarget
      ensures ok ==> failedRoots == old(failedRoots)
      ensures ok ==> (indexed && nextRoot == old(nextRoot)) || nextRoot == old(nextRoot) + 1
      ensures nextRoot == old(nextRoot) ==> byTarget == old(byTarget) && comprehensive == old(comprehensive)
      ensures !ok ==> old(nextRoot) < |roots| && failedRoots == old(failedRoots) + {roots[old(nextRoot)]}
      ensures !ok ==> byTarget == old(byTarget) && comprehensive == old(comprehensive) && nextRoot == old(nextRoot) + 1
      ensures old(nextRoot) < |roots| && roots[old(nextRoot)] in broken ==> !ok
    {
      if nextRoot >= |roots| {
        indexed := true;
        return true;
      }
      var root := roots[nextRoot];
      nextRoot := nextRoot + 1;
      ok := AddRoot(root);
      if ok && nextRoot >= |roots| { indexed := true; }
    }

    /** Indexes a root, and remembers that it did. */
    method AddRoot(root: Parts) returns (ok: bool)
      requires WellFormed(tree) && workers >= 1 && AllTrue(Current(), byTarget)
      requires comprehensive ==> AllRootsFound(Current(), byTarget)
      modifies this`byTarget, this`comprehensive, this`indexedRoots, this`failedRoots
      ensures AllTrue(Current(), byTarget) && (comprehensive ==> AllRootsFound(Current(), byTarget))
      ensures (comprehensive ==> old(comprehensive)) && old(byTarget) <= byTarget
      ensures ok ==> indexedRoots == old(indexedRoots) + [root] && failedRoots == old(failedRoots)
      ensures !ok ==> indexedRoots == old(indexedRoots) && failedRoots == old(failedRoots) + {root}
      ensures !ok ==> byTarget == old(byTarget) && comprehensive == old(comprehensive)
      ensures root in broken ==> !ok
    {
      ghost var s, before := Current(), byTarget;
      var r := IndexRoot(root);
      if r.StatFailed? {
        failedRoots := failedRoots + {root};
        return false;
      }
      if comprehensive { IndexStaysComplete(s, before, byTarget, root); }
      if r.Present? { HitsAreTrue(s, before, byTarget, root); }
      indexedRoots := indexedRoots + [root];
      ok := true;
    }

    /** The candidates in the index, other than the registered path. */
    method Candidate(source: Parts, target: Target) returns (r: FindResult)
      ensures IsCandidate(byTarget, source, target, r)
    {
      r := NotFound;
      var todo := set h | h in byTarget && h.target == target;
      ghost var all := todo;
      while todo != {}
        invariant todo <= all && (r.NotFound? || r.FoundAt?)
        invariant r.NotFound? ==> forall h | h in all - todo :: h.path == source
        invariant r.FoundAt? ==> r.path != source && Hit(target, r.path) in all - todo
        invariant r.FoundAt? ==> forall h | h in all - todo :: h.path == source || h.path == r.path
        decreases |todo|
      {
        var h :| h in todo;
        todo := todo - {h};
        if h.path != source {
          if r.FoundAt? { return Ambiguous; }
          r := FoundAt(h.path);
        }
      }
      assert forall p :: Hit(target, p) in byTarget ==> Hit(target, p) in all;
    }

    /** `find`. */
    method Find(source: Parts, target: Target) returns (r: FindResult)
      requires Valid()
      modifies this
      ensures Valid() && Answers(old(State()), State(), source, target, r)
      ensures OneRootAtATime(old(State()), State(), source, target)
    {
      ghost var a := State();
      while true
        invariant Valid() && Searching(a, State()) && OneRootAtATime(a, State(), source, target)
        decreases !indexed, |roots| - nextRoot
      {
        r := Candidate(source, target);
        if !r.NotFound? || indexed {
          AnswerIsRight(a, State(), source, target, r);
          return;
        }
        ghost var b := State();
        var ok := IndexNextRoot();
        if !ok {
          FailureIsRight(a, b, State(), source, target);
          return SearchFailed;
        }
      }
    }

    lemma InitialPool(s: Scope, root: Parts, workers: nat)
      ensures PoolInv(s, root, workers, Pool([root], [], [], [], 0), {root}, {})
    {
      assert InFlight(Pool([root], [], [], [], 0)) == multiset({root} - {});
    }
  }

  /** A call indexes one more root only as long as the index does not answer. */
  ghost predicate OneRootAtATime(a: Progress, z: Progress, source: Parts, target: Target) {
    z == a || exists b :: Advances(a, b) && OnlySource(b.byTarget, source, target) && z.nextRoot <= b.nextRoot + 1
  }

  /** In the middle of a call. */
  ghost predicate Searching(a: Progress, b: Progress) {
    && Advances(a, b) && b.failedRoots == a.failedRoots && (b.nextRoot == a.nextRoot ==> SameIndex(a, b))
    && (a.nextRoot < |a.roots| && a.roots[a.nextRoot] in a.broken ==> b.nextRoot == a.nextRoot)
  }

  ghost predicate IsCandidate(hits: set<Hit>, source: Parts, target: Target, r: FindResult) {
    match r
    case NotFound => OnlySource(hits, source, target)
    case FoundAt(path) => path != source && Hit(target, path) in hits && OnlyThese(hits, source, path, target)
    case Ambiguous => exists p, q :: p != q && p != source && q != source && Hit(target, p) in hits && Hit(target, q) in hits
    case SearchFailed => false
  }

  lemma AnswerIsRight(a: Progress, b: Progress, source: Parts, target: Target, r: FindResult)
    requires Sound(b) && Searching(a, b) && IsCandidate(b.byTarget, source, target, r) && (r.NotFound? ==> b.indexed)
    ensures Answers(a, b, source, target, r)
  {
    match r
    case NotFound => if b.comprehensive { EmptyMeansAbsent(b, source, target); }
    case Ambiguous =>
      var p, q :| p != q && p != source && q != source && Hit(target, p) in b.byTarget && Hit(target, q) in b.byTarget;
      assert Shown(b, p, target) && Shown(b, q, target);
    case _ =>
  }

  lemma FailureIsRight(a: Progress, b: Progress, c: Progress, source: Parts, target: Target)
    requires Searching(a, b) && Advances(b, c) && SameIndex(b, c) && c.nextRoot == b.nextRoot + 1
    requires c.failedRoots == b.failedRoots + {b.roots[b.nextRoot]}
    ensures Answers(a, c, source, target, SearchFailed)
  {
  }

  lemma EmptyMeansAbsent(p: Progress, source: Parts, target: Target)
    requires Sound(p) && p.indexed && p.comprehensive && OnlySource(p.byTarget, source, target)
    ensures NoOtherLink(p.scope, p.roots, p.failedRoots, source, target)
  {
    forall i, q | 0 <= i < |p.roots| && p.roots[i] !in p.failedRoots && Below(p.roots[i], Absolute(q))
                  && p.scope.Links(q, target) && !p.scope.Internal(q)
      ensures q == source
    {
      assert AllFound(p.scope, p.byTarget, p.roots[i]);
    }
  }

  // -------------------------------------------------- when an empty answer is warranted

  /** The search has read everything below some indexed root. */
  predicate Read(s: Scope, q: Parts) { exists i | 0 <= i < |s.indexedRoots| :: s.indexedRoots[i] <= q }

  /** Everything below the path is in the vault or the mount. */
  predicate Inside(s: Scope, f: Parts) {
    exists i | 0 <= i < |s.internalRoots| :: s.internalRoots[i] != [] && s.internalRoots[i] <= f
  }

  /** A tree the search cannot tell from its own: they are the same wherever it has read. */
  ghost predicate Alike(s: Scope, tree: Tree) {
    WellFormed(tree) && forall q | Read(s, q) :: (q in tree <==> q in s.tree) && (q in tree ==> tree[q] == s.tree[q])
  }

  /** The empty answer is right, whichever of these trees is the real one. */
  ghost predicate Warranted(p: Progress, source: Parts, target: Target) {
    forall tree | Alike(p.scope, tree) :: NoOtherLink(p.scope.(tree := tree), p.roots, {}, source, target)
  }

  /** The exact condition: a comprehensive, empty answer is warranted if and only if every root whose
      inspection failed in an earlier call lies below an indexed root, or inside the vault or the
      mount. */
  lemma EmptyAnswerWarrantedIff(p: Progress, source: Parts, target: Target)
    requires Sound(p) && p.indexed && p.comprehensive && OnlySource(p.byTarget, source, target) && target in p.scope.targets
    ensures Warranted(p, source, target) <==> forall f | f in p.failedRoots :: Read(p.scope, f) || Inside(p.scope, f)
  {
    if forall f | f in p.failedRoots :: Read(p.scope, f) || Inside(p.scope, f) {
      forall tree | Alike(p.scope, tree) ensures NoOtherLink(p.scope.(tree := tree), p.roots, {}, source, target) {
        ReadRootsAreClear(p, source, target, tree);
      }
    } else {
      var f :| f in p.failedRoots && !Read(p.scope, f) && !Inside(p.scope, f);
      UnreadRootCanHideLink(p, source, target, f);
    }
  }

  /** In particular if no earlier call failed. */
  lemma EmptyAnswerIsRightWithoutFailures(p: Progress, source: Parts, target: Target)
    requires Sound(p) && p.indexed && p.comprehensive && OnlySource(p.byTarget, source, target) && p.failedRoots == {}
    ensures NoOtherLink(p.scope, p.roots, {}, source, target)
  {
    EmptyMeansAbsent(p, source, target);
  }

  lemma ReadRootsAreClear(p: Progress, source: Parts, target: Target, tree: Tree)
    requires Sound(p) && p.indexed && p.comprehensive && OnlySource(p.byTarget, source, target) && Alike(p.scope, tree)
    requires forall f | f in p.failedRoots :: Read(p.scope, f) || Inside(p.scope, f)
    ensures NoOtherLink(p.scope.(tree := tree), p.roots, {}, source, target)
  {
    var s := p.scope.(tree := tree);
    forall i, q | 0 <= i < |p.roots| && p.roots[i] !in {} && Below(p.roots[i], Absolute(q)) && s.Links(q, target) && !s.Internal(q)
      ensures q == source
    {
      RootIsReadOrInside(p, i);
      assert p.scope.Internal(q) <==> s.Internal(q);
      if Read(p.scope, p.roots[i]) {
        LinkReadIsFound(p, source, target, tree, p.roots[i], q);
      } else {
        InsideIsInternal(p.scope, p.roots[i], q);
      }
    }
  }

  lemma RootIsReadOrInside(p: Progress, i: nat)
    requires Sound(p) && p.indexed && i < |p.roots|
    requires forall f | f in p.failedRoots :: Read(p.scope, f) || Inside(p.scope, f)
    ensures Read(p.scope, p.roots[i]) || Inside(p.scope, p.roots[i])
  {
    if p.roots[i] in p.scope.indexedRoots {
      var k :| 0 <= k < |p.scope.indexedRoots| && p.scope.indexedRoots[k] == p.roots[i];
      assert p.scope.indexedRoots[k] <= p.roots[i];
    }
  }

  lemma LinkReadIsFound(p: Progress, source: Parts, target: Target, tree: Tree, root: Parts, q: Parts)
    requires Sound(p) && p.comprehensive && OnlySource(p.byTarget, source, target) && Alike(p.scope, tree)
    requires Read(p.scope, root) && Below(root, Absolute(q))
    requires p.scope.(tree := tree).Links(q, target) && !p.scope.Internal(q)
    ensures q == source
  {
    var k :| 0 <= k < |p.scope.indexedRoots| && p.scope.indexedRoots[k] <= root;
    assert p.scope.indexedRoots[k] <= q && p.scope.indexedRoots[k] != q;
    assert Read(p.scope, q) && p.scope.Links(q, target);
    assert AllFound(p.scope, p.byTarget, p.scope.indexedRoots[k]);
  }

  lemma InsideIsInternal(s: Scope, f: Parts, q: Parts)
    requires Inside(s, f) && f <= q
    ensures s.Internal(q)
  {
    var i :| 0 <= i < |s.internalRoots| && s.internalRoots[i] != [] && s.internalRoots[i] <= f;
    assert PathWithin(s.internalRoots[i], q);
  }

  /** A string longer than all of a finite set. */
  lemma LongerString(used: set<string>) returns (name: string)
    ensures forall s | s in used :: |s| < |name|
    decreases |used|
  {
    name := "x";
    if used != {} {
      var s :| s in used;
      var rest := LongerString(used - {s});
      name := rest + s + "x";
    }
  }

  /** The tree with a link below `f`, and directories above it. */
  function WithHiddenLink(tree: Tree, f: Parts, name: string, target: Target): Tree {
    tree + (map q | q in Ancestry(f) :: Dir(true)) + map[f + [name] := Link(target, true)]
  }

  function Ancestry(f: Parts): set<Parts> { set k | 0 <= k <= |f| :: f[..k] }

  lemma HiddenLinkIsWellFormed(tree: Tree, f: Parts, name: string, target: Target)
    requires WellFormed(tree) && forall q | q in tree :: !(f + [name] <= q)
    ensures WellFormed(WithHiddenLink(tree, f, name, target))
  {
    var t, link := WithHiddenLink(tree, f, name, target), f + [name];
    forall q | q in t && q != [] ensures q[..|q| - 1] in t && t[q[..|q| - 1]].Dir? {
      var up := q[..|q| - 1];
      if q == link {
        assert up == f && f[..|f|] == f;
      } else if q in Ancestry(f) {
        var k :| 0 <= k <= |f| && q == f[..k];
        assert up == f[..k - 1];
      } else {
        assert up != link;
      }
    }
  }

  /** Otherwise the link may be where nobody looked: there is such a tree. */
  lemma UnreadRootCanHideLink(p: Progress, source: Parts, target: Target, f: Parts)
    requires Sound(p) && f in p.failedRoots && !Read(p.scope, f) && !Inside(p.scope, f) && target in p.scope.targets
    ensures !Warranted(p, source, target)
  {
    var name := FreshBelow(p.scope, source, f);
    HiddenLinkIsWellFormed(p.scope.tree, f, name, target);
    HiddenLinkIsAlike(p.scope, f, name, target);
    HiddenLinkRefutes(p, source, target, f, name);
  }

  lemma HiddenLinkRefutes(p: Progress, source: Parts, target: Target, f: Parts, name: string)
    requires f in p.roots && !Inside(p.scope, f) && target in p.scope.targets && f + [name] != source
    requires forall r | r in p.scope.internalRoots :: !(f + [name] <= r)
    ensures !NoOtherLink(p.scope.(tree := WithHiddenLink(p.scope.tree, f, name, target)), p.roots, {}, source, target)
  {
    var s := p.scope.(tree := WithHiddenLink(p.scope.tree, f, name, target));
    HiddenLinkIsOutside(s, f, name);
    var i :| 0 <= i < |p.roots| && p.roots[i] == f;
    assert p.roots[i] !in {} && Below(p.roots[i], Absolute(f + [name])) && s.Links(f + [name], target);
  }

  /** A name for a new entry below `f`. */
  lemma FreshBelow(s: Scope, source: Parts, f: Parts) returns (name: string)
    ensures (forall r | r in s.tree :: !(f + [name] <= r)) && !(f + [name] <= source)
    ensures (forall r | r in s.internalRoots :: !(f + [name] <= r)) && (forall r | r in s.indexedRoots :: !(f + [name] <= r))
  {
    var paths := s.tree.Keys + (set q | q in s.internalRoots) + (set q | q in s.indexedRoots) + {source};
    name := LongerString(LastNames(paths));
    forall r | r in paths ensures !(f + [name] <= r) { NameIsUsed(paths, r, |f|); }
    forall r | r in s.internalRoots ensures !(f + [name] <= r) { assert r in paths; }
    forall r | r in s.indexedRoots ensures !(f + [name] <= r) { assert r in paths; }
  }

  function LastNames(paths: set<Parts>): set<string> {
    set q, k | q in paths && 0 <= k < |q| :: q[k]
  }

  lemma NameIsUsed(paths: set<Parts>, q: Parts, k: nat)
    requires q in paths
    ensures k < |q| ==> q[k] in LastNames(paths)
  {
  }

  lemma AboveIsUnread(s: Scope, f: Parts, q: Parts)
    requires !Read(s, f) && q <= f
    ensures !Read(s, q)
  {
    assert forall i | 0 <= i < |s.indexedRoots| :: s.indexedRoots[i] <= q ==> s.indexedRoots[i] <= f;
  }

  lemma HiddenLinkIsUnread(s: Scope, f: Parts, name: string)
    requires !Read(s, f) && forall r | r in s.indexedRoots :: !(f + [name] <= r)
    ensures !Read(s, f + [name])
  {
    forall i | 0 <= i < |s.indexedRoots| ensures !(s.indexedRoots[i] <= f + [name]) {
      var r := s.indexedRoots[i];
      assert r in s.indexedRoots && (r <= f + [name] ==> r == f + [name] || r <= f);
    }
  }

  lemma HiddenLinkIsAlike(s: Scope, f: Parts, name: string, target: Target)
    requires !Read(s, f) && WellFormed(WithHiddenLink(s.tree, f, name, target))
    requires forall r | r in s.indexedRoots :: !(f + [name] <= r)
    ensures Alike(s, WithHiddenLink(s.tree, f, name, target))
  {
    HiddenLinkIsUnread(s, f, name);
    forall q | q in Ancestry(f) ensures !Read(s, q) { AboveIsUnread(s, f, q); }
  }

  lemma HiddenLinkIsOutside(s: Scope, f: Parts, name: string)
    requires !Inside(s, f) && forall r | r in s.internalRoots :: !(f + [name] <= r)
    ensures !s.Internal(f + [name])
  {
    var q := f + [name];
    forall i | 0 <= i < |s.internalRoots| ensures !PathWithin(s.internalRoots[i], q) {
      var r := s.internalRoots[i];
      assert r in s.internalRoots && (r <= q ==> r == q || r <= f);
    }
  }

  function OneMovedLink(): Scope {
    var target := ByID(["mount"], "x");
    Scope(map[[] := Dir(true), ["home"] := Dir(true), ["home", "new"] := Link(target, true)], {target}, map[], [], [], [], {}, {})
  }

  lemma OneMovedLinkIsThere()
    ensures WellFormed(OneMovedLink().tree)
    ensures OneMovedLink().Links(["home", "new"], ByID(["mount"], "x")) && Below(["home"], Absolute(["home", "new"]))
  {
    var tree := OneMovedLink().tree;
    assert ["home"][..0] == [] && ["home", "new"][..1] == ["home"];
  }

  /** The exception is real.  One root holds the moved link, and inspecting it fails.  The first
      call reports that; the second then answers that there is no other link, and the search
      still counts as comprehensive. */
  method FailedRootIsForgotten(search: MovedLinkSearch) returns (first: FindResult, second: FindResult)
    requires search.Current() == OneMovedLink() && search.roots == [["home"]] && search.workers >= 1
    requires search.nextRoot == 0 && search.byTarget == {} && search.comprehensive && !search.indexed && search.failedRoots == {}
    requires ["home"] in search.broken
    modifies search
    ensures first.SearchFailed? && second.NotFound? && search.comprehensive
  {
    OneMovedLinkIsThere();
    var target := ByID(["mount"], "x");
    first := search.Find(["home", "old"], target);
    second := search.Find(["home", "old"], target);
  }
}
