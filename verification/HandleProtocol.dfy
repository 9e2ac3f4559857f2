/** The lock protocol behind open file handles.

  Every operation of a volume is a thread that goes through the phases below.
  Opening takes the namespace lock for reading, registers on the
  reference-counted lock entry of its path, and takes that entry's mutex.  A
  handle carries the path mutex until it is closed, and a writable one carries
  the namespace lock as well.  Unlink, purge and administration take the
  namespace lock exclusively.

  The mutexes are modelled as the bare counters they are: nothing in a mutex
  says who holds it, and releasing one that is not held is recorded as a panic.
*/
module HandleProtocol {
  import opened Optional

  type Bytes = seq<int>
  type Key = string
  type Tid = nat
  type EntryId = nat

  /** A reader/writer mutex without ownership. */
  datatype RWMutex = RWMutex(readers: int, writer: bool)

  /** `pathLockEntry`: a mutex and the number of its registered users. */
  datatype LockEntry = LockEntry(users: int, mutex: RWMutex)

  datatype Request =
    | Open(key: Key, writable: bool, truncate: bool)
    | Create(key: Key, writable: bool, truncate: bool)
    | Chmod(key: Key)
    | Unlink(key: Key)
    | Purge(key: Key)
    | Administer
  {
    /** Operations that need the namespace for themselves. */
    predicate Exclusive() { Unlink? || Purge? || Administer? }

    /** Operations that take the path mutex for writing. */
    predicate WritesPath() { (Open? && writable) || Create? || Chmod? || Purge? }

    /** Operations that take a path mutex at all. */
    predicate LocksPath() { Open? || Create? || Chmod? || Purge? }
  }

  datatype Phase =
    | Entered                                         // namespace lock held, nothing else yet
    | Waiting(entry: EntryId)                         // registered as a user, mutex not taken
    | Loading(entry: EntryId)                         // mutex taken, file being loaded or changed
    | Handle(entry: EntryId, data: Bytes, dirty: bool)  // an open handle
    | Unlocking(entry: EntryId)                       // mutex about to be released
    | Unregistering(entry: EntryId)                   // mutex released, still counted as a user
    | Leaving                                         // only the namespace lock is left

  /** A thread; `namespace` says whether it still has to release that lock. */
  datatype Thread = Thread(request: Request, phase: Phase, namespace: bool)

  datatype State = State(
    threads: map<Tid, Thread>,
    namespace: RWMutex,
    table: map<Key, EntryId>,
    entries: map<EntryId, LockEntry>,
    store: map<Key, Bytes>,
    limit: nat,
    panicked: bool)

  datatype Action =
    | Begin(request: Request)
    | Register
    | Acquire
    | GiveUp
    | Load(outcome: Option<Phase>)
    | Modify(data: Bytes)
    | Touch
    | Flush(persisted: bool, failed: bool)
    | Close(persisted: bool, failed: bool)
    | UnlockPath
    | Unregister
    | Leave
    | Remove(removed: bool)
    | Reconfigure(limit: nat, store: map<Key, Bytes>)

  // ---------------------------------------------------------------- mutexes

  predicate CanLock(m: RWMutex, write: bool) {
    if write then m.readers == 0 && !m.writer else !m.writer
  }

  function Locked(m: RWMutex, write: bool): RWMutex {
    if write then m.(writer := true) else m.(readers := m.readers + 1)
  }

  predicate ReleasePanics(m: RWMutex, write: bool) {
    if write then !m.writer else m.readers <= 0
  }

  function Released(m: RWMutex, write: bool): RWMutex {
    if write then m.(writer := false) else m.(readers := m.readers - 1)
  }

  // ------------------------------------------------------------- transitions

  predicate Writable(r: Request) { (r.Open? || r.Create?) && r.writable }

  /** Registered users of an entry are the threads that may still touch it. */
  predicate Registered(phase: Phase) {
    phase.Waiting? || phase.Loading? || phase.Handle? || phase.Unlocking? || phase.Unregistering?
  }

  predicate HoldsMutex(phase: Phase) {
    phase.Loading? || phase.Handle? || phase.Unlocking?
  }

  function With(s: State, t: Tid, th: Thread): State {
    s.(threads := s.threads[t := th])
  }

  /** `RLock`/`TryLock` of the namespace.  Blocked and refused attempts change nothing. */
  ghost predicate BeginStep(s: State, s': State, t: Tid, r: Request) {
    && t !in s.threads
    && CanLock(s.namespace, r.Exclusive())
    && s' == With(s, t, Thread(r, Entered, true)).(namespace := Locked(s.namespace, r.Exclusive()))
  }

  ghost predicate MayRegister(s: State, t: Tid) {
    t in s.threads && s.threads[t].phase == Entered && s.threads[t].request.LocksPath()
  }

  function Joined(s: State, t: Tid, e: EntryId): State
    requires MayRegister(s, t) && e in s.entries
  {
    With(s, t, s.threads[t].(phase := Waiting(e)))
      .(entries := s.entries[e := s.entries[e].(users := s.entries[e].users + 1)])
  }

  function Added(s: State, t: Tid, e: EntryId): State
    requires MayRegister(s, t)
  {
    With(s, t, s.threads[t].(phase := Waiting(e)))
      .(table := s.table[s.threads[t].request.key := e],
        entries := s.entries[e := LockEntry(1, RWMutex(0, false))])
  }

  /** `registerPathLockUser`: reuse the table's entry or add a fresh one. */
  ghost predicate RegisterStep(s: State, s': State, t: Tid) {
    && MayRegister(s, t)
    && var key := s.threads[t].request.key;
    if key in s.table && s.table[key] in s.entries then
      s' == Joined(s, t, s.table[key])
    else
      exists e :: e !in s.entries && s' == Added(s, t, e)
  }

  ghost predicate MayAcquire(s: State, t: Tid) {
    && t in s.threads
    && var th := s.threads[t];
    && th.phase.Waiting? && th.phase.entry in s.entries && th.request.LocksPath()
    && CanLock(s.entries[th.phase.entry].mutex, th.request.WritesPath())
  }

  function Acquired(s: State, t: Tid): State
    requires MayAcquire(s, t)
  {
    var th := s.threads[t];
    var e := th.phase.entry;
    With(s, t, th.(phase := Loading(e)))
      .(entries := s.entries[e := s.entries[e].(mutex :=
          Locked(s.entries[e].mutex, th.request.WritesPath()))])
  }

  ghost predicate AcquireStep(s: State, s': State, t: Tid) {
    MayAcquire(s, t) && s' == Acquired(s, t)
  }

  /** The failed `tryPathLock` of a purge: the user count goes back without a release. */
  ghost predicate GiveUpStep(s: State, s': State, t: Tid) {
    && t in s.threads
    && s.threads[t].phase.Waiting? && s.threads[t].request.Purge?
    && s' == With(s, t, s.threads[t].(phase := Unregistering(s.threads[t].phase.entry)))
  }

  /** What a successful load puts into the new handle. */
  predicate LoadedHandle(s: State, th: Thread, phase: Phase, created: map<Key, Bytes>) {
    && phase.Handle? && th.phase.Loading? && phase.entry == th.phase.entry
    && (th.request.Open? || th.request.Create?)
    && var key := th.request.key;
    if th.request.truncate && key in s.store then
      th.request.writable && phase.data == [] && phase.dirty
    else
      && key in created && phase.data == created[key] && |phase.data| <= s.limit && !phase.dirty
  }

  /** The store after `createFile` persisted an empty object for an absent key. */
  function Created(s: State, r: Request): map<Key, Bytes> {
    if r.Create? && r.key !in s.store then s.store[r.key := []] else s.store
  }

  /** Loading ends in a handle, or fails and starts unwinding.  A failed create
      may leave the empty object behind.  Read-only handles give the namespace
      lock back at once. */
  ghost predicate LoadStep(s: State, s': State, t: Tid, outcome: Option<Phase>) {
    && t in s.threads
    && var th := s.threads[t];
    && th.phase.Loading? && !th.request.Purge?
    && var created := Created(s, th.request);
    match outcome
    case None =>
      exists st | st in {s.store, created} ::
        s' == With(s, t, th.(phase := Unlocking(th.phase.entry))).(store := st)
    case Some(phase) =>
      && LoadedHandle(s, th, phase, created)
      && if Writable(th.request) then
           s' == With(s, t, th.(phase := phase)).(store := created)
         else
           s' == With(s, t, th.(phase := phase, namespace := false))
                 .(store := created,
                   namespace := Released(s.namespace, false),
                   panicked := s.panicked || ReleasePanics(s.namespace, false))
  }

  /** Write and resize: any new contents within the limit, writable handles only. */
  ghost predicate ModifyStep(s: State, s': State, t: Tid, data: Bytes) {
    && t in s.threads
    && var th := s.threads[t];
    && th.phase.Handle? && Writable(th.request) && |data| <= s.limit
    && s' == With(s, t, th.(phase := th.phase.(data := data, dirty := true)))
  }

  /** Setting mode or times marks any handle dirty, read-only ones too. */
  ghost predicate TouchStep(s: State, s': State, t: Tid) {
    && t in s.threads && s.threads[t].phase.Handle?
    && s' == With(s, t, s.threads[t].(phase := s.threads[t].phase.(dirty := true)))
  }

  /** The store after `persistFile`; a failing call may or may not have stored the data. */
  function Persisted(s: State, th: Thread, persisted: bool): map<Key, Bytes>
    requires th.phase.Handle? && th.request.LocksPath()
  {
    if th.phase.dirty && persisted then s.store[th.request.key := th.phase.data] else s.store
  }

  ghost predicate FlushStep(s: State, s': State, t: Tid, persisted: bool, failed: bool) {
    && t in s.threads
    && var th := s.threads[t];
    && th.phase.Handle? && th.request.LocksPath()
    && (!failed && th.phase.dirty ==> persisted)
    && (persisted && th.phase.dirty ==> |th.phase.data| <= s.limit)
    && s' == With(s, t, th.(phase := th.phase.(dirty := th.phase.dirty && failed)))
             .(store := Persisted(s, th, persisted))
  }

  /** `Close` flushes, drops the buffer and starts unwinding, also if the flush failed. */
  ghost predicate CloseStep(s: State, s': State, t: Tid, persisted: bool, failed: bool) {
    && t in s.threads
    && var th := s.threads[t];
    && th.phase.Handle? && th.request.LocksPath()
    && (!failed && th.phase.dirty ==> persisted)
    && (persisted && th.phase.dirty ==> |th.phase.data| <= s.limit)
    && s' == With(s, t, th.(phase := Unlocking(th.phase.entry)))
             .(store := Persisted(s, th, persisted))
  }

  ghost predicate HasEntry(s: State, t: Tid) {
    && t in s.threads && Registered(s.threads[t].phase)
    && s.threads[t].phase.entry in s.entries && s.threads[t].request.LocksPath()
  }

  function PathUnlocked(s: State, t: Tid): State
    requires HasEntry(s, t)
  {
    var th := s.threads[t];
    var e := th.phase.entry;
    var m := s.entries[e].mutex;
    With(s, t, th.(phase := Unregistering(e)))
      .(entries := s.entries[e := s.entries[e].(mutex := Released(m, th.request.WritesPath()))],
        panicked := s.panicked || ReleasePanics(m, th.request.WritesPath()))
  }

  ghost predicate UnlockPathStep(s: State, s': State, t: Tid) {
    HasEntry(s, t) && s.threads[t].phase.Unlocking? && s' == PathUnlocked(s, t)
  }

  /** `unregisterPathLockUser`: the last user deletes the table row of its own entry. */
  function Unregistered(s: State, t: Tid): State
    requires HasEntry(s, t)
  {
    var th := s.threads[t];
    var e := th.phase.entry;
    var key := th.request.key;
    var users := s.entries[e].users - 1;
    With(s, t, th.(phase := Leaving))
      .(entries := s.entries[e := s.entries[e].(users := users)],
        table := if users == 0 && key in s.table && s.table[key] == e then s.table - {key} else s.table)
  }

  ghost predicate UnregisterStep(s: State, s': State, t: Tid) {
    HasEntry(s, t) && s.threads[t].phase.Unregistering? && s' == Unregistered(s, t)
  }

  function Left(s: State, t: Tid): State
    requires t in s.threads
  {
    var th := s.threads[t];
    s.(threads := s.threads - {t},
       namespace := if th.namespace then Released(s.namespace, th.request.Exclusive()) else s.namespace,
       panicked := s.panicked || (th.namespace && ReleasePanics(s.namespace, th.request.Exclusive())))
  }

  ghost predicate LeaveStep(s: State, s': State, t: Tid) {
    t in s.threads && s.threads[t].phase == Leaving && s' == Left(s, t)
  }

  /** Removal by unlink (namespace lock only) or purge (path mutex as well). */
  ghost predicate RemoveStep(s: State, s': State, t: Tid, removed: bool) {
    && t in s.threads
    && var th := s.threads[t];
    && ((th.request.Unlink? && th.phase == Entered) || (th.request.Purge? && th.phase.Loading?))
    && var next := if th.request.Unlink? then Leaving else Unlocking(th.phase.entry);
    && s' == With(s, t, th.(phase := next))
             .(store := if removed then s.store - {th.request.key} else s.store)
  }

  /** Reconfiguration and bulk unprotection: anything may change under the exclusive lock. */
  ghost predicate ReconfigureStep(s: State, s': State, t: Tid, limit: nat, store: map<Key, Bytes>) {
    && t in s.threads
    && s.threads[t].request.Administer? && s.threads[t].phase == Entered
    && s' == With(s, t, s.threads[t].(phase := Leaving)).(limit := limit, store := store)
  }

  ghost predicate Step(s: State, s': State, t: Tid, a: Action) {
    match a
    case Begin(r) => BeginStep(s, s', t, r)
    case Register => RegisterStep(s, s', t)
    case Acquire => AcquireStep(s, s', t)
    case GiveUp => GiveUpStep(s, s', t)
    case Load(outcome) => LoadStep(s, s', t, outcome)
    case Modify(data) => ModifyStep(s, s', t, data)
    case Touch => TouchStep(s, s', t)
    case Flush(persisted, failed) => FlushStep(s, s', t, persisted, failed)
    case Close(persisted, failed) => CloseStep(s, s', t, persisted, failed)
    case UnlockPath => UnlockPathStep(s, s', t)
    case Unregister => UnregisterStep(s, s', t)
    case Leave => LeaveStep(s, s', t)
    case Remove(removed) => RemoveStep(s, s', t, removed)
    case Reconfigure(limit, store) => ReconfigureStep(s, s', t, limit, store)
  }

  ghost predicate Initial(s: State) {
    && s.threads == map[] && s.table == map[] && s.entries == map[]
    && s.namespace == RWMutex(0, false) && !s.panicked
  }

  // ---------------------------------------------------------------- invariant

  /** The parts a thread can play in a lock's counters. */
  datatype Role =
    | NamespaceReader
    | NamespaceWriter
    | User(entry: EntryId)
    | Reader(entry: EntryId)
    | Writer(entry: EntryId)

  predicate Plays(th: Thread, role: Role) {
    match role
    case NamespaceReader => th.namespace && !th.request.Exclusive()
    case NamespaceWriter => th.namespace && th.request.Exclusive()
    case User(e) => Registered(th.phase) && th.phase.entry == e
    case Reader(e) => HoldsMutex(th.phase) && th.phase.entry == e && !th.request.WritesPath()
    case Writer(e) => HoldsMutex(th.phase) && th.phase.entry == e && th.request.WritesPath()
  }

  ghost function Players(threads: map<Tid, Thread>, role: Role): set<Tid> {
    set t | t in threads && Plays(threads[t], role)
  }

  /** A mutex whose counters are exactly its holders, with writers alone. */
  ghost predicate Accounts(threads: map<Tid, Thread>, m: RWMutex, reader: Role, writer: Role) {
    && m.readers == |Players(threads, reader)|
    && |Players(threads, writer)| == (if m.writer then 1 else 0)
    && (m.writer ==> m.readers == 0)
  }

  ghost predicate EntryOk(s: State, e: EntryId)
    requires e in s.entries
  {
    && Accounts(s.threads, s.entries[e].mutex, Reader(e), Writer(e))
    && s.entries[e].users == |Players(s.threads, User(e))|
  }

  ghost predicate ThreadOk(s: State, t: Tid)
    requires t in s.threads
  {
    var th := s.threads[t];
    && (Registered(th.phase) ==>
          && th.request.LocksPath()
          && th.phase.entry in s.entries
          && th.request.key in s.table && s.table[th.request.key] == th.phase.entry)
    && (th.phase.Handle? ==>
          && (th.request.Open? || th.request.Create?)
          && (th.namespace <==> Writable(th.request)))
    && (th.phase.Handle? && Writable(th.request) ==> |th.phase.data| <= s.limit)
    && ((th.phase == Entered || th.phase.Waiting? || th.phase.Loading? || th.request.Exclusive())
          ==> th.namespace)
  }

  ghost predicate TableOk(s: State) {
    && (forall k | k in s.table :: s.table[k] in s.entries && s.entries[s.table[k]].users > 0)
    && (forall k, l | k in s.table && l in s.table :: s.table[k] == s.table[l] ==> k == l)
  }

  ghost predicate LocksOk(s: State) {
    && !s.panicked
    && Accounts(s.threads, s.namespace, NamespaceReader, NamespaceWriter)
    && (forall e | e in s.entries :: EntryOk(s, e))
    && (forall t | t in s.threads :: ThreadOk(s, t))
    && TableOk(s)
  }

  /** A writable handle with nothing to store holds exactly the stored contents. */
  ghost predicate Faithful(s: State, t: Tid) {
    t in s.threads && s.threads[t].phase.Handle? && Writable(s.threads[t].request) && !s.threads[t].phase.dirty ==>
      StoredAt(s.store, s.threads[t].request.key, s.threads[t].phase.data)
  }

  predicate StoredAt(store: map<Key, Bytes>, key: Key, data: Bytes) { key in store && store[key] == data }

  ghost predicate Inv(s: State) { LocksOk(s) && forall t | t in s.threads :: Faithful(s, t) }

  // ------------------------------------------------------- counting lemmas

  /** Changing one thread moves each role's population by at most that thread. */
  lemma PlayersAfterUpdate(threads: map<Tid, Thread>, t: Tid, th: Thread, role: Role)
    ensures
      |Players(threads[t := th], role)| ==
      |Players(threads, role)|
        - (if t in threads && Plays(threads[t], role) then 1 else 0)
        + (if Plays(th, role) then 1 else 0)
  {
    var before := Players(threads, role);
    var after := Players(threads[t := th], role);
    var rest := before - {t};
    assert after == if Plays(th, role) then rest + {t} else rest;
  }

  lemma PlayersAfterRemoval(threads: map<Tid, Thread>, t: Tid, role: Role)
    requires t in threads
    ensures
      |Players(threads - {t}, role)| ==
      |Players(threads, role)| - (if Plays(threads[t], role) then 1 else 0)
  {
    var before := Players(threads, role);
    assert Players(threads - {t}, role) == before - {t};
  }

  lemma PlayerCounted(threads: map<Tid, Thread>, t: Tid, role: Role)
    requires t in threads && Plays(threads[t], role)
    ensures |Players(threads, role)| >= 1
  {
    assert t in Players(threads, role);
  }

  lemma SoleplayerUnique(threads: map<Tid, Thread>, t: Tid, u: Tid, role: Role)
    requires t in threads && Plays(threads[t], role)
    requires u in threads && Plays(threads[u], role)
    requires |Players(threads, role)| <= 1
    ensures t == u
  {
    if t != u {
      assert {t, u} <= Players(threads, role);
      CardinalityMonotone({t, u}, Players(threads, role));
    }
  }

  lemma CardinalityMonotone(a: set<Tid>, b: set<Tid>)
    requires a <= b
    ensures |a| <= |b|
  {
    assert b == a + (b - a);
  }

  /** A thread update that leaves its part in `role` alone leaves the count alone. */
  lemma RoleUnaffected(threads: map<Tid, Thread>, t: Tid, th: Thread, role: Role)
    requires t in threads && (Plays(threads[t], role) <==> Plays(th, role))
    ensures |Players(threads[t := th], role)| == |Players(threads, role)|
  {
    PlayersAfterUpdate(threads, t, th, role);
  }

  /** An entry keeps its account when the moving thread plays no part in it. */
  lemma EntryUnaffected(s: State, s': State, t: Tid, e: EntryId)
    requires t in s.threads && t in s'.threads && s'.threads == s.threads[t := s'.threads[t]]
    requires e in s.entries && e in s'.entries && s.entries[e] == s'.entries[e] && EntryOk(s, e)
    requires forall role | role in {User(e), Reader(e), Writer(e)} ::
               Plays(s.threads[t], role) <==> Plays(s'.threads[t], role)
    ensures EntryOk(s', e)
  {
    var th := s'.threads[t];
    assert User(e) in {User(e), Reader(e), Writer(e)};
    assert Reader(e) in {User(e), Reader(e), Writer(e)};
    assert Writer(e) in {User(e), Reader(e), Writer(e)};
    RoleUnaffected(s.threads, t, th, User(e));
    RoleUnaffected(s.threads, t, th, Reader(e));
    RoleUnaffected(s.threads, t, th, Writer(e));
  }

  lemma NamespaceUnaffected(s: State, s': State, t: Tid)
    requires t in s.threads && t in s'.threads && s'.threads == s.threads[t := s'.threads[t]]
    requires s.namespace == s'.namespace
    requires s.threads[t].request == s'.threads[t].request
    requires s.threads[t].namespace == s'.threads[t].namespace
    requires Accounts(s.threads, s.namespace, NamespaceReader, NamespaceWriter)
    ensures Accounts(s'.threads, s'.namespace, NamespaceReader, NamespaceWriter)
  {
    RoleUnaffected(s.threads, t, s'.threads[t], NamespaceReader);
    RoleUnaffected(s.threads, t, s'.threads[t], NamespaceWriter);
  }

  lemma NobodyOnFreshEntry(s: State, e: EntryId)
    requires forall t | t in s.threads :: ThreadOk(s, t)
    requires e !in s.entries
    ensures Players(s.threads, User(e)) == {}
    ensures Players(s.threads, Reader(e)) == {}
    ensures Players(s.threads, Writer(e)) == {}
  {
    forall t | t in s.threads ensures !Registered(s.threads[t].phase) || s.threads[t].phase.entry != e {
      assert ThreadOk(s, t);
    }
  }

  /** Threads other than the mover only look at the table, the entry ids and the limit. */
  lemma OthersUnaffected(s: State, s': State, t: Tid)
    requires forall u | u in s.threads :: ThreadOk(s, u)
    requires t in s'.threads && s'.threads == s.threads[t := s'.threads[t]]
    requires s.entries.Keys <= s'.entries.Keys && s.limit == s'.limit
    requires forall k | k in s.table :: k in s'.table && s'.table[k] == s.table[k]
    requires ThreadOk(s', t)
    ensures forall u | u in s'.threads :: ThreadOk(s', u)
  {
    forall u | u in s'.threads && u != t ensures ThreadOk(s', u) {
      assert ThreadOk(s, u);
    }
  }

  // ------------------------------------------------ every step keeps the invariant

  lemma BeginKeepsLocks(s: State, s': State, t: Tid, r: Request)
    requires LocksOk(s) && BeginStep(s, s', t, r)
    ensures LocksOk(s')
  {
    var th := Thread(r, Entered, true);
    forall role: Role { PlayersAfterUpdate(s.threads, t, th, role); }
    forall e | e in s'.entries ensures EntryOk(s', e) {
      assert EntryOk(s, e);
    }
    forall u | u in s'.threads ensures ThreadOk(s', u) {
      assert u != t ==> ThreadOk(s, u);
    }
  }

  /** Entries other than the mover's own keep their accounts. */
  lemma OtherEntriesUnaffected(s: State, s': State, t: Tid, e: EntryId)
    requires forall f | f in s.entries :: EntryOk(s, f)
    requires t in s.threads && t in s'.threads && s'.threads == s.threads[t := s'.threads[t]]
    requires Registered(s.threads[t].phase) ==> s.threads[t].phase.entry == e
    requires Registered(s'.threads[t].phase) ==> s'.threads[t].phase.entry == e
    requires e in s'.entries && s'.entries == s.entries[e := s'.entries[e]] && EntryOk(s', e)
    ensures forall f | f in s'.entries :: EntryOk(s', f)
  {
    forall f | f in s'.entries && f != e ensures EntryOk(s', f) {
      EntryUnaffected(s, s', t, f);
    }
  }

  lemma JoinCountsUser(s: State, t: Tid, e: EntryId)
    requires MayRegister(s, t) && e in s.entries && EntryOk(s, e)
    ensures EntryOk(Joined(s, t, e), e)
  {
    var th := s.threads[t].(phase := Waiting(e));
    PlayersAfterUpdate(s.threads, t, th, User(e));
    RoleUnaffected(s.threads, t, th, Reader(e));
    RoleUnaffected(s.threads, t, th, Writer(e));
  }

  lemma JoinKeepsLocks(s: State, t: Tid, e: EntryId)
    requires LocksOk(s) && MayRegister(s, t) && e in s.entries
    requires var key := s.threads[t].request.key; key in s.table && s.table[key] == e
    ensures LocksOk(Joined(s, t, e))
  {
    var s' := Joined(s, t, e);
    assert ThreadOk(s, t) && EntryOk(s, e);
    JoinCountsUser(s, t, e);
    OthersUnaffected(s, s', t);
    NamespaceUnaffected(s, s', t);
    OtherEntriesUnaffected(s, s', t, e);
  }

  lemma AddCountsUser(s: State, t: Tid, e: EntryId)
    requires MayRegister(s, t) && e !in s.entries
    requires forall u | u in s.threads :: ThreadOk(s, u)
    ensures EntryOk(Added(s, t, e), e)
  {
    var th := s.threads[t].(phase := Waiting(e));
    NobodyOnFreshEntry(s, e);
    PlayersAfterUpdate(s.threads, t, th, User(e));
    RoleUnaffected(s.threads, t, th, Reader(e));
    RoleUnaffected(s.threads, t, th, Writer(e));
  }

  lemma AddKeepsLocks(s: State, t: Tid, e: EntryId)
    requires LocksOk(s) && MayRegister(s, t) && e !in s.entries && s.threads[t].request.key !in s.table
    ensures LocksOk(Added(s, t, e))
  {
    var s' := Added(s, t, e);
    assert ThreadOk(s, t);
    AddCountsUser(s, t, e);
    OthersUnaffected(s, s', t);
    NamespaceUnaffected(s, s', t);
    OtherEntriesUnaffected(s, s', t, e);
    assert ThreadOk(s', t);
  }

  lemma RegisterKeepsLocks(s: State, s': State, t: Tid)
    requires LocksOk(s) && RegisterStep(s, s', t)
    ensures LocksOk(s')
  {
    var key := s.threads[t].request.key;
    if key in s.table {
      JoinKeepsLocks(s, t, s.table[key]);
    } else {
      var e :| e !in s.entries && s' == Added(s, t, e);
      AddKeepsLocks(s, t, e);
    }
  }

  /** Steps that only touch the mutex of the mover's own entry. */
  lemma OwnEntryKeepsLocks(s: State, s': State, t: Tid)
    requires LocksOk(s) && !s'.panicked
    requires t in s.threads && t in s'.threads && s'.threads == s.threads[t := s'.threads[t]]
    requires s.threads[t].request == s'.threads[t].request
    requires s.threads[t].namespace == s'.threads[t].namespace && s.namespace == s'.namespace
    requires Registered(s.threads[t].phase) && s.threads[t].phase.entry in s'.entries
    requires var e := s.threads[t].phase.entry;
             && (Registered(s'.threads[t].phase) ==> s'.threads[t].phase.entry == e)
             && s'.entries == s.entries[e := s'.entries[e]]
             && EntryOk(s', e)
             && s'.entries[e].users == s.entries[e].users
    requires s'.table == s.table && s'.limit == s.limit && ThreadOk(s', t)
    ensures LocksOk(s')
  {
    OthersUnaffected(s, s', t);
    NamespaceUnaffected(s, s', t);
    OtherEntriesUnaffected(s, s', t, s.threads[t].phase.entry);
  }

  lemma AcquireKeepsLocks(s: State, s': State, t: Tid)
    requires LocksOk(s) && AcquireStep(s, s', t)
    ensures LocksOk(s')
  {
    var th := s'.threads[t];
    var e := th.phase.entry;
    assert ThreadOk(s, t) && EntryOk(s, e);
    RoleUnaffected(s.threads, t, th, User(e));
    PlayersAfterUpdate(s.threads, t, th, Reader(e));
    PlayersAfterUpdate(s.threads, t, th, Writer(e));
    assert EntryOk(s', e);
    OwnEntryKeepsLocks(s, s', t);
  }

  lemma UnlockPathReleasesOnce(s: State, s': State, t: Tid)
    requires LocksOk(s) && UnlockPathStep(s, s', t)
    ensures !s'.panicked && EntryOk(s', s.threads[t].phase.entry)
  {
    var th := s'.threads[t];
    var e := th.phase.entry;
    assert EntryOk(s, e);
    RoleUnaffected(s.threads, t, th, User(e));
    PlayersAfterUpdate(s.threads, t, th, Reader(e));
    PlayersAfterUpdate(s.threads, t, th, Writer(e));
    PlayerCounted(s.threads, t, if th.request.WritesPath() then Writer(e) else Reader(e));
  }

  lemma UnlockPathKeepsLocks(s: State, s': State, t: Tid)
    requires LocksOk(s) && UnlockPathStep(s, s', t)
    ensures LocksOk(s')
  {
    UnlockPathReleasesOnce(s, s', t);
    assert ThreadOk(s, t);
    OwnEntryKeepsLocks(s, s', t);
  }

  lemma UnregisterUncountsUser(s: State, s': State, t: Tid)
    requires LocksOk(s) && UnregisterStep(s, s', t)
    ensures EntryOk(s', s.threads[t].phase.entry)
  {
    var th := s'.threads[t];
    var e := s.threads[t].phase.entry;
    assert EntryOk(s, e);
    PlayersAfterUpdate(s.threads, t, th, User(e));
    RoleUnaffected(s.threads, t, th, Reader(e));
    RoleUnaffected(s.threads, t, th, Writer(e));
  }

  /** The table row goes only with the entry's last user, so nobody is left on a deleted row. */
  lemma UnregisterKeepsOthers(s: State, s': State, t: Tid, u: Tid)
    requires LocksOk(s) && UnregisterStep(s, s', t) && u in s'.threads && u != t
    requires EntryOk(s', s.threads[t].phase.entry)
    ensures ThreadOk(s', u)
  {
    var e := s.threads[t].phase.entry;
    assert ThreadOk(s, t) && ThreadOk(s, u);
    if Registered(s.threads[u].phase) && s.threads[u].phase.entry == e {
      PlayerCounted(s'.threads, u, User(e));
    }
  }

  lemma UnregisterKeepsTable(s: State, s': State, t: Tid)
    requires LocksOk(s) && UnregisterStep(s, s', t)
    requires EntryOk(s', s.threads[t].phase.entry)
    ensures TableOk(s')
  {
    assert ThreadOk(s, t);
  }

  lemma UnregisterKeepsLocks(s: State, s': State, t: Tid)
    requires LocksOk(s) && UnregisterStep(s, s', t)
    ensures LocksOk(s')
  {
    UnregisterUncountsUser(s, s', t);
    assert ThreadOk(s, t);
    forall u | u in s'.threads ensures ThreadOk(s', u) {
      if u != t { UnregisterKeepsOthers(s, s', t, u); }
    }
    UnregisterKeepsTable(s, s', t);
    NamespaceUnaffected(s, s', t);
    OtherEntriesUnaffected(s, s', t, s.threads[t].phase.entry);
  }

  /** Two phases with the same part in every entry's account. */
  predicate SameStanding(p: Phase, q: Phase) {
    && Registered(p) == Registered(q)
    && HoldsMutex(p) == HoldsMutex(q)
    && (Registered(p) ==> p.entry == q.entry)
  }

  lemma EntriesUnaffected(s: State, s': State, t: Tid)
    requires forall e | e in s.entries :: EntryOk(s, e)
    requires t in s.threads && t in s'.threads && s'.threads == s.threads[t := s'.threads[t]]
    requires s.threads[t].request == s'.threads[t].request && s.entries == s'.entries
    requires SameStanding(s.threads[t].phase, s'.threads[t].phase)
    ensures forall e | e in s'.entries :: EntryOk(s', e)
  {
    forall e | e in s'.entries ensures EntryOk(s', e) {
      EntryUnaffected(s, s', t, e);
    }
  }

  /** Steps that change neither locks nor the mover's part in them. */
  lemma LockFreeKeepsLocks(s: State, s': State, t: Tid)
    requires LocksOk(s) && s'.panicked == s.panicked
    requires t in s.threads && t in s'.threads && s'.threads == s.threads[t := s'.threads[t]]
    requires s.threads[t].request == s'.threads[t].request
    requires s.threads[t].namespace == s'.threads[t].namespace && s.namespace == s'.namespace
    requires s.entries == s'.entries && s.table == s'.table
    requires s.limit == s'.limit
    requires SameStanding(s.threads[t].phase, s'.threads[t].phase)
    requires ThreadOk(s', t)
    ensures LocksOk(s')
  {
    OthersUnaffected(s, s', t);
    NamespaceUnaffected(s, s', t);
    EntriesUnaffected(s, s', t);
  }

  /** A read-only handle gives its namespace lock back as soon as it is open. */
  lemma NamespaceReturned(s: State, t: Tid, th: Thread)
    requires Accounts(s.threads, s.namespace, NamespaceReader, NamespaceWriter)
    requires t in s.threads && Plays(s.threads[t], NamespaceReader)
    requires th.request == s.threads[t].request && !th.namespace
    ensures !ReleasePanics(s.namespace, false)
    ensures Accounts(s.threads[t := th], Released(s.namespace, false), NamespaceReader, NamespaceWriter)
  {
    PlayerCounted(s.threads, t, NamespaceReader);
    PlayersAfterUpdate(s.threads, t, th, NamespaceReader);
    RoleUnaffected(s.threads, t, th, NamespaceWriter);
  }

  lemma ReadOnlyLoadKeepsLocks(s: State, s': State, t: Tid, phase: Phase)
    requires LocksOk(s) && LoadStep(s, s', t, Some(phase)) && !Writable(s.threads[t].request)
    ensures LocksOk(s')
  {
    assert ThreadOk(s, t);
    NamespaceReturned(s, t, s'.threads[t]);
    OthersUnaffected(s, s', t);
    EntriesUnaffected(s, s', t);
  }

  lemma LoadKeepsLocks(s: State, s': State, t: Tid, outcome: Option<Phase>)
    requires LocksOk(s) && LoadStep(s, s', t, outcome)
    ensures LocksOk(s')
  {
    if outcome.Some? && !Writable(s.threads[t].request) {
      ReadOnlyLoadKeepsLocks(s, s', t, outcome.value);
    } else {
      assert ThreadOk(s, t);
      LockFreeKeepsLocks(s, s', t);
    }
  }

  lemma LeaveKeepsEntries(s: State, s': State, t: Tid, e: EntryId)
    requires e in s.entries && EntryOk(s, e) && t in s.threads && !Registered(s.threads[t].phase)
    requires s'.threads == s.threads - {t} && s'.entries == s.entries
    ensures EntryOk(s', e)
  {
    PlayersAfterRemoval(s.threads, t, User(e));
    PlayersAfterRemoval(s.threads, t, Reader(e));
    PlayersAfterRemoval(s.threads, t, Writer(e));
  }

  lemma LeaveReleasesOnce(s: State, s': State, t: Tid)
    requires LocksOk(s) && LeaveStep(s, s', t)
    ensures !s'.panicked && Accounts(s'.threads, s'.namespace, NamespaceReader, NamespaceWriter)
  {
    var th := s.threads[t];
    PlayersAfterRemoval(s.threads, t, NamespaceReader);
    PlayersAfterRemoval(s.threads, t, NamespaceWriter);
    if th.namespace {
      PlayerCounted(s.threads, t, if th.request.Exclusive() then NamespaceWriter else NamespaceReader);
    }
  }

  lemma LeaveKeepsLocks(s: State, s': State, t: Tid)
    requires LocksOk(s) && LeaveStep(s, s', t)
    ensures LocksOk(s')
  {
    LeaveReleasesOnce(s, s', t);
    forall e | e in s'.entries ensures EntryOk(s', e) {
      LeaveKeepsEntries(s, s', t, e);
    }
    forall u | u in s'.threads ensures ThreadOk(s', u) {
      assert ThreadOk(s, u);
    }
  }

  /** Reconfiguration holds the namespace exclusively, so no writable handle is open. */
  lemma ExclusiveMeansNoWritableHandle(s: State, t: Tid, u: Tid)
    requires LocksOk(s) && t in s.threads && u in s.threads
    requires s.threads[t].request.Exclusive() && s.threads[t].namespace
    requires s.threads[u].phase.Handle?
    ensures !Writable(s.threads[u].request)
  {
    assert ThreadOk(s, u);
    PlayerCounted(s.threads, t, NamespaceWriter);
    if Writable(s.threads[u].request) {
      PlayerCounted(s.threads, u, NamespaceReader);
    }
  }

  lemma ReconfigureKeepsLocks(s: State, s': State, t: Tid, limit: nat, store: map<Key, Bytes>)
    requires LocksOk(s) && ReconfigureStep(s, s', t, limit, store)
    ensures LocksOk(s')
  {
    assert ThreadOk(s, t);
    var mid := With(s, t, s'.threads[t]);
    LockFreeKeepsLocks(s, mid, t);
    forall u | u in s'.threads ensures ThreadOk(s', u) {
      assert ThreadOk(mid, u);
      if mid.threads[u].phase.Handle? { ExclusiveMeansNoWritableHandle(mid, t, u); }
    }
    forall e | e in s'.entries ensures EntryOk(s', e) {
      assert EntryOk(mid, e);
    }
  }

  lemma ModifyKeepsLocks(s: State, s': State, t: Tid, data: Bytes)
    requires LocksOk(s) && ModifyStep(s, s', t, data)
    ensures LocksOk(s')
  {
    assert ThreadOk(s, t);
    LockFreeKeepsLocks(s, s', t);
  }

  lemma TouchKeepsLocks(s: State, s': State, t: Tid)
    requires LocksOk(s) && TouchStep(s, s', t)
    ensures LocksOk(s')
  {
    assert ThreadOk(s, t);
    LockFreeKeepsLocks(s, s', t);
  }

  lemma FlushKeepsLocks(s: State, s': State, t: Tid, persisted: bool, failed: bool)
    requires LocksOk(s) && FlushStep(s, s', t, persisted, failed)
    ensures LocksOk(s')
  {
    assert ThreadOk(s, t);
    LockFreeKeepsLocks(s, s', t);
  }

  lemma CloseKeepsLocks(s: State, s': State, t: Tid, persisted: bool, failed: bool)
    requires LocksOk(s) && CloseStep(s, s', t, persisted, failed)
    ensures LocksOk(s')
  {
    assert ThreadOk(s, t);
    LockFreeKeepsLocks(s, s', t);
  }

  lemma GiveUpKeepsLocks(s: State, s': State, t: Tid)
    requires LocksOk(s) && GiveUpStep(s, s', t)
    ensures LocksOk(s')
  {
    assert ThreadOk(s, t);
    LockFreeKeepsLocks(s, s', t);
  }

  lemma RemoveKeepsLocks(s: State, s': State, t: Tid, removed: bool)
    requires LocksOk(s) && RemoveStep(s, s', t, removed)
    ensures LocksOk(s')
  {
    assert ThreadOk(s, t);
    LockFreeKeepsLocks(s, s', t);
  }

  lemma StepKeepsLocks(s: State, s': State, t: Tid, a: Action)
    requires LocksOk(s) && Step(s, s', t, a)
    ensures LocksOk(s')
  {
    match a
    case Begin(r) => BeginKeepsLocks(s, s', t, r);
    case Register => RegisterKeepsLocks(s, s', t);
    case Acquire => AcquireKeepsLocks(s, s', t);
    case Load(outcome) => LoadKeepsLocks(s, s', t, outcome);
    case UnlockPath => UnlockPathKeepsLocks(s, s', t);
    case Unregister => UnregisterKeepsLocks(s, s', t);
    case Leave => LeaveKeepsLocks(s, s', t);
    case Reconfigure(limit, store) => ReconfigureKeepsLocks(s, s', t, limit, store);
    case Close(persisted, failed) => CloseKeepsLocks(s, s', t, persisted, failed);
    case GiveUp => GiveUpKeepsLocks(s, s', t);
    case Remove(removed) => RemoveKeepsLocks(s, s', t, removed);
    case Modify(data) => ModifyKeepsLocks(s, s', t, data);
    case Touch => TouchKeepsLocks(s, s', t);
    case Flush(persisted, failed) => FlushKeepsLocks(s, s', t, persisted, failed);
  }

  // ----------------------------------------------------------- main theorems

  /** Lockers of one key share one entry, although entries are deleted and recreated. */
  lemma LockersShareEntry(s: State, t: Tid, u: Tid)
    requires LocksOk(s) && t in s.threads && u in s.threads
    requires Registered(s.threads[t].phase) && Registered(s.threads[u].phase)
    ensures s.threads[t].request.LocksPath() && s.threads[u].request.LocksPath()
    ensures s.threads[t].request.key == s.threads[u].request.key
            <==> s.threads[t].phase.entry == s.threads[u].phase.entry
  {
    assert ThreadOk(s, t) && ThreadOk(s, u);
  }

  /** Whoever holds a path mutex to write the file, to create, to change its mode or to purge it is its
      only holder. */
  lemma PathWriterIsAlone(s: State, t: Tid, u: Tid)
    requires LocksOk(s) && t in s.threads && u in s.threads && t != u
    requires HoldsMutex(s.threads[t].phase) && HoldsMutex(s.threads[u].phase)
    requires var r := s.threads[t].request; (r.Open? && r.writable) || r.Create? || r.Chmod? || r.Purge?
    ensures s.threads[u].request.LocksPath()
    ensures s.threads[u].request.key != s.threads[t].request.key
  {
    LockersShareEntry(s, t, u);
    var e := s.threads[t].phase.entry;
    if s.threads[u].phase.entry == e {
      assert ThreadOk(s, t) && EntryOk(s, e);
      PlayerCounted(s.threads, t, Writer(e));
      if s.threads[u].request.WritesPath() {
        SoleplayerUnique(s.threads, t, u, Writer(e));
      } else {
        PlayerCounted(s.threads, u, Reader(e));
      }
    }
  }

  /** An open writable handle on `key`. */
  ghost predicate WritesKey(s: State, t: Tid, key: Key) {
    && t in s.threads && s.threads[t].phase.Handle?
    && Writable(s.threads[t].request) && s.threads[t].request.key == key
  }

  /** A writable handle is the only open handle on its path. */
  lemma WritableHandleIsAlone(s: State, t: Tid, u: Tid, key: Key)
    requires LocksOk(s) && WritesKey(s, t, key) && t != u
    ensures u in s.threads && s.threads[u].phase.Handle? ==> s.threads[u].request.key != key
  {
    assert ThreadOk(s, t);
    if u in s.threads && s.threads[u].phase.Handle? {
      assert ThreadOk(s, u);
      PathWriterIsAlone(s, t, u);
    }
  }

  ghost predicate SameAt(a: map<Key, Bytes>, b: map<Key, Bytes>, key: Key) {
    (key in a <==> key in b) && (key in a ==> a[key] == b[key])
  }

  lemma LockStepsKeepStore(s: State, s': State, t: Tid, a: Action)
    requires Step(s, s', t, a)
    requires !(a.Load? || a.Flush? || a.Close? || a.Remove? || a.Reconfigure?)
    ensures s'.store == s.store
  {
  }

  /** `t` holds the path mutex of `key`, or the namespace exclusively. */
  ghost predicate MayChange(s: State, t: Tid, key: Key) {
    && t in s.threads
    && var th := s.threads[t];
    || (HoldsMutex(th.phase) && th.request.LocksPath() && th.request.key == key)
    || (th.request.Exclusive() && th.namespace)
  }

  lemma LoadChangesOwnKey(s: State, s': State, t: Tid, outcome: Option<Phase>, key: Key)
    requires LocksOk(s) && LoadStep(s, s', t, outcome) && !SameAt(s.store, s'.store, key)
    ensures MayChange(s, t, key)
  {
    assert ThreadOk(s, t);
    assert s'.store in {s.store, Created(s, s.threads[t].request)};
  }

  lemma RemovalChangesUnderLock(s: State, s': State, t: Tid, a: Action, key: Key)
    requires LocksOk(s) && Step(s, s', t, a) && (a.Remove? || a.Reconfigure?)
    ensures MayChange(s, t, key)
  {
    assert ThreadOk(s, t);
  }

  /** Whatever changes an object holds its path mutex or the namespace exclusively. */
  lemma OnlyLockHoldersChangeStore(s: State, s': State, t: Tid, a: Action, key: Key)
    requires LocksOk(s) && Step(s, s', t, a) && !SameAt(s.store, s'.store, key)
    ensures MayChange(s, t, key)
  {
    match a
    case Load(outcome) => LoadChangesOwnKey(s, s', t, outcome, key);
    case Flush(_, _) =>
    case Close(_, _) =>
    case Remove(_) => RemovalChangesUnderLock(s, s', t, a, key);
    case Reconfigure(_, _) => RemovalChangesUnderLock(s, s', t, a, key);
    case _ => LockStepsKeepStore(s, s', t, a);
  }

  /** While a writable handle is open, its object changes only through its own flushes. */
  lemma OnlyOwnFlushes(s: State, s': State, t: Tid, u: Tid, a: Action, key: Key)
    requires LocksOk(s) && Step(s, s', u, a) && WritesKey(s, t, key)
    requires !SameAt(s.store, s'.store, key)
    ensures u == t && (a.Flush? || a.Close?)
    ensures key in s'.store && s'.store[key] == s.threads[t].phase.data
  {
    OnlyLockHoldersChangeStore(s, s', u, a, key);
    assert ThreadOk(s, t);
    if u != t {
      if s.threads[u].request.Exclusive() && s.threads[u].namespace {
        ExclusiveMeansNoWritableHandle(s, u, t);
      } else {
        PathWriterIsAlone(s, t, u);
      }
    }
  }

  /** The flush of a writable handle never meets the size limit: `ErrFileTooLarge` is unreachable. */
  lemma WritableFlushFits(s: State, t: Tid, key: Key)
    requires LocksOk(s) && WritesKey(s, t, key)
    ensures |s.threads[t].phase.data| <= s.limit
  {
    assert ThreadOk(s, t);
  }

  // --------------------------------------------------------- what handles hold

  /** What opening does to the store: nothing, but that a create may add its absent key with
      no contents. */
  lemma LoadKeepsStore(s: State, s': State, t: Tid, outcome: Option<Phase>, key: Key)
    requires Step(s, s', t, Load(outcome))
    ensures key in s.store ==> SameAt(s.store, s'.store, key)
    ensures key !in s.store && key in s'.store ==>
      s.threads[t].request.Create? && s.threads[t].request.key == key && s'.store[key] == []
  {
  }

  /** A new handle holds what is stored, unless it is to truncate a stored object: then it is writable and
      empty, and has that to store. */
  lemma OpenedHandleHoldsStored(s: State, s': State, t: Tid, phase: Phase)
    requires Step(s, s', t, Load(Some(phase)))
    ensures t in s.threads && t in s'.threads && s'.threads[t].phase == phase && phase.Handle?
    ensures var r := s.threads[t].request;
            && (r.Open? || r.Create?) && s'.threads[t].request == r
            && r.key in s'.store && (r.Open? ==> r.key in s.store)
            && if r.truncate && r.key in s.store
               then r.writable && phase.data == [] && phase.dirty
               else phase.data == s'.store[r.key] && !phase.dirty && |phase.data| <= s.limit
  {
  }

  /** Opening a stored object whose contents fit, and creating, can succeed. */
  lemma LoadCanSucceed(s: State, t: Tid) returns (phase: Phase, s': State)
    requires LocksOk(s) && t in s.threads && s.threads[t].phase.Loading?
    requires var r := s.threads[t].request;
             || (r.Open? && r.key in s.store && if r.truncate then r.writable else |s.store[r.key]| <= s.limit)
             || (r.Create? && r.writable && (r.truncate || r.key !in s.store || |s.store[r.key]| <= s.limit))
    ensures Step(s, s', t, Load(Some(phase)))
    ensures s.threads[t].request.Create? && s.threads[t].request.key !in s.store ==>
      s'.store == s.store[s.threads[t].request.key := []]
  {
    var th := s.threads[t];
    var created := Created(s, th.request);
    phase := if th.request.truncate && th.request.key in s.store then Handle(th.phase.entry, [], true)
             else Handle(th.phase.entry, created[th.request.key], false);
    s' := With(s, t, th.(phase := phase)).(store := created);
    if !Writable(th.request) {
      s' := With(s, t, th.(phase := phase, namespace := false))
              .(store := created, namespace := Released(s.namespace, false),
                panicked := s.panicked || ReleasePanics(s.namespace, false));
    }
  }

  /** A successful flush or close leaves the contents of a writable handle stored; of any handle, if it
      had something to store. */
  lemma SuccessMeansStored(s: State, s': State, t: Tid, a: Action)
    requires Inv(s) && Step(s, s', t, a) && ((a.Flush? && !a.failed) || (a.Close? && !a.failed))
    ensures t in s.threads && s.threads[t].phase.Handle? && s.threads[t].request.LocksPath()
    ensures Writable(s.threads[t].request) || s.threads[t].phase.dirty ==>
      StoredAt(s'.store, s.threads[t].request.key, s.threads[t].phase.data)
    ensures a.Flush? ==> s'.threads[t].phase == s.threads[t].phase.(dirty := false)
  {
    assert Faithful(s, t);
  }

  /** A handle that was not opened for writing keeps what was loaded, whatever anyone does. */
  lemma ReadOnlyHandleIsFixed(s: State, s': State, t: Tid, u: Tid, a: Action)
    requires Step(s, s', u, a) && t in s.threads && t in s'.threads
    requires s.threads[t].phase.Handle? && s'.threads[t].phase.Handle?
    requires (s.threads[t].request.Open? || s.threads[t].request.Create?) && !s.threads[t].request.writable
    ensures s'.threads[t].request == s.threads[t].request && s'.threads[t].phase.data == s.threads[t].phase.data
  {
    match a
    case Begin(_) =>
    case Register =>
    case Acquire =>
    case GiveUp =>
    case Load(_) =>
    case Modify(_) =>
    case Touch =>
    case Flush(_, _) =>
    case Close(_, _) =>
    case UnlockPath =>
    case Unregister =>
    case Leave =>
    case Remove(_) =>
    case Reconfigure(_, _) =>
  }

  /** Such a handle has given the namespace lock back, and every other one holds it until it is closed. */
  lemma HandleHoldsNamespaceIff(s: State, t: Tid)
    requires LocksOk(s) && t in s.threads && s.threads[t].phase.Handle?
    requires s.threads[t].request.Open? || s.threads[t].request.Create?
    ensures s.threads[t].namespace <==> s.threads[t].request.writable
  {
    assert ThreadOk(s, t);
  }

  lemma OwnStepKeepsFaithful(s: State, s': State, t: Tid, a: Action)
    requires Inv(s) && Step(s, s', t, a)
    ensures Faithful(s', t)
  {
    assert Faithful(s, t);
    if a.Load? && a.outcome.Some? { OpenedHandleHoldsStored(s, s', t, a.outcome.value); }
  }

  lemma ForeignStepKeepsFaithful(s: State, s': State, t: Tid, u: Tid, a: Action)
    requires Inv(s) && Step(s, s', u, a) && u != t && t in s'.threads
    ensures Faithful(s', t)
  {
    assert t in s.threads && s'.threads[t] == s.threads[t] && Faithful(s, t);
    var key := if s.threads[t].phase.Handle? && Writable(s.threads[t].request) then s.threads[t].request.key else "";
    if WritesKey(s, t, key) && !SameAt(s.store, s'.store, key) {
      OnlyOwnFlushes(s, s', t, u, a, key);
    }
  }

  /** Every step keeps the lock tables in order and the clean handles true to the store. */
  lemma StepKeepsInv(s: State, s': State, t: Tid, a: Action)
    requires Inv(s) && Step(s, s', t, a)
    ensures Inv(s')
  {
    StepKeepsLocks(s, s', t, a);
    forall u | u in s'.threads ensures Faithful(s', u) {
      if u == t { OwnStepKeepsFaithful(s, s', t, a); } else { ForeignStepKeepsFaithful(s, s', u, t, a); }
    }
  }

  lemma RegisterEnabled(s: State, t: Tid) returns (s': State)
    requires MayRegister(s, t)
    ensures RegisterStep(s, s', t)
  {
    var key := s.threads[t].request.key;
    if key in s.table && s.table[key] in s.entries {
      s' := Joined(s, t, s.table[key]);
    } else {
      var e := FreshEntry(s.entries.Keys);
      s' := Added(s, t, e);
    }
  }

  /** A thread that does not wait for a path mutex can always take its next step. */
  lemma RunnableSteps(s: State, t: Tid) returns (a: Action, s': State)
    requires LocksOk(s) && t in s.threads && !s.threads[t].phase.Waiting?
    ensures Step(s, s', t, a)
  {
    assert ThreadOk(s, t);
    var th := s.threads[t];
    match th.phase
    case Entered =>
      if th.request.LocksPath() {
        s' := RegisterEnabled(s, t);
        a := Register;
      } else if th.request.Unlink? {
        a, s' := Remove(false), With(s, t, th.(phase := Leaving));
      } else {
        a, s' := Reconfigure(s.limit, s.store), With(s, t, th.(phase := Leaving));
      }
    case Loading(e) =>
      s' := With(s, t, th.(phase := Unlocking(e)));
      a := if th.request.Purge? then Remove(false) else Load(None);
    case Handle(e, _, _) =>
      a, s' := Close(false, true), With(s, t, th.(phase := Unlocking(e)));
    case Unlocking(e) => a, s' := UnlockPath, PathUnlocked(s, t);
    case Unregistering(e) => a, s' := Unregister, Unregistered(s, t);
    case Leaving => a, s' := Leave, Left(s, t);
  }

  lemma FreshEntry(used: set<EntryId>) returns (e: EntryId)
    ensures e !in used
  {
    e := 0;
    var below: set<EntryId> := {};
    while e in used
      invariant below <= used && forall x: nat :: x in below <==> x < e
      decreases used - below
    {
      below := below + {e};
      e := e + 1;
    }
  }

  lemma BusyMutexHasHolder(s: State, e: EntryId, write: bool) returns (t: Tid)
    requires LocksOk(s) && e in s.entries && !CanLock(s.entries[e].mutex, write)
    ensures t in s.threads && HoldsMutex(s.threads[t].phase)
  {
    assert EntryOk(s, e);
    var role := if s.entries[e].mutex.writer then Writer(e) else Reader(e);
    assert Players(s.threads, role) != {};
    t :| t in Players(s.threads, role);
  }

  /** The protocol never deadlocks: whoever holds the mutex a thread waits for can move. */
  lemma NeverStuck(s: State) returns (t: Tid, a: Action, s': State)
    requires LocksOk(s) && s.threads != map[]
    ensures t in s.threads && Step(s, s', t, a)
  {
    t :| t in s.threads;
    assert ThreadOk(s, t);
    if s.threads[t].phase.Waiting? {
      if MayAcquire(s, t) {
        a, s' := Acquire, Acquired(s, t);
        return;
      }
      t := BusyMutexHasHolder(s, s.threads[t].phase.entry, s.threads[t].request.WritesPath());
    }
    a, s' := RunnableSteps(s, t);
  }

  /** Another thread waits for the mutex of the entry for writing. */
  ghost predicate WriterWaits(s: State, e: EntryId, u: Tid) {
    u in s.threads && s.threads[u].phase == Waiting(e) && s.threads[u].request.WritesPath()
  }

  /** A reader does not overtake a waiting writer. */
  ghost predicate Yields(s: State, t: Tid) {
    t in s.threads && s.threads[t].phase.Waiting? && !s.threads[t].request.WritesPath() ==>
      forall u :: !WriterWaits(s, s.threads[t].phase.entry, u)
  }

  /** The steps that are left if waiting writers hold off readers, as `sync.RWMutex` has it. */
  ghost predicate PreferentStep(s: State, s': State, t: Tid, a: Action) {
    Step(s, s', t, a) && (a.Acquire? ==> Yields(s, t))
  }

  /** The protocol does not deadlock then, either. */
  lemma NeverStuckWithPreference(s: State) returns (t: Tid, a: Action, s': State)
    requires LocksOk(s) && s.threads != map[]
    ensures t in s.threads && PreferentStep(s, s', t, a)
  {
    t :| t in s.threads;
    if s.threads[t].phase.Waiting? {
      var e := s.threads[t].phase.entry;
      if u :| WriterWaits(s, e, u) { t := u; }
      assert Yields(s, t) && ThreadOk(s, t);
      if MayAcquire(s, t) {
        a, s' := Acquire, Acquired(s, t);
        return;
      }
      t := BusyMutexHasHolder(s, e, s.threads[t].request.WritesPath());
    }
    a, s' := RunnableSteps(s, t);
  }

  // --------------------------------------------------------------- whole runs

  ghost predicate Run(states: seq<State>, actors: seq<Tid>, actions: seq<Action>) {
    && |states| == |actions| + 1 && |actors| == |actions|
    && Initial(states[0])
    && forall i | 0 <= i < |actions| :: Step(states[i], states[i + 1], actors[i], actions[i])
  }

  lemma InitialInv(s: State)
    requires Initial(s)
    ensures Inv(s)
  {
    assert Players(s.threads, NamespaceReader) == {};
    assert Players(s.threads, NamespaceWriter) == {};
  }

  lemma {:induction false} RunKeepsInv(states: seq<State>, actors: seq<Tid>, actions: seq<Action>, n: nat)
    requires Run(states, actors, actions) && n < |states|
    ensures Inv(states[n])
  {
    if n == 0 {
      InitialInv(states[0]);
    } else {
      RunKeepsInv(states, actors, actions, n - 1);
      StepKeepsInv(states[n - 1], states[n], actors[n - 1], actions[n - 1]);
    }
  }

  lemma {:induction false} RunStep(states: seq<State>, actors: seq<Tid>, actions: seq<Action>, n: nat)
    requires Run(states, actors, actions) && n < |actions|
    ensures Inv(states[n]) && Step(states[n], states[n + 1], actors[n], actions[n])
  {
    RunKeepsInv(states, actors, actions, n);
  }

  lemma StableAcrossForeignStep(s: State, s': State, t: Tid, u: Tid, a: Action, key: Key)
    requires LocksOk(s) && Step(s, s', u, a) && WritesKey(s, t, key) && WritesKey(s', t, key)
    requires !(u == t && a.Flush?)
    ensures SameAt(s.store, s'.store, key)
  {
    if !SameAt(s.store, s'.store, key) {
      OnlyOwnFlushes(s, s', t, u, a, key);
    }
  }

  lemma StableInStep(states: seq<State>, actors: seq<Tid>, actions: seq<Action>, t: Tid, key: Key, n: nat)
    requires Run(states, actors, actions) && n < |actions| && WritesKey(states[n], t, key) && WritesKey(states[n + 1], t, key)
    requires !(actors[n] == t && actions[n].Flush?)
    ensures SameAt(states[n].store, states[n + 1].store, key)
  {
    RunStep(states, actors, actions, n);
    StableAcrossForeignStep(states[n], states[n + 1], t, actors[n], actions[n], key);
  }

  /** Between two points of any run at which a handle stays open for writing, the
      stored object is what it was unless that handle itself flushed. */
  lemma {:induction false} StableBetweenOwnFlushes(
    states: seq<State>, actors: seq<Tid>, actions: seq<Action>, t: Tid, key: Key, i: nat, j: nat)
    requires Run(states, actors, actions) && i <= j < |states|
    requires forall n | i <= n <= j :: WritesKey(states[n], t, key)
    requires forall n | i <= n < j :: !(actors[n] == t && actions[n].Flush?)
    ensures SameAt(states[i].store, states[j].store, key)
    decreases j - i
  {
    if i < j {
      StableBetweenOwnFlushes(states, actors, actions, t, key, i, j - 1);
      StableInStep(states, actors, actions, t, key, j - 1);
    }
  }

  /** The step may store or remove the object of this key. */
  predicate StoresOrRemoves(s: State, t: Tid, a: Action, key: Key) {
    || a.Reconfigure?
    || ((a.Flush? || a.Close? || a.Remove?) && t in s.threads
        && (s.threads[t].request.LocksPath() || s.threads[t].request.Unlink?) && s.threads[t].request.key == key)
  }

  lemma OtherStepsKeepStored(s: State, s': State, t: Tid, a: Action, key: Key, data: Bytes)
    requires Step(s, s', t, a) && StoredAt(s.store, key, data) && !StoresOrRemoves(s, t, a, key)
    ensures StoredAt(s'.store, key, data)
  {
    if a.Load? { LoadKeepsStore(s, s', t, a.outcome, key); }
  }

  lemma StoredInStep(states: seq<State>, actors: seq<Tid>, actions: seq<Action>, key: Key, data: Bytes, n: nat)
    requires Run(states, actors, actions) && n < |actions| && StoredAt(states[n].store, key, data)
    requires !StoresOrRemoves(states[n], actors[n], actions[n], key)
    ensures StoredAt(states[n + 1].store, key, data)
  {
    RunStep(states, actors, actions, n);
    OtherStepsKeepStored(states[n], states[n + 1], actors[n], actions[n], key, data);
  }

  lemma {:induction false} StoredStays(
    states: seq<State>, actors: seq<Tid>, actions: seq<Action>, key: Key, data: Bytes, i: nat, j: nat)
    requires Run(states, actors, actions) && i <= j < |states| && StoredAt(states[i].store, key, data)
    requires forall n | i <= n < j :: !StoresOrRemoves(states[n], actors[n], actions[n], key)
    ensures StoredAt(states[j].store, key, data)
    decreases j - i
  {
    if i < j {
      StoredStays(states, actors, actions, key, data, i, j - 1);
      StoredInStep(states, actors, actions, key, data, j - 1);
    }
  }

  /** What was written is what is read: in any run, if a writable handle is flushed or closed without
      an error, and no step in between stores or removes the object, then the next handle that is
      opened without truncation holds exactly the contents of the first. */
  lemma ReopenedHoldsWritten(states: seq<State>, actors: seq<Tid>, actions: seq<Action>, key: Key, i: nat, j: nat, phase: Phase)
    requires Run(states, actors, actions) && i < j < |actions| && WritesKey(states[i], actors[i], key)
    requires (actions[i].Flush? || actions[i].Close?) && !actions[i].failed
    requires forall n | i < n < j :: !StoresOrRemoves(states[n], actors[n], actions[n], key)
    requires actions[j] == Load(Some(phase)) && actors[j] in states[j].threads
    requires var r := states[j].threads[actors[j]].request; (r.Open? || r.Create?) && r.key == key && !r.truncate
    ensures phase.Handle? && phase.data == states[i].threads[actors[i]].phase.data && !phase.dirty
  {
    var data := states[i].threads[actors[i]].phase.data;
    RunStep(states, actors, actions, i);
    SuccessMeansStored(states[i], states[i + 1], actors[i], actions[i]);
    StoredStays(states, actors, actions, key, data, i + 1, j);
    RunStep(states, actors, actions, j);
    OpenedHandleHoldsStored(states[j], states[j + 1], actors[j], phase);
    LoadKeepsStore(states[j], states[j + 1], actors[j], Some(phase), key);
  }

  /** A stronger promise is false.  In this run from the initial state a file is opened for
      reading and its attributes are set; it is unlinked, which does not take the path mutex;
      and the flush of the read-only handle, which gave the namespace lock back when it was
      opened, stores its snapshot again. */
  lemma TouchedReaderResurrects(key: Key, data: Bytes, limit: nat) returns (states: seq<State>, actors: seq<Tid>, actions: seq<Action>)
    requires |data| <= limit
    ensures Run(states, actors, actions) && |states| == 10
    ensures Initial(states[0]) && states[0].store == map[key := data] && states[0].limit == limit
    ensures actions[0] == Begin(Open(key, false, false)) && actions[4] == Touch && actions[6] == Remove(true)
    ensures key !in states[8].store
    ensures actors[8] == actors[0] && actions[8].Flush? && states[9].store == map[key := data]
  {
    states, actors, actions := OpeningRun(key, data, limit);
    var s6, s7, s8, s9 := UnlinkThenFlush(states[5], key, data);
    states, actors, actions := RunExtends(states, actors, actions, s6, 1, Begin(Unlink(key)));
    states, actors, actions := RunExtends(states, actors, actions, s7, 1, Remove(true));
    states, actors, actions := RunExtends(states, actors, actions, s8, 1, Leave);
    states, actors, actions := RunExtends(states, actors, actions, s9, 0, Flush(true, false));
  }

  lemma OpeningRun(key: Key, data: Bytes, limit: nat) returns (states: seq<State>, actors: seq<Tid>, actions: seq<Action>)
    requires |data| <= limit
    ensures Run(states, actors, actions) && |states| == 6 && actors == [0, 0, 0, 0, 0]
    ensures states[0].store == map[key := data] && states[0].limit == limit && TouchedReader(states[5], key, data)
    ensures actions[0] == Begin(Open(key, false, false)) && actions[4] == Touch
  {
    states, actors, actions := AcquiringRun(key, data, limit);
    var s4, s5 := ReaderIsTouched(states[3], key, data);
    states, actors, actions := RunExtends(states, actors, actions, s4, 0, Load(Some(Handle(0, data, false))));
    states, actors, actions := RunExtends(states, actors, actions, s5, 0, Touch);
  }

  /** A thread waits in `openFile` for nothing but the contents. */
  predicate LoadingReader(s: State, key: Key, data: Bytes) {
    && s.threads == map[0 := Thread(Open(key, false, false), Loading(0), true)]
    && s.namespace == RWMutex(1, false) && s.store == map[key := data] && |data| <= s.limit
  }

  lemma AcquiringRun(key: Key, data: Bytes, limit: nat) returns (states: seq<State>, actors: seq<Tid>, actions: seq<Action>)
    requires |data| <= limit
    ensures Run(states, actors, actions) && |states| == 4 && actors == [0, 0, 0]
    ensures states[0].store == map[key := data] && states[0].limit == limit && LoadingReader(states[3], key, data)
    ensures actions[0] == Begin(Open(key, false, false))
  {
    var s0 := State(map[], RWMutex(0, false), map[], map[], map[key := data], limit, false);
    var s1, s2, s3 := ReaderAcquires(s0, key);
    states, actors, actions := [s0], [], [];
    states, actors, actions := RunExtends(states, actors, actions, s1, 0, Begin(Open(key, false, false)));
    states, actors, actions := RunExtends(states, actors, actions, s2, 0, Register);
    states, actors, actions := RunExtends(states, actors, actions, s3, 0, Acquire);
  }

  /** A run goes on with an enabled step. */
  lemma RunExtends(states: seq<State>, actors: seq<Tid>, actions: seq<Action>, s': State, t: Tid, a: Action)
    returns (moreStates: seq<State>, moreActors: seq<Tid>, moreActions: seq<Action>)
    requires Run(states, actors, actions) && Step(states[|states| - 1], s', t, a)
    ensures moreStates == states + [s'] && moreActors == actors + [t] && moreActions == actions + [a]
    ensures Run(moreStates, moreActors, moreActions)
  {
    moreStates, moreActors, moreActions := states + [s'], actors + [t], actions + [a];
  }

  /** A thread opened the key for reading, and its handle is dirty. */
  predicate TouchedReader(s: State, key: Key, data: Bytes) {
    && s.threads == map[0 := Thread(Open(key, false, false), Handle(0, data, true), false)]
    && s.namespace == RWMutex(0, false) && s.store == map[key := data] && |data| <= s.limit
  }

  lemma ReaderIsTouched(s3: State, key: Key, data: Bytes) returns (s4: State, s5: State)
    requires LoadingReader(s3, key, data)
    ensures Step(s3, s4, 0, Load(Some(Handle(0, data, false)))) && Step(s4, s5, 0, Touch)
    ensures TouchedReader(s5, key, data)
  {
    var reader := s3.threads[0];
    s4 := With(s3, 0, reader.(phase := Handle(0, data, false), namespace := false)).(namespace := RWMutex(0, false));
    s5 := With(s4, 0, s4.threads[0].(phase := Handle(0, data, true)));
  }

  lemma ReaderAcquires(s0: State, key: Key) returns (s1: State, s2: State, s3: State)
    requires Initial(s0)
    ensures Step(s0, s1, 0, Begin(Open(key, false, false))) && Step(s1, s2, 0, Register) && Step(s2, s3, 0, Acquire)
    ensures s3.threads == map[0 := Thread(Open(key, false, false), Loading(0), true)]
    ensures s3.namespace == RWMutex(1, false) && s3.store == s0.store && s3.limit == s0.limit
  {
    s1 := With(s0, 0, Thread(Open(key, false, false), Entered, true)).(namespace := RWMutex(1, false));
    s2 := Added(s1, 0, 0);
    s3 := Acquired(s2, 0);
  }

  lemma UnlinkThenFlush(s5: State, key: Key, data: Bytes) returns (s6: State, s7: State, s8: State, s9: State)
    requires TouchedReader(s5, key, data)
    ensures Step(s5, s6, 1, Begin(Unlink(key))) && Step(s6, s7, 1, Remove(true)) && Step(s7, s8, 1, Leave)
    ensures key !in s8.store && Step(s8, s9, 0, Flush(true, false)) && s9.store == map[key := data]
  {
    s6 := With(s5, 1, Thread(Unlink(key), Entered, true)).(namespace := RWMutex(0, true));
    s7 := With(s6, 1, Thread(Unlink(key), Leaving, true)).(store := s6.store - {key});
    s8 := Left(s7, 1);
    s9 := With(s8, 0, s8.threads[0].(phase := Handle(0, data, false))).(store := s8.store[key := data]);
  }

  /** A handle on the key that still has something to store, and room to store it. */
  ghost predicate HoldsUnstored(s: State, t: Tid, key: Key) {
    && t in s.threads && s.threads[t].phase.Handle? && s.threads[t].phase.dirty
    && s.threads[t].request.LocksPath() && s.threads[t].request.key == key && |s.threads[t].phase.data| <= s.limit
  }

  /** The thread's next flush or close can bring an absent object back. */
  ghost predicate CanReturn(s: State, t: Tid, key: Key) {
    exists s', a: Action :: (a.Flush? || a.Close?) && Step(s, s', t, a) && key in s'.store
  }

  /** And exactly so: the next flush or close of a thread can bring an absent object back if
      and only if the thread is a dirty handle on it whose contents fit the limit. */
  lemma DirtyHandlesResurrectIff(s: State, t: Tid, key: Key)
    requires key !in s.store
    ensures CanReturn(s, t, key) <==> HoldsUnstored(s, t, key)
  {
    if HoldsUnstored(s, t, key) {
      var th := s.threads[t];
      var s' := With(s, t, th.(phase := th.phase.(dirty := false))).(store := Persisted(s, th, true));
      var a := Flush(true, false);
      assert a.Flush? && Step(s, s', t, a) && key in s'.store;
    }
    if CanReturn(s, t, key) {
      var s', a: Action :| (a.Flush? || a.Close?) && Step(s, s', t, a) && key in s'.store;
    }
  }

  /** No other step brings it back, but a create of the key or administration. */
  lemma OnlyDirtyHandlesResurrect(s: State, s': State, t: Tid, a: Action, key: Key)
    requires LocksOk(s) && Step(s, s', t, a) && key !in s.store && key in s'.store
    ensures t in s.threads
    ensures
      || s.threads[t].request.Administer?
      || (s.threads[t].request.Create? && s.threads[t].request.key == key && s.threads[t].phase.Loading?)
      || ((a.Flush? || a.Close?) && HoldsUnstored(s, t, key))
  {
    OnlyLockHoldersChangeStore(s, s', t, a, key);
    assert ThreadOk(s, t);
  }
}
