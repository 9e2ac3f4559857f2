/** The authorization state of a volume: cached grants, their expiry timer, and the
  edit and encrypt sessions.

  Every method is one critical section under the volume's unlock mutex, so any
  interleaving of callers, timers and monitors is a sequence of these calls.  Two
  ghost fields remember the past: `history` holds the prompts that were answered
  and the resets between them, `fates` tells how each session ended.  Closing a
  session channel twice would panic; `CloseChannel` requires that it is open.
*/
module Authorization {
  import opened Optional

  type Time = int
  type Pid = nat
  type Identity = nat
  type Channel = nat

  datatype Scope = Once | File | Process | Vault

  /** What a grant covers. */
  datatype GrantKey = FileGrant(item: string) | ProcessGrant(pid: Pid) | VaultGrant

  /** Who asked for what, and under which unlock scope. */
  datatype Request = Request(scope: Scope, item: string, pid: Pid)

  datatype Event = Prompted(request: Request, at: Time, identity: Identity) | Reset

  /** Where a session is registered. */
  datatype Slot = Edit(item: string, token: string) | Encrypt(token: string)

  datatype Session = Session(identity: Identity, owner: Pid, done: Channel)

  /** How a session left the table.  Only a replaced one leaves its channel open. */
  datatype Fate = Live(slot: Slot) | Ended | OwnerExited | Swept | Locked | Replaced

  /** How many times the volume had been locked when the identity of a session was obtained, and when
      the session was registered. */
  datatype Origin = Origin(obtained: nat, registered: nat)

  datatype Source = BySession(slot: Slot) | ByCache | ByPrompt | Refused

  /** A missing object key never becomes a vault-wide grant. */
  function AuthorizationKey(request: Request): Option<GrantKey> {
    if request.item == "" then None
    else
      match request.scope
      case Once => None
      case File => Some(FileGrant(request.item))
      case Process => if request.pid == 0 then None else Some(ProcessGrant(request.pid))
      case Vault => Some(VaultGrant)
  }

  /** What an answered prompt entitles to, in terms of the requests alone: under one scope, requests for the
      same object, or from the same known process, or any; never without a scope, and never a
      request without an object. */
  predicate Covers(asked: Request, wanted: Request) {
    && asked.scope == wanted.scope && asked.item != "" && wanted.item != ""
    && match wanted.scope
       case Once => false
       case File => asked.item == wanted.item
       case Process => asked.pid == wanted.pid != 0
       case Vault => true
  }

  /** Keys are made so that a grant for one request serves another exactly if the first covers it. */
  lemma KeysCover(asked: Request, wanted: Request)
    ensures Covers(asked, wanted) <==> AuthorizationKey(asked).Some? && AuthorizationKey(asked) == AuthorizationKey(wanted)
  {
  }

  /** A prompt that was answered for a request with this key at `at`, and nothing was reset since. */
  ghost predicate Backed(history: seq<Event>, key: GrantKey, at: Time) {
    exists i: nat :: BackedBy(history, i, key, at)
  }

  ghost predicate BackedBy(history: seq<Event>, i: nat, key: GrantKey, at: Time) {
    && Unreset(history, i) && AuthorizationKey(history[i].request) == Some(key) && history[i].at == at
  }

  /** A prompt that was answered, with no reset since. */
  predicate Unreset(history: seq<Event>, i: nat) {
    i < |history| && history[i].Prompted? && Reset !in history[i..]
  }

  /** A prompt that covers the request was answered less than `duration` before `current`, and there
      was no reset since. */
  ghost predicate Standing(history: seq<Event>, wanted: Request, current: Time, duration: nat) {
    exists i: nat :: Unreset(history, i) && Covers(history[i].request, wanted)
                     && history[i].at <= current < history[i].at + duration
  }

  /** The identity answered a prompt, and there was no reset since. */
  ghost predicate Answered(history: seq<Event>, identity: Identity) {
    exists i: nat :: Unreset(history, i) && history[i].identity == identity
  }

  lemma BackingStands(history: seq<Event>, wanted: Request, at: Time, current: Time, duration: nat)
    requires AuthorizationKey(wanted).Some? && Backed(history, AuthorizationKey(wanted).value, at)
    requires at <= current < at + duration
    ensures Standing(history, wanted, current, duration)
  {
    var i: nat :| BackedBy(history, i, AuthorizationKey(wanted).value, at);
    KeysCover(history[i].request, wanted);
  }

  lemma UnresetStays(history: seq<Event>, i: nat, event: Event)
    requires Unreset(history, i) && event.Prompted?
    ensures Unreset(history + [event], i)
  {
    assert (history + [event])[i..] == history[i..] + [event];
  }

  lemma BackedStaysBacked(history: seq<Event>, key: GrantKey, at: Time, event: Event)
    requires Backed(history, key, at) && event.Prompted?
    ensures Backed(history + [event], key, at)
  {
    var i: nat :| BackedBy(history, i, key, at);
    UnresetStays(history, i, event);
    assert BackedBy(history + [event], i, key, at);
  }

  lemma AnsweredStays(history: seq<Event>, identity: Identity, event: Event)
    requires event.Prompted? && (Answered(history, identity) || event.identity == identity)
    ensures Answered(history + [event], identity)
  {
    var longer := history + [event];
    if i: nat :| Unreset(history, i) && history[i].identity == identity {
      UnresetStays(history, i, event);
      assert longer[i] == history[i];
    } else {
      assert longer[|history|..] == [event];
      assert Unreset(longer, |history|);
    }
  }

  lemma NewPromptIsBacked(history: seq<Event>, request: Request, at: Time, identity: Identity)
    requires AuthorizationKey(request).Some?
    ensures Backed(history + [Prompted(request, at, identity)], AuthorizationKey(request).value, at)
  {
    var longer := history + [Prompted(request, at, identity)];
    assert longer[|history|..] == [Prompted(request, at, identity)];
    assert BackedBy(longer, |history|, AuthorizationKey(request).value, at);
  }

  /** `t` is the latest of the recorded expiry times. */
  ghost predicate IsLatest(authorized: map<GrantKey, Time>, t: Time) {
    && (exists k :: k in authorized && authorized[k] == t)
    && (forall k | k in authorized :: authorized[k] <= t)
  }

  /** Every grant runs for the unlock duration from an answered prompt. */
  ghost predicate GrantsOk(authorized: map<GrantKey, Time>, history: seq<Event>, now: Time, duration: nat) {
    forall k | k in authorized :: GrantOk(history, k, authorized[k], now, duration)
  }

  ghost predicate GrantOk(history: seq<Event>, k: GrantKey, until: Time, now: Time, duration: nat) {
    duration < until <= now + duration && Backed(history, k, until - duration)
  }

  /** An unexpired grant for the request stands. */
  lemma GrantStands(authorized: map<GrantKey, Time>, history: seq<Event>, now: Time, duration: nat, request: Request)
    requires GrantsOk(authorized, history, now, duration) && Grants(authorized, duration, AuthorizationKey(request), now)
    ensures Standing(history, request, now, duration)
  {
    var key := AuthorizationKey(request).value;
    assert GrantOk(history, key, authorized[key], now, duration);
    BackingStands(history, request, authorized[key] - duration, now, duration);
  }

  ghost predicate TimerOk(authorized: map<GrantKey, Time>, timer: Option<Time>) {
    authorized != map[] ==> timer.Some? && IsLatest(authorized, timer.value)
  }

  /** A grant for this key is recorded, and has not expired. */
  predicate Grants(authorized: map<GrantKey, Time>, duration: nat, key: Option<GrantKey>, current: Time) {
    duration > 0 && key.Some? && key.value in authorized && current < authorized[key.value]
  }

  /** An answered prompt is recorded as a grant if it can be, and no other grant is added or prolonged. */
  ghost predicate Granted(was: map<GrantKey, Time>, now: map<GrantKey, Time>, key: Option<GrantKey>, answered: Time, duration: nat) {
    && (forall k | k in now && !(duration > 0 && key == Some(k)) :: k in was && now[k] == was[k])
    && (duration > 0 && key.Some? ==> key.value in now && now[key.value] == answered + duration)
  }

  ghost function Unexpired(authorized: map<GrantKey, Time>, current: Time): map<GrantKey, Time> {
    map k | k in authorized && current < authorized[k] :: authorized[k]
  }

  /** The deleting loop over the grants. */
  method DropExpired(authorized: map<GrantKey, Time>, current: Time) returns (left: map<GrantKey, Time>)
    ensures left == Unexpired(authorized, current)
  {
    left := authorized;
    var todo := authorized.Keys;
    while todo != {}
      invariant todo <= left.Keys <= authorized.Keys
      invariant forall k | k in left :: left[k] == authorized[k]
      invariant forall k | k in authorized :: k in left <==> k in todo || current < authorized[k]
      decreases todo
    {
      var key :| key in todo;
      if !(current < left[key]) { left := left - {key}; }
      todo := todo - {key};
    }
  }

  /** If anything survives an expiry pass, the latest grant does. */
  lemma ExpiryKeepsTimer(authorized: map<GrantKey, Time>, timer: Option<Time>, current: Time)
    requires TimerOk(authorized, timer)
    ensures TimerOk(Unexpired(authorized, current), timer)
  {
    var left := Unexpired(authorized, current);
    if left != map[] {
      var kept :| kept in left;
      var latest :| latest in authorized && authorized[latest] == timer.value;
      assert latest in left;
    }
  }

  lemma GrantKeepsGrantsOk(authorized: map<GrantKey, Time>, history: seq<Event>, now: Time, duration: nat,
                           request: Request, identity: Identity)
    requires GrantsOk(authorized, history, now, duration) && now > 0 && AuthorizationKey(request).Some?
    ensures GrantsOk(authorized[AuthorizationKey(request).value := now + duration],
                     history + [Prompted(request, now, identity)], now, duration)
  {
    var key, event := AuthorizationKey(request).value, Prompted(request, now, identity);
    NewPromptIsBacked(history, request, now, identity);
    forall k | k in authorized && k != key ensures GrantOk(history + [event], k, authorized[k], now, duration) {
      assert GrantOk(history, k, authorized[k], now, duration);
      BackedStaysBacked(history, k, authorized[k] - duration, event);
    }
  }

  /** Another answered prompt takes nothing away. */
  lemma PromptKeepsGrantsOk(authorized: map<GrantKey, Time>, history: seq<Event>, now: Time, duration: nat, event: Event)
    requires GrantsOk(authorized, history, now, duration) && event.Prompted?
    ensures GrantsOk(authorized, history + [event], now, duration)
  {
    forall k | k in authorized ensures GrantOk(history + [event], k, authorized[k], now, duration) {
      assert GrantOk(history, k, authorized[k], now, duration);
      BackedStaysBacked(history, k, authorized[k] - duration, event);
    }
  }

  /** A session answers requests of its own process, or of descendants for its object. */
  predicate Serves(slot: Slot, session: Session, item: string, pid: Pid, alive: set<Pid>, related: set<(Pid, Pid)>) {
    && session.owner in alive
    && match slot
       case Encrypt(_) => pid != 0 && session.owner == pid
       case Edit(o, _) => o == item && (pid == 0 || (pid, session.owner) in related)
  }

  ghost predicate ChannelsOk(sessions: map<Slot, Session>, fates: map<Channel, Fate>, nextChannel: Channel) {
    && (forall c | c in fates :: c < nextChannel)
    && (forall s | s in sessions :: sessions[s].done in fates && fates[sessions[s].done] == Live(s))
    && (forall c | c in fates && fates[c].Live? ::
          fates[c].slot in sessions && sessions[fates[c].slot].done == c)
  }

  /** A live session was registered after the last lock; its identity may be older. */
  predicate OriginOk(origin: Origin, fate: Fate, locks: nat) {
    origin.obtained <= origin.registered <= locks && (fate.Live? ==> origin.registered == locks)
  }

  ghost predicate OriginsOk(fates: map<Channel, Fate>, origins: map<Channel, Origin>, locks: nat) {
    forall c | c in fates :: c in origins && OriginOk(origins[c], fates[c], locks)
  }

  /** Only sessions of dead owners are gone. */
  ghost predicate SweptFrom(before: map<Slot, Session>, after: map<Slot, Session>, alive: set<Pid>) {
    && (forall s | s in after :: s in before && after[s] == before[s])
    && (forall s | s in before && s !in after :: before[s].owner !in alive)
  }

  ghost predicate OnlyEncrypt(before: map<Slot, Session>, after: map<Slot, Session>) {
    forall s | s in before && s !in after :: s.Encrypt?
  }

  ghost predicate AllPassedOver(sessions: map<Slot, Session>, todo: set<Slot>, pid: Pid, alive: set<Pid>) {
    forall s | s in sessions && s.Encrypt? && s !in todo :: sessions[s].owner != pid && sessions[s].owner in alive
  }

  ghost predicate NoneServes(sessions: map<Slot, Session>, todo: set<Slot>, item: string, pid: Pid, alive: set<Pid>, related: set<(Pid, Pid)>) {
    forall s | s in sessions && s.Edit? && s.item == item && s !in todo :: !Serves(s, sessions[s], item, pid, alive, related)
  }

  ghost predicate SomeLocked(before: map<Channel, Fate>, after: map<Channel, Fate>) {
    && after.Keys == before.Keys
    && forall c | c in after :: after[c] == before[c] || (before[c].Live? && after[c] == Locked)
  }

  lemma NoneIsLive(before: map<Channel, Fate>, after: map<Channel, Fate>, nextChannel: Channel)
    requires ChannelsOk(map[], after, nextChannel) && SomeLocked(before, after)
    ensures after == map c | c in before :: if before[c].Live? then Locked else before[c]
  {
  }

  /** The fates after a new channel takes over a slot. */
  function Registered(sessions: map<Slot, Session>, fates: map<Channel, Fate>, slot: Slot, channel: Channel): map<Channel, Fate> {
    (if slot in sessions then fates[sessions[slot].done := Replaced] else fates)[channel := Live(slot)]
  }

  lemma RegisteringKeepsChannels(sessions: map<Slot, Session>, fates: map<Channel, Fate>, slot: Slot, session: Session)
    requires ChannelsOk(sessions, fates, session.done)
    ensures ChannelsOk(sessions[slot := session], Registered(sessions, fates, slot, session.done), session.done + 1)
  {
  }

  lemma RegisteringKeepsOrigins(sessions: map<Slot, Session>, fates: map<Channel, Fate>, slot: Slot, channel: Channel,
                                origins: map<Channel, Origin>, obtained: nat, locks: nat)
    requires ChannelsOk(sessions, fates, channel) && OriginsOk(fates, origins, locks) && obtained <= locks
    ensures OriginsOk(Registered(sessions, fates, slot, channel), origins[channel := Origin(obtained, locks)], locks)
  {
  }

  class Authorizer {
    var duration: nat
    var scope: Scope
    var cachedIdentity: Option<Identity>
    var authorized: map<GrantKey, Time>
    var timer: Option<Time>
    var sessions: map<Slot, Session>
    var nextChannel: Channel  // stands for `make(chan struct{})`
    ghost var history: seq<Event>
    ghost var now: Time
    ghost var fates: map<Channel, Fate>
    ghost var locks: nat
    ghost var origins: map<Channel, Origin>

    // ------------------------------------------------------------ invariants

    /** An identity is cached iff a grant is recorded; it answered a prompt; every grant is backed
        by an answered prompt; and the timer targets the latest grant. */
    ghost predicate CacheOk()
      reads this`now, this`duration, this`cachedIdentity, this`authorized, this`timer, this`history
    {
      && now > 0
      && (cachedIdentity.Some? <==> authorized != map[])
      && (cachedIdentity.Some? ==> Answered(history, cachedIdentity.value))
      && GrantsOk(authorized, history, now, duration)
      && TimerOk(authorized, timer)
    }

    /** Registered sessions and live channels are the same thing. */
    ghost predicate SessionsOk()
      reads this`sessions, this`fates, this`nextChannel, this`locks, this`origins
    {
      ChannelsOk(sessions, fates, nextChannel) && OriginsOk(fates, origins, locks)
    }

    /** The volume was not locked since the identity of the session was obtained. */
    ghost predicate NoLockSince(channel: Channel)
      reads this`locks, this`origins
    {
      channel in origins && origins[channel].obtained == locks
    }

    ghost predicate Valid()
      reads this
    {
      CacheOk() && SessionsOk()
    }

    /** Fates are decided at most once, and channels are never forgotten. */
    twostate predicate FatesOnlyDecided()
      reads this`fates
    {
      forall c | c in old(fates) ::
        c in fates && (!old(fates)[c].Live? ==> fates[c] == old(fates)[c])
    }

    constructor (duration: nat, scope: Scope, start: Time)
      requires start > 0
      ensures Valid() && authorized == map[] && sessions == map[] && now == start && locks == 0
      ensures this.duration == duration && this.scope == scope && history == []
    {
      this.duration, this.scope := duration, scope;
      cachedIdentity, authorized, timer, sessions := None, map[], None, map[];
      history, now, fates, nextChannel, locks, origins := [], start, map[], 0, 0, map[];
    }

    // --------------------------------------------------------------- grants

    /** `removeExpiredAuthorizationsLocked`. */
    method RemoveExpired(current: Time)
      requires CacheOk() && current == now
      modifies this`authorized, this`cachedIdentity
      ensures CacheOk()
      ensures authorized == Unexpired(old(authorized), current)
      ensures cachedIdentity == if authorized == map[] then None else old(cachedIdentity)
    {
      ExpiryKeepsTimer(authorized, timer, current);
      authorized := DropExpired(authorized, current);
      if authorized == map[] { cachedIdentity := None; }
    }

    /** `scheduleIdentityExpiryLocked`: retarget the timer at the latest grant. */
    method ScheduleExpiry()
      requires forall k | k in authorized :: authorized[k] > 0
      modifies this`timer, this`cachedIdentity
      ensures authorized == map[] ==> timer == None && cachedIdentity == None
      ensures authorized != map[] ==>
        timer.Some? && IsLatest(authorized, timer.value) && cachedIdentity == old(cachedIdentity)
    {
      var latest: Time := 0;
      var todo := authorized.Keys;
      while todo != {}
        invariant todo <= authorized.Keys
        invariant forall k | k in authorized && k !in todo :: authorized[k] <= latest
        invariant latest == 0 || exists k :: k in authorized && authorized[k] == latest
        invariant todo != authorized.Keys ==> latest > 0
        invariant latest >= 0
        decreases todo
      {
        var key :| key in todo;
        if authorized[key] > latest { latest := authorized[key]; }
        todo := todo - {key};
      }
      if latest == 0 {
        assert authorized.Keys == {};
        timer, cachedIdentity := None, None;
      } else {
        timer := Some(latest);
      }
    }

    /** `expireCachedIdentity`: the timer callback, which may run late or stale. */
    method TimerFired(current: Time)
      requires CacheOk() && current == now
      modifies this`authorized, this`cachedIdentity, this`timer
      ensures CacheOk()
      ensures authorized == Unexpired(old(authorized), current)
      ensures authorized == map[] ==> timer == None
    {
      RemoveExpired(current);
      if authorized == map[] {
        timer := None;
        return;
      }
      ScheduleExpiry();
    }

    /** A tick of `expireProcessAuthorization`: the grant dies with its process, unless
        it was renewed or removed in the meantime. */
    method ProcessTick(key: GrantKey, until: Time, ownerAlive: bool) returns (watching: bool)
      requires CacheOk()
      modifies this`authorized, this`cachedIdentity, this`timer
      ensures CacheOk()
      ensures watching <==> key in old(authorized) && old(authorized)[key] == until && ownerAlive
      ensures authorized ==
        if key in old(authorized) && old(authorized)[key] == until && !ownerAlive
        then old(authorized) - {key} else old(authorized)
    {
      if key !in authorized || authorized[key] != until { return false; }
      if ownerAlive { return true; }
      authorized := authorized - {key};
      if authorized == map[] { cachedIdentity := None; }
      ScheduleExpiry();
      watching := false;
    }

    /** `ConfigureAuthorization` and `ConfigurePrompter` drop every grant. */
    method Reconfigure(newDuration: nat, newScope: Scope)
      requires CacheOk()
      modifies this`duration, this`scope, this`authorized, this`cachedIdentity, this`timer, this`history
      ensures CacheOk() && authorized == map[] && cachedIdentity == None && timer == None
      ensures duration == newDuration && scope == newScope && history == old(history) + [Reset]
    {
      timer, duration, scope := None, newDuration, newScope;
      cachedIdentity, authorized := None, map[];
      history := history + [Reset];
    }

    /** Time passes. */
    ghost method Tick(elapsed: nat)
      requires CacheOk()
      modifies this`now
      ensures CacheOk() && now == old(now) + elapsed
    {
      now := now + elapsed;
    }

    // ------------------------------------------------------------ requests

    /** `unlockIdentityForRequest`: a live session answers first, then the cache, then the user. */
    method RequestIdentity(item: string, pid: Pid, alive: set<Pid>, related: set<(Pid, Pid)>,
                           started: Time, answered: Time, answer: Option<Identity>)
      returns (identity: Option<Identity>, source: Source, ghost obtained: nat)
      requires Valid() && started == now && started <= answered
      modifies this`sessions, this`fates, this`authorized, this`cachedIdentity, this`timer, this`history, this`now
      ensures Valid() && FatesOnlyDecided()
      ensures source.Refused? <==> identity.None?
      ensures source.BySession? ==>
        && source.slot in old(sessions)
        && Serves(source.slot, old(sessions)[source.slot], item, pid, alive, related)
        && identity == Some(old(sessions)[source.slot].identity)
        && authorized == old(authorized) && history == old(history)
      ensures source.ByCache? ==>
        && identity == old(cachedIdentity) && history == old(history) && Answered(history, identity.value)
        && Standing(history, Request(scope, item, pid), started, duration)
      ensures !source.BySession? ==>
        (source.ByCache? <==> Grants(old(authorized), duration, AuthorizationKey(Request(scope, item, pid)), started))
      ensures source.ByPrompt? ==>
        && identity == answer && now == answered
        && history == old(history) + [Prompted(Request(scope, item, pid), answered, answer.value)]
        && Granted(old(authorized), authorized, AuthorizationKey(Request(scope, item, pid)), answered, duration)
      ensures forall s | s in sessions :: s in old(sessions) && sessions[s] == old(sessions)[s]
      ensures !source.ByPrompt? ==> history == old(history) && authorized.Keys <= old(authorized).Keys
      ensures (answer.Some? ==> identity.Some?) && started <= now <= answered
      ensures forall s | s in old(sessions) && Serves(s, old(sessions)[s], item, pid, alive, related) :: source.BySession?
      ensures source.BySession? ==> source.slot in sessions && sessions[source.slot] == old(sessions)[source.slot]
      ensures obtained == if source.BySession? then origins[old(sessions)[source.slot].done].obtained else locks
      ensures obtained <= locks
    {
      identity, source := SessionIdentity(item, pid, alive, related);
      obtained := if source.BySession? then origins[old(sessions)[source.slot].done].obtained else locks;
      if identity.None? {
        identity, source := CacheOrPrompt(Request(scope, item, pid), started, answered, answer);
      }
    }

    /** The cache and the prompt.  The mutex is held while prompting whenever the answer can
        be cached; `started` and `answered` are the clock readings around the prompt, and
        `answer` is what the prompter returned.

        A cached identity is served only on a standing grant: a prompt that covers the request was
        answered less than the unlock duration ago, with no reset since. */
    method CacheOrPrompt(request: Request, started: Time, answered: Time, answer: Option<Identity>)
      returns (identity: Option<Identity>, source: Source)
      requires CacheOk() && started == now && started <= answered && request.scope == scope
      modifies this`authorized, this`cachedIdentity, this`timer, this`history, this`now
      ensures CacheOk()
      ensures source.ByCache? || source.ByPrompt? || source.Refused?
      ensures source.Refused? <==> identity.None?
      ensures source.ByCache? <==> Grants(old(authorized), duration, AuthorizationKey(request), started)
      ensures source.ByCache? ==>
        && identity == old(cachedIdentity) && history == old(history) && Answered(history, identity.value)
        && Standing(history, request, started, duration)
      ensures source.ByPrompt? ==>
        identity == answer && now == answered && history == old(history) + [Prompted(request, answered, answer.value)]
      ensures source.ByPrompt? ==> Granted(old(authorized), authorized, AuthorizationKey(request), answered, duration)
      ensures source.ByPrompt? && duration > 0 && AuthorizationKey(request).Some? ==> cachedIdentity == answer
      ensures !source.ByPrompt? ==> history == old(history) && authorized.Keys <= old(authorized).Keys
      ensures (answer.Some? ==> identity.Some?) && started <= now <= answered
    {
      var key := AuthorizationKey(request);
      var cacheable := duration > 0 && key.Some?;
      if cacheable {
        identity := CachedIdentity(request, started);
        if identity.Some? { return identity, ByCache; }
      }
      Tick(answered - now);
      if answer.None? { return None, Refused; }
      if cacheable { Grant(request, answered, answer.value); } else { LogPrompt(request, answered, answer.value); }
      identity, source := answer, ByPrompt;
    }

    /** An answer that is not cached leaves no trace but in the log. */
    ghost method LogPrompt(request: Request, answered: Time, identity: Identity)
      requires CacheOk()
      modifies this`history
      ensures CacheOk() && history == old(history) + [Prompted(request, answered, identity)]
    {
      var event := Prompted(request, answered, identity);
      PromptKeepsGrantsOk(authorized, history, now, duration, event);
      if cachedIdentity.Some? { AnsweredStays(history, cachedIdentity.value, event); }
      history := history + [event];
    }

    /** The session half of a request. */
    method SessionIdentity(item: string, pid: Pid, alive: set<Pid>, related: set<(Pid, Pid)>)
      returns (identity: Option<Identity>, source: Source)
      requires SessionsOk()
      modifies this`sessions, this`fates
      ensures SessionsOk() && FatesOnlyDecided()
      ensures forall s | s in sessions :: s in old(sessions) && sessions[s] == old(sessions)[s]
      ensures identity.None? <==> source == Refused
      ensures forall s | s in old(sessions) && Serves(s, old(sessions)[s], item, pid, alive, related) :: identity.Some?
      ensures source.BySession? ==> source.slot in sessions && sessions[source.slot] == old(sessions)[source.slot]
      ensures identity.Some? ==>
        && source.BySession? && source.slot in old(sessions)
        && Serves(source.slot, old(sessions)[source.slot], item, pid, alive, related)
        && identity == Some(old(sessions)[source.slot].identity)
    {
      identity, source := ActiveEncryptIdentity(pid, alive);
      if identity.Some? { return; }
      identity, source := ActiveEditIdentity(item, pid, alive, related);
    }

    /** The cache half of a request: drop what expired, then look for a standing grant. */
    method CachedIdentity(request: Request, started: Time) returns (identity: Option<Identity>)
      requires CacheOk() && started == now && duration > 0 && AuthorizationKey(request).Some?
      modifies this`authorized, this`cachedIdentity
      ensures CacheOk() && authorized == Unexpired(old(authorized), started)
      ensures identity.Some? <==> Grants(old(authorized), duration, AuthorizationKey(request), started)
      ensures identity.Some? ==> identity == old(cachedIdentity) && Answered(history, identity.value)
      ensures identity.Some? ==> Standing(history, request, started, duration)
    {
      RemoveExpired(started);
      var key := AuthorizationKey(request).value;
      identity := None;
      assert key in authorized ==> authorized != map[];
      if cachedIdentity.Some? && key in authorized && started < authorized[key] {
        identity := cachedIdentity;
        GrantStands(authorized, history, now, duration, request);
      }
    }

    /** Records an answered prompt as a grant. */
    method Grant(request: Request, answered: Time, identity: Identity)
      requires CacheOk() && now == answered && duration > 0 && AuthorizationKey(request).Some?
      modifies this`authorized, this`cachedIdentity, this`timer, this`history
      ensures CacheOk()
      ensures history == old(history) + [Prompted(request, answered, identity)]
      ensures authorized == old(authorized)[AuthorizationKey(request).value := answered + duration]
      ensures cachedIdentity == Some(identity)
    {
      GrantKeepsGrantsOk(authorized, history, now, duration, request, identity);
      AnsweredStays(history, identity, Prompted(request, answered, identity));
      history := history + [Prompted(request, answered, identity)];
      cachedIdentity := Some(identity);
      var key := AuthorizationKey(request).value;
      authorized := authorized[key := answered + duration];
      assert key in authorized;
      ScheduleExpiry();
    }

    // ------------------------------------------------------------- sessions

    /** `close(session.done)` with the removal that always goes with it. */
    method CloseChannel(slot: Slot, ghost fate: Fate)
      requires SessionsOk() && slot in sessions && !fate.Live? && fate != Replaced
      requires fates[sessions[slot].done].Live?
      modifies this`sessions, this`fates
      ensures SessionsOk()
      ensures sessions == old(sessions) - {slot}
      ensures fates == old(fates)[old(sessions)[slot].done := fate]
    {
      fates := fates[sessions[slot].done := fate];
      sessions := sessions - {slot};
    }

    /** Removes a session whose owner is gone. */
    method Sweep(slot: Slot, alive: set<Pid>)
      requires SessionsOk() && slot in sessions && sessions[slot].owner !in alive
      modifies this`sessions, this`fates
      ensures SessionsOk() && FatesOnlyDecided() && sessions == old(sessions) - {slot}
    {
      CloseChannel(slot, Swept);
    }

    /** `activeEncryptIdentityLocked`: dead owners met on the way are swept. */
    method ActiveEncryptIdentity(pid: Pid, alive: set<Pid>) returns (identity: Option<Identity>, source: Source)
      requires SessionsOk()
      modifies this`sessions, this`fates
      ensures SessionsOk() && FatesOnlyDecided()
      ensures forall s | s in sessions :: s in old(sessions) && sessions[s] == old(sessions)[s]
      ensures forall s | s in old(sessions) && s !in sessions :: s.Encrypt? && old(sessions)[s].owner !in alive
      ensures identity.None? <==> source == Refused
      ensures identity.Some? ==>
        && source.BySession? && source.slot.Encrypt? && source.slot in sessions && source.slot in old(sessions)
        && old(sessions)[source.slot].owner == pid && pid != 0 && pid in alive
        && identity == Some(old(sessions)[source.slot].identity)
      ensures identity.None? && pid != 0 ==>
        forall s | s in sessions && s.Encrypt? :: sessions[s].owner != pid && sessions[s].owner in alive
    {
      identity, source := None, Refused;
      if pid == 0 { return; }
      var todo := set s | s in sessions && s.Encrypt?;
      while todo != {}
        invariant SessionsOk() && FatesOnlyDecided()
        invariant todo <= sessions.Keys && (forall s | s in todo :: s.Encrypt?)
        invariant SweptFrom(old(sessions), sessions, alive) && OnlyEncrypt(old(sessions), sessions)
        invariant AllPassedOver(sessions, todo, pid, alive)
        decreases todo
      {
        var slot :| slot in todo;
        todo := todo - {slot};
        if sessions[slot].owner !in alive {
          Sweep(slot, alive);
        } else if sessions[slot].owner == pid {
          return Some(sessions[slot].identity), BySession(slot);
        }
      }
    }

    /** `activeEditIdentityLocked`: a session of this object whose owner is an ancestor. */
    method ActiveEditIdentity(item: string, pid: Pid, alive: set<Pid>, related: set<(Pid, Pid)>)
      returns (identity: Option<Identity>, source: Source)
      requires SessionsOk()
      modifies this`sessions, this`fates
      ensures SessionsOk() && FatesOnlyDecided()
      ensures forall s | s in sessions :: s in old(sessions) && sessions[s] == old(sessions)[s]
      ensures forall s | s in old(sessions) && s !in sessions :: s.Edit? && old(sessions)[s].owner !in alive
      ensures identity.None? <==> source == Refused
      ensures identity.Some? ==>
        && source.BySession? && source.slot.Edit? && source.slot in sessions && source.slot in old(sessions)
        && source.slot.item == item && old(sessions)[source.slot].owner in alive
        && (pid == 0 || (pid, old(sessions)[source.slot].owner) in related)
        && identity == Some(old(sessions)[source.slot].identity)
      ensures identity.None? ==> NoneServes(sessions, {}, item, pid, alive, related)
    {
      identity, source := None, Refused;
      var todo := set s | s in sessions && s.Edit? && s.item == item;
      while todo != {}
        invariant SessionsOk() && FatesOnlyDecided()
        invariant forall s | s in todo :: s in sessions && s.Edit? && s.item == item
        invariant SweptFrom(old(sessions), sessions, alive) && forall s | s in old(sessions) && s !in sessions :: s.Edit?
        invariant NoneServes(sessions, todo, item, pid, alive, related)
        decreases todo
      {
        var slot :| slot in todo;
        todo := todo - {slot};
        if sessions[slot].owner !in alive {
          Sweep(slot, alive);
        } else if pid == 0 || (pid, sessions[slot].owner) in related {
          return Some(sessions[slot].identity), BySession(slot);
        }
      }
    }

    /** The second step of `beginEditSession` and `beginEncryptSession`: registers a session under a
        token, with an identity that was obtained before, when the volume had been locked `obtained`
        times.  A reused token replaces the previous session without closing its channel. */
    method BeginSession(slot: Slot, owner: Pid, identity: Identity, ghost obtained: nat) returns (done: Option<Channel>)
      requires SessionsOk() && obtained <= locks
      modifies this`sessions, this`fates, this`nextChannel, this`origins
      ensures SessionsOk() && FatesOnlyDecided()
      ensures owner == 0 ==> done == None && sessions == old(sessions) && fates == old(fates) && origins == old(origins)
      ensures owner != 0 ==>
        && done.Some? && done.value !in old(fates)
        && sessions == old(sessions)[slot := Session(identity, owner, done.value)]
        && fates == Registered(old(sessions), old(fates), slot, done.value)
        && origins == old(origins)[done.value := Origin(obtained, locks)]
        && (NoLockSince(done.value) <==> obtained == locks)
    {
      if owner == 0 { return None; }
      var channel := nextChannel;
      RegisteringKeepsChannels(sessions, fates, slot, Session(identity, owner, channel));
      RegisteringKeepsOrigins(sessions, fates, slot, channel, origins, obtained, locks);
      nextChannel := nextChannel + 1;
      if slot in sessions {
        fates := fates[sessions[slot].done := Replaced];
      }
      fates := fates[channel := Live(slot)];
      origins := origins[channel := Origin(obtained, locks)];
      sessions := sessions[slot := Session(identity, owner, channel)];
      done := Some(channel);
    }

    /** Both steps, with the volume locked any number of times in between.  The volume was not locked
        since the identity of the session was obtained if and only if it was not locked between the
        steps, and, if an older session gave the identity, not since that one obtained it. */
    method OpenSession(slot: Slot, owner: Pid, item: string, alive: set<Pid>, related: set<(Pid, Pid)>,
                       started: Time, answered: Time, answer: Option<Identity>, between: nat)
      returns (done: Option<Channel>, identity: Option<Identity>, source: Source)
      requires Valid() && started == now && started <= answered && owner != 0
      modifies this
      ensures Valid() && FatesOnlyDecided() && locks == old(locks) + (if identity.Some? then between else 0)
      ensures done.None? <==> identity.None?
      ensures done.Some? ==> slot in sessions && sessions[slot] == Session(identity.value, owner, done.value)
      ensures source.BySession? ==> source.slot in old(sessions)
      ensures (source.Refused? ==> identity.None?) && (source.ByCache? ==> identity == old(cachedIdentity)) && (source.ByPrompt? ==> identity == answer)
      ensures done.Some? ==>
        (NoLockSince(done.value) <==> between == 0 && (source.BySession? ==> old(NoLockSince(sessions[source.slot].done))))
      ensures done.Some? && between > 0 ==> sessions == map[slot := Session(identity.value, owner, done.value)]
      ensures (answer.Some? ==> identity.Some?) && started <= now <= answered
    {
      ghost var obtained;
      identity, source, obtained := RequestIdentity(item, owner, alive, related, started, answered, answer);
      if identity.None? { return None, identity, source; }
      LockTimes(between);
      done := BeginSession(slot, owner, identity.value, obtained);
    }

    /** `endEditSession` and `endEncryptSession`: only the owner may end a session. */
    method EndSession(slot: Slot, pid: Pid) returns (permitted: bool)
      requires SessionsOk()
      modifies this`sessions, this`fates
      ensures SessionsOk() && FatesOnlyDecided()
      ensures permitted <==> slot in old(sessions) ==> pid != 0 && old(sessions)[slot].owner == pid
      ensures slot in old(sessions) && permitted ==>
        sessions == old(sessions) - {slot} && fates == old(fates)[old(sessions)[slot].done := Ended]
      ensures slot !in old(sessions) || !permitted ==> sessions == old(sessions) && fates == old(fates)
    {
      if slot !in sessions { return true; }
      if pid == 0 || sessions[slot].owner != pid { return false; }
      CloseChannel(slot, Ended);
      permitted := true;
    }

    /** A monitor that saw its owner exit.  The slot may meanwhile hold another session;
        it is removed too if it has the same owner. */
    method OwnerExit(slot: Slot, owner: Pid)
      requires SessionsOk()
      modifies this`sessions, this`fates
      ensures SessionsOk() && FatesOnlyDecided()
      ensures slot in old(sessions) && old(sessions)[slot].owner == owner ==>
        sessions == old(sessions) - {slot} && fates == old(fates)[old(sessions)[slot].done := OwnerExited]
      ensures slot !in old(sessions) || old(sessions)[slot].owner != owner ==>
        sessions == old(sessions) && fates == old(fates)
    {
      if slot !in sessions || sessions[slot].owner != owner { return; }
      CloseChannel(slot, OwnerExited);
    }

    /** `Lock`: no grant, no identity, no session, and every live channel closed. */
    method Lock()
      requires Valid()
      modifies this`timer, this`authorized, this`cachedIdentity, this`sessions, this`fates, this`history, this`locks
      ensures Valid() && FatesOnlyDecided() && locks == old(locks) + 1
      ensures authorized == map[] && cachedIdentity == None && timer == None && sessions == map[]
      ensures fates == map c | c in old(fates) :: if old(fates)[c].Live? then Locked else old(fates)[c]
      ensures history == old(history) + [Reset]
    {
      timer := None;
      cachedIdentity, authorized := None, map[];
      history := history + [Reset];
      CloseEverySession();
      locks := locks + 1;
    }

    method LockTimes(times: nat)
      requires Valid()
      modifies this`timer, this`authorized, this`cachedIdentity, this`sessions, this`fates, this`history, this`locks
      ensures Valid() && FatesOnlyDecided() && locks == old(locks) + times
      ensures times > 0 ==> sessions == map[]
    {
      for i := 0 to times
        invariant Valid() && FatesOnlyDecided() && locks == old(locks) + i
        invariant i > 0 ==> sessions == map[]
      {
        Lock();
      }
    }

    method CloseEverySession()
      requires SessionsOk()
      modifies this`sessions, this`fates
      ensures SessionsOk() && sessions == map[]
      ensures fates == map c | c in old(fates) :: if old(fates)[c].Live? then Locked else old(fates)[c]
    {
      var todo := sessions.Keys;
      while todo != {}
        invariant SessionsOk() && sessions.Keys == todo
        invariant SomeLocked(old(fates), fates)
        decreases todo
      {
        var slot :| slot in todo;
        todo := todo - {slot};
        CloseChannel(slot, Locked);
      }
      NoneIsLive(old(fates), fates, nextChannel);
    }
  }

  /** Two requests in a row, with neither grants nor sessions before the first: the second is served
      without a prompt if and only if the first was answered, covers it, and was answered less than
      the unlock duration before. */
  method AskTwice(a: Authorizer, item: string, pid: Pid, started: Time, answered: Time, identity: Identity,
                  again: string, other: Pid, later: Time, alive: set<Pid>, related: set<(Pid, Pid)>)
    returns (source: Source)
    requires a.Valid() && a.authorized == map[] && a.sessions == map[] && a.now == started <= answered <= later
    modifies a
    ensures a.Valid() && (source.ByCache? || source.ByPrompt?)
    ensures source.ByCache? <==>
      Covers(Request(a.scope, item, pid), Request(a.scope, again, other)) && later < answered + a.duration
  {
    assert a.cachedIdentity.None?;
    var served, first;
    ghost var when;
    served, first, when := a.RequestIdentity(item, pid, alive, related, started, answered, Some(identity));
    a.Tick(later - a.now);
    KeysCover(Request(a.scope, item, pid), Request(a.scope, again, other));
    served, source, when := a.RequestIdentity(again, other, alive, related, later, later, Some(identity));
  }

  /** A lock between the two steps is outlived: afterwards a request of the session's owner is answered
      with the identity from before the lock, and nobody is asked. */
  method SessionOutlivesLock(identity: Identity) returns (a: Authorizer, served: Option<Identity>, source: Source)
    ensures fresh(a) && a.Valid() && a.locks == 1
    ensures served == Some(identity) && source.BySession? && source.slot in a.sessions && !a.NoLockSince(a.sessions[source.slot].done)
  {
    a := new Authorizer(0, Once, 1);
    assert a.cachedIdentity.None?;
    var done, obtained, first;
    done, obtained, first := a.OpenSession(Encrypt("token"), 7, "", {7}, {}, 1, 1, Some(identity), 1);
    assert obtained == Some(identity);
    ghost var when;
    served, source, when := a.RequestIdentity("", 7, {7}, {}, 1, 1, None);
  }
}
