/**
 The token broker (auth-broker/src/state.rs) as a machine over atomic steps.

 Each request runs get_or_refresh_token; every await point of that function, and of the lock-cleanup
 loop, is a place where another step may come in between. An Abort stands for every early return on
 an error and for a request that is dropped while it waits. The provider may or may not hand out a
 new refresh token (section 6 of RFC 6749). Times are in seconds.
 */
module Broker {
  import opened Wrappers

  const GRACE_PERIOD := 30
  const DEFAULT_EXPIRY := 60
  const CACHE_TTL := 300

  type Subject = string

  /** Tokens, locks and requests are known by number only. */
  type Access = nat
  type Refresh = nat

  /** Where a handed-out token came from: a cached copy, with the moment it was checked, or a new exchange. */
  datatype Source = Hit(checkedAt: int, stampedAt: int, expiresAt: int) | Minted

  /** What one exchange brought back, once its expiry is stamped. */
  datatype Ticket = Ticket(access: Access, stampedAt: int, expiresAt: int, refresh: Refresh, rotated: bool)

  datatype Pc =
    | Arrived
    | Missed                              // nothing usable in the cache
    | Waiting(lock: nat)                  // holds a clone of the lock
    | Checking(lock: nat)                 // has the lock, looks again
    | Reading(lock: nat)                  // second miss
    | Exchanging(lock: nat, presented: Refresh)
    | Stamping(lock: nat, access: Access, lifetime: Option<nat>, presented: Refresh, rotated: Option<Refresh>)
    | Writing(lock: nat, ticket: Ticket)
    | Caching(lock: nat, ticket: Ticket)
    | Leaving(lock: nat, token: Access, source: Source)
    | Returned(token: Access, source: Source)
    | Failed

  datatype Request = Request(subject: Subject, pc: Pc)

  datatype Cached = Cached(access: Access, expiresAt: int, refresh: Refresh, stampedAt: int, insertedAt: int)

  /** What the provider remembers of an access token it issued. */
  datatype Issued = Issued(subject: Subject, at: int, lifetime: nat)

  datatype State = State(
    clock: int,
    requests: map<nat, Request>,
    cache: map<Subject, Cached>,
    locks: map<Subject, nat>,
    held: map<nat, nat>,              // a lock in use, and the request using it
    nextLock: nat,
    stale: set<Subject>,              // what the cleanup loop has collected so far
    rows: map<Subject, Refresh>,      // the database
    owner: map<Refresh, Subject>,     // the provider: whose refresh token
    latest: map<Subject, Refresh>,    // the provider: the newest refresh token of a subject
    issued: map<Access, Issued>,
    nextToken: nat,
    lost: set<Subject>,               // history: a new refresh token was dropped before it was written
    refreshed: map<Subject, Ticket>)  // history: the last ticket put into the cache

  datatype Action =
    | Tick(seconds: nat)
    | Arrive(id: nat, subject: Subject)
    | Check(id: nat)
    | TakeLock(id: nat)
    | Acquire(id: nat)
    | Recheck(id: nat)
    | Read(id: nat)
    | Exchange(id: nat, lifetime: Option<nat>, rotates: bool)
    | Stamp(id: nat)
    | Write(id: nat)
    | Insert(id: nat)
    | Leave(id: nat)
    | Abort(id: nat)
    | Expire(subject: Subject)        // the cache drops an entry past its time to live
    | Evict(subject: Subject)         // the cache drops an entry for lack of space
    | Scan(subject: Subject)          // cleanup: a lock without cache entry is collected
    | Sweep(subject: Subject)         // cleanup: a collected lock is removed

  // ---------------------------------------------------------------- reading a state

  /** The cache holds a token for the subject that outlives the grace period. */
  predicate Usable(s: State, subject: Subject) {
    Live(s, subject) && s.cache[subject].expiresAt > s.clock + GRACE_PERIOD
  }

  predicate Live(s: State, subject: Subject) {
    subject in s.cache && s.clock < s.cache[subject].insertedAt + CACHE_TTL
  }

  /** The request holds a clone of its lock that it may still work under. */
  predicate Claims(pc: Pc) {
    pc.Waiting? || pc.Checking? || Refreshing(pc)
  }

  /** Between the second look into the cache and the insertion. */
  predicate Refreshing(pc: Pc) {
    pc.Reading? || pc.Exchanging? || pc.Stamping? || pc.Writing? || pc.Caching?
  }

  predicate Holds(pc: Pc) {
    pc.Checking? || Refreshing(pc) || pc.Leaving?
  }

  /** A refresh token the provider has issued and the database does not have yet. */
  predicate Pending(pc: Pc) {
    (pc.Stamping? && pc.rotated.Some?) || (pc.Writing? && pc.ticket.rotated)
  }

  function PendingToken(pc: Pc): Refresh
    requires Pending(pc)
  {
    if pc.Stamping? then pc.rotated.value else pc.ticket.refresh
  }

  // ---------------------------------------------------------------- steps

  predicate Active(s: State, id: nat) {
    id in s.requests && !s.requests[id].pc.Returned? && !s.requests[id].pc.Failed?
  }

  predicate Enabled(s: State, a: Action) {
    match a
    case Tick(_) => true
    case Arrive(id, _) => id !in s.requests
    case Expire(subject) => subject in s.cache && !Live(s, subject)
    case Evict(subject) => subject in s.cache
    case Scan(subject) => subject in s.locks && !Live(s, subject)
    case Sweep(subject) => subject in s.stale
    case Check(id) => Active(s, id) && s.requests[id].pc.Arrived?
    case TakeLock(id) => Active(s, id) && s.requests[id].pc.Missed?
    case Acquire(id) => Active(s, id) && s.requests[id].pc.Waiting? && s.requests[id].pc.lock !in s.held
    case Recheck(id) => Active(s, id) && s.requests[id].pc.Checking?
    case Read(id) => Active(s, id) && s.requests[id].pc.Reading? && s.requests[id].subject in s.rows
    case Exchange(id, _, _) => Active(s, id) && s.requests[id].pc.Exchanging? && s.requests[id].pc.presented in s.owner
    case Stamp(id) => Active(s, id) && s.requests[id].pc.Stamping?
    case Write(id) => Active(s, id) && s.requests[id].pc.Writing?
    case Insert(id) => Active(s, id) && s.requests[id].pc.Caching?
    case Leave(id) => Active(s, id) && s.requests[id].pc.Leaving?
    case Abort(id) => Active(s, id)
  }

  function Move(s: State, id: nat, pc: Pc): State
    requires id in s.requests
  {
    s.(requests := s.requests[id := s.requests[id].(pc := pc)])
  }

  /** The request ends; its guard and its clone of the lock are dropped. */
  function Finish(s: State, id: nat, pc: Pc): State
    requires id in s.requests
  {
    var was := s.requests[id].pc;
    var freed := if Holds(was) then s.held - {was.lock} else s.held;
    Move(s.(held := freed), id, pc)
  }

  function CacheHit(s: State, subject: Subject): Source
    requires subject in s.cache
  {
    Hit(s.clock, s.cache[subject].stampedAt, s.cache[subject].expiresAt)
  }

  function Lifetime(reported: Option<nat>): nat {
    if reported.Some? then reported.value else DEFAULT_EXPIRY
  }

  function Apply(s: State, a: Action): State
    requires Enabled(s, a)
  {
    match a
    case Tick(seconds) => s.(clock := s.clock + seconds)
    case Arrive(id, subject) => s.(requests := s.requests[id := Request(subject, Arrived)])
    case Expire(subject) => s.(cache := s.cache - {subject})
    case Evict(subject) => s.(cache := s.cache - {subject})
    case Scan(subject) => s.(stale := s.stale + {subject})
    case Sweep(subject) => s.(stale := s.stale - {subject}, locks := s.locks - {subject})
    case _ => ApplyRequest(s, a.id, s.requests[a.id].subject, a)
  }

  /** The row of a subject is inserted or overwritten; without a new refresh token nothing is written. */
  function WriteRow(s: State, subject: Subject, ticket: Ticket): State {
    s.(rows := if ticket.rotated then s.rows[subject := ticket.refresh] else s.rows,
       lost := if ticket.rotated then s.lost - {subject} else s.lost)
  }

  /** A refresh token that is not yet in the database goes with the request. */
  function Drop(s: State, subject: Subject, pc: Pc): State {
    s.(lost := if Pending(pc) then s.lost + {subject} else s.lost)
  }

  function AfterCheck(s: State, subject: Subject): Pc {
    if Usable(s, subject) then Returned(s.cache[subject].access, CacheHit(s, subject)) else Missed
  }

  function AfterRecheck(s: State, subject: Subject, lock: nat): Pc {
    if Usable(s, subject) then Leaving(lock, s.cache[subject].access, CacheHit(s, subject)) else Reading(lock)
  }

  /** The steps of get_or_refresh_token. */
  function ApplyRequest(s: State, id: nat, subject: Subject, a: Action): State
    requires Enabled(s, a) && Active(s, id) && s.requests[id].subject == subject
    requires !a.Tick? && !a.Arrive? && !a.Expire? && !a.Evict? && !a.Scan? && !a.Sweep? && a.id == id
  {
    var pc := s.requests[id].pc;
    match a
    case Check(_) => Move(s, id, AfterCheck(s, subject))
    case TakeLock(_) =>
      var isNew := subject !in s.locks;
      var lock := if isNew then s.nextLock else s.locks[subject];
      Move(s.(locks := if isNew then s.locks[subject := lock] else s.locks,
              nextLock := if isNew then lock + 1 else s.nextLock),
           id, Waiting(lock))
    case Acquire(_) => Move(s.(held := s.held[pc.lock := id]), id, Checking(pc.lock))
    case Recheck(_) => Move(s, id, AfterRecheck(s, subject, pc.lock))
    case Read(_) => Move(s, id, Exchanging(pc.lock, s.rows[subject]))
    case Exchange(_, lifetime, rotates) => ApplyExchange(s, id, lifetime, rotates)
    case Stamp(_) =>
      Move(s, id, Writing(pc.lock,
                          Ticket(pc.access, s.clock, s.clock + Lifetime(pc.lifetime),
                                 if pc.rotated.Some? then pc.rotated.value else pc.presented, pc.rotated.Some?)))
    case Write(_) =>
      Move(WriteRow(s, subject, pc.ticket), id, Caching(pc.lock, pc.ticket))
    case Insert(_) =>
      var t := pc.ticket;
      Move(s.(cache := s.cache[subject := Cached(t.access, t.expiresAt, t.refresh, t.stampedAt, s.clock)],
              refreshed := s.refreshed[subject := t]),
           id, Leaving(pc.lock, t.access, Minted))
    case Leave(_) => Finish(s, id, Returned(pc.token, pc.source))
    case Abort(_) => Finish(Drop(s, subject, pc), id, Failed)
  }

  /** The provider answers with an access token, and with a new refresh token if it rotates them. */
  function ApplyExchange(s: State, id: nat, lifetime: Option<nat>, rotates: bool): State
    requires Active(s, id) && s.requests[id].pc.Exchanging? && s.requests[id].pc.presented in s.owner
  {
    var pc := s.requests[id].pc;
    var access, rotated := s.nextToken, if rotates then Some(s.nextToken + 1) else None;
    Move(Answer(s, s.owner[pc.presented], access, lifetime, rotated), id,
         Stamping(pc.lock, access, lifetime, pc.presented, rotated))
  }

  function Answer(s: State, who: Subject, access: Access, lifetime: Option<nat>, rotated: Option<Refresh>): State {
    s.(nextToken := s.nextToken + 2,
       issued := s.issued[access := Issued(who, s.clock, Lifetime(lifetime))],
       owner := if rotated.Some? then s.owner[rotated.value := who] else s.owner,
       latest := if rotated.Some? then s.latest[who := rotated.value] else s.latest)
  }

  // ---------------------------------------------------------------- runs

  predicate CanRun(s: State, actions: seq<Action>)
    decreases |actions|
  {
    actions != [] ==> Enabled(s, actions[0]) && CanRun(Apply(s, actions[0]), actions[1..])
  }

  function After(s: State, actions: seq<Action>): State
    requires CanRun(s, actions)
    decreases |actions|
  {
    if actions == [] then s else After(Apply(s, actions[0]), actions[1..])
  }

  /** No request is at work, or will be, under the lock that the table holds for the subject. */
  predicate Unclaimed(s: State, subject: Subject) {
    forall id :: id in s.requests && s.requests[id].subject == subject ==> !Claims(s.requests[id].pc)
  }

  /** A run in which the cleanup loop removes a lock only while no request holds a clone of it. */
  predicate Careful(s: State, actions: seq<Action>)
    requires CanRun(s, actions)
    decreases |actions|
  {
    actions != [] ==>
      (actions[0].Sweep? ==> Unclaimed(s, actions[0].subject)) && Careful(Apply(s, actions[0]), actions[1..])
  }

  predicate NoEviction(actions: seq<Action>) {
    forall i :: 0 <= i < |actions| ==> !actions[i].Evict?
  }

  /** Nothing is going on yet, and the database holds the newest refresh token of every subject it knows. */
  predicate Initial(s: State) {
    && s.requests == map[] && s.cache == map[] && s.locks == map[] && s.held == map[] && s.stale == {}
    && s.issued == map[] && s.lost == {} && s.refreshed == map[]
    && (forall x :: x in s.rows ==> s.rows[x] in s.owner && s.owner[s.rows[x]] == x
                                    && x in s.latest && s.latest[x] == s.rows[x])
    && (forall t :: t in s.owner ==> t < s.nextToken)
  }
}
