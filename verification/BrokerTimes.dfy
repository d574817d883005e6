/** How often the broker goes to the provider. */
module BrokerTimes {
  import opened Broker
  import opened BrokerLocks

  /** When a cached token stops being usable: min(lifetime - 30, 300) seconds after it was stamped. */
  function UsableUntil(t: Ticket): int {
    if t.expiresAt - 30 < t.stampedAt + 300 then t.expiresAt - 30 else t.stampedAt + 300
  }

  /** The last refreshed token is still in the cache, or has been there for its time to live. */
  ghost predicate CacheKeepsLast(s: State) {
    forall x :: x in s.refreshed ==>
                  var last := s.refreshed[x];
                  || (x in s.cache && s.cache[x].expiresAt == last.expiresAt && s.cache[x].insertedAt >= last.stampedAt)
                  || s.clock >= last.stampedAt + CACHE_TTL
  }

  /** A request that refreshes a subject does so only once the last token is used up. */
  ghost predicate RefreshesAreDue(s: State) {
    forall id :: id in s.requests && Refreshing(s.requests[id].pc) && s.requests[id].subject in s.refreshed ==>
                   s.clock >= UsableUntil(s.refreshed[s.requests[id].subject])
  }

  ghost predicate StampsArePast(s: State) {
    forall id :: id in s.requests && (s.requests[id].pc.Writing? || s.requests[id].pc.Caching?) ==>
                   s.requests[id].pc.ticket.stampedAt <= s.clock
  }

  ghost predicate TimesInOrder(s: State) {
    CacheKeepsLast(s) && RefreshesAreDue(s) && StampsArePast(s)
  }

  lemma BackgroundKeepsTimes(s: State, a: Action)
    requires TimesInOrder(s) && Enabled(s, a)
    requires a.Tick? || a.Arrive? || a.Expire? || a.Scan? || a.Sweep?
    ensures TimesInOrder(Apply(s, a))
  {
    match a
    case Tick(_) =>
    case Arrive(_, _) =>
    case Expire(subject) => assert Apply(s, a).cache == s.cache - {subject};
    case Scan(_) =>
    case Sweep(_) =>
  }

  /** A step that starts no refresh and puts nothing into the cache. */
  lemma OthersKeepTimes(s: State, t: State, id: nat, pc: Pc)
    requires TimesInOrder(s) && id in s.requests
    requires t.requests == s.requests[id := s.requests[id].(pc := pc)]
    requires t.cache == s.cache && t.refreshed == s.refreshed && t.clock == s.clock
    requires var who := s.requests[id].subject;
             Refreshing(pc) && !Refreshing(s.requests[id].pc) && who in s.refreshed ==>
               s.clock >= UsableUntil(s.refreshed[who])
    requires pc.Writing? || pc.Caching? ==> pc.ticket.stampedAt <= s.clock
    ensures TimesInOrder(t)
  {
  }

  lemma RecheckKeepsTimes(s: State, a: Action)
    requires TimesInOrder(s) && Enabled(s, a) && a.Recheck?
    ensures TimesInOrder(Apply(s, a))
  {
    var t := Apply(s, a);
    OthersKeepTimes(s, t, a.id, AfterRecheck(s, s.requests[a.id].subject, s.requests[a.id].pc.lock));
  }

  lemma InsertKeepsTimes(s: State, a: Action)
    requires TimesInOrder(s) && OneRefreshEach(s) && Enabled(s, a) && a.Insert?
    ensures TimesInOrder(Apply(s, a))
  {
    var t, who := Apply(s, a), s.requests[a.id].subject;
    forall id | id in t.requests && Refreshing(t.requests[id].pc)
      ensures id != a.id && t.requests[id] == s.requests[id] && t.requests[id].subject != who
    {
    }
  }

  /** The step changes nothing but one request, which does not come to refresh, and locks. */
  ghost predicate MovesAside(s: State, t: State, id: nat)
    requires id in s.requests
  {
    && id in t.requests && t.requests == s.requests[id := s.requests[id].(pc := t.requests[id].pc)]
    && t.cache == s.cache && t.refreshed == s.refreshed && t.clock == s.clock && !Refreshing(t.requests[id].pc)
  }

  lemma CheckMoves(s: State, id: nat)
    requires Enabled(s, Check(id))
    ensures MovesAside(s, Apply(s, Check(id)), id)
  {
  }

  lemma TakeLockMoves(s: State, id: nat)
    requires Enabled(s, TakeLock(id))
    ensures MovesAside(s, Apply(s, TakeLock(id)), id)
  {
  }

  lemma AcquireMoves(s: State, id: nat)
    requires Enabled(s, Acquire(id))
    ensures MovesAside(s, Apply(s, Acquire(id)), id)
  {
  }

  lemma LeaveMoves(s: State, id: nat)
    requires Enabled(s, Leave(id))
    ensures MovesAside(s, Apply(s, Leave(id)), id)
  {
  }

  lemma AbortMoves(s: State, id: nat)
    requires Enabled(s, Abort(id))
    ensures MovesAside(s, Apply(s, Abort(id)), id)
  {
  }

  lemma LockingKeepsTimes(s: State, a: Action)
    requires TimesInOrder(s) && Enabled(s, a)
    requires a.Check? || a.TakeLock? || a.Acquire? || a.Leave? || a.Abort?
    ensures TimesInOrder(Apply(s, a))
  {
    match a {
      case Check(id) => CheckMoves(s, id);
      case TakeLock(id) => TakeLockMoves(s, id);
      case Acquire(id) => AcquireMoves(s, id);
      case Leave(id) => LeaveMoves(s, id);
      case Abort(id) => AbortMoves(s, id);
    }
    OthersKeepTimes(s, Apply(s, a), a.id, Apply(s, a).requests[a.id].pc);
  }

  lemma WorkKeepsTimes(s: State, a: Action)
    requires TimesInOrder(s) && Enabled(s, a)
    requires a.Read? || a.Exchange? || a.Stamp? || a.Write?
    ensures TimesInOrder(Apply(s, a))
  {
    var t := Apply(s, a);
    var pc := t.requests[a.id].pc;
    assert t.requests == s.requests[a.id := s.requests[a.id].(pc := pc)];
    assert t.cache == s.cache && t.refreshed == s.refreshed && t.clock == s.clock;
    OthersKeepTimes(s, t, a.id, pc);
  }

  lemma TimesStayInOrder(s: State, a: Action)
    requires TimesInOrder(s) && LocksInOrder(s) && Enabled(s, a) && !a.Evict?
    ensures TimesInOrder(Apply(s, a))
  {
    if a.Insert? {
      LocksGiveOneRefresh(s);
      InsertKeepsTimes(s, a);
    } else if a.Recheck? {
      RecheckKeepsTimes(s, a);
    } else if a.Check? || a.TakeLock? || a.Acquire? || a.Leave? || a.Abort? {
      LockingKeepsTimes(s, a);
    } else if a.Read? || a.Exchange? || a.Stamp? || a.Write? {
      WorkKeepsTimes(s, a);
    } else {
      BackgroundKeepsTimes(s, a);
    }
  }

  lemma {:induction false} TimesInOrderAfter(s: State, actions: seq<Action>)
    requires LocksInOrder(s) && TimesInOrder(s)
    requires CanRun(s, actions) && Careful(s, actions) && NoEviction(actions)
    ensures TimesInOrder(After(s, actions))
    decreases |actions|
  {
    if actions != [] {
      TimesStayInOrder(s, actions[0]);
      LocksStayInOrder(s, actions[0]);
      TimesInOrderAfter(Apply(s, actions[0]), actions[1..]);
    }
  }

  /**
   In every careful run without eviction for lack of space: after a refresh that got a token of lifetime
   L, the next exchange for the subject comes at least min(L - 30, 300) seconds after that token was stamped.
   */
  lemma ExchangesAreSpaced(s: State, actions: seq<Action>, id: nat)
    requires Initial(s) && CanRun(s, actions) && Careful(s, actions) && NoEviction(actions)
    ensures var t := After(s, actions);
            id in t.requests && t.requests[id].pc.Exchanging? && t.requests[id].subject in t.refreshed ==>
              t.clock >= UsableUntil(t.refreshed[t.requests[id].subject])
  {
    TimesInOrderAfter(s, actions);
  }
}
