/** At most one refresh per subject at a time: when the locks give it, and when the cleanup loop takes it away. */
module BrokerLocks {
  import opened Broker

  /** At most one request per subject is between its second look into the cache and the insertion. */
  ghost predicate OneRefreshEach(s: State) {
    forall i, j |
      && i in s.requests && j in s.requests && s.requests[i].subject == s.requests[j].subject
      && Refreshing(s.requests[i].pc) && Refreshing(s.requests[j].pc) :: i == j
  }

  /** A claimed lock is the one in the table. */
  ghost predicate ClaimsAreCurrent(s: State) {
    forall id :: id in s.requests && Claims(s.requests[id].pc) ==>
                   s.requests[id].subject in s.locks && s.locks[s.requests[id].subject] == s.requests[id].pc.lock
  }

  ghost predicate HoldersHold(s: State) {
    forall id :: id in s.requests && Holds(s.requests[id].pc) ==>
                   s.requests[id].pc.lock in s.held && s.held[s.requests[id].pc.lock] == id
  }

  ghost predicate HeldIsUsed(s: State) {
    forall lock :: lock in s.held ==>
                     var id := s.held[lock];
                     id in s.requests && Holds(s.requests[id].pc) && s.requests[id].pc.lock == lock
  }

  ghost predicate LocksAreOld(s: State) {
    && (forall x :: x in s.locks ==> s.locks[x] < s.nextLock)
    && (forall lock :: lock in s.held ==> lock < s.nextLock)
  }

  ghost predicate LocksInOrder(s: State) {
    ClaimsAreCurrent(s) && HoldersHold(s) && HeldIsUsed(s) && LocksAreOld(s)
  }

  lemma LocksGiveOneRefresh(s: State)
    requires LocksInOrder(s)
    ensures OneRefreshEach(s)
  {
  }

  // ---------------------------------------------------------------- every step keeps the locks in order

  /** The request goes on under the lock it has, or gives up its claim to it. */
  lemma GoesOn(s: State, t: State, id: nat, pc: Pc)
    requires LocksInOrder(s) && id in s.requests
    requires t.requests == s.requests[id := s.requests[id].(pc := pc)]
    requires t.locks == s.locks && t.held == s.held && t.nextLock == s.nextLock
    requires Holds(pc) == Holds(s.requests[id].pc) && (Claims(pc) ==> Claims(s.requests[id].pc))
    requires Holds(pc) || Claims(pc) ==> pc.lock == s.requests[id].pc.lock
    ensures LocksInOrder(t)
  {
  }

  lemma Finishes(s: State, id: nat, pc: Pc)
    requires LocksInOrder(s) && id in s.requests && (pc.Returned? || pc.Failed?)
    ensures LocksInOrder(Finish(s, id, pc))
  {
    var t := Finish(s, id, pc);
    forall other | other in t.requests && Holds(t.requests[other].pc)
      ensures t.requests[other].pc.lock in t.held && t.held[t.requests[other].pc.lock] == other
    {
      assert other != id && s.held[s.requests[other].pc.lock] == other;
    }
  }

  lemma TakesExisting(s: State, id: nat)
    requires LocksInOrder(s) && id in s.requests && s.requests[id].pc.Missed? && s.requests[id].subject in s.locks
    ensures LocksInOrder(Move(s, id, Waiting(s.locks[s.requests[id].subject])))
  {
  }

  lemma TakesNew(s: State, id: nat, t: State)
    requires LocksInOrder(s) && id in s.requests && s.requests[id].pc.Missed?
    requires var subject := s.requests[id].subject;
             subject !in s.locks && t.locks == s.locks[subject := s.nextLock]
    requires t.requests == s.requests[id := s.requests[id].(pc := Waiting(s.nextLock))]
    requires t.held == s.held && t.nextLock == s.nextLock + 1
    ensures LocksInOrder(t)
  {
  }

  lemma Acquires(s: State, id: nat)
    requires LocksInOrder(s) && Enabled(s, Acquire(id))
    ensures LocksInOrder(Apply(s, Acquire(id)))
  {
  }

  lemma BackgroundKeepsLocks(s: State, a: Action)
    requires LocksInOrder(s) && Enabled(s, a)
    requires a.Tick? || a.Expire? || a.Evict? || a.Scan? || a.Arrive? || (a.Sweep? && Unclaimed(s, a.subject))
    ensures LocksInOrder(Apply(s, a))
  {
  }

  predicate IsWork(a: Action) {
    a.Check? || a.Recheck? || a.Read? || a.Exchange? || a.Stamp? || a.Write? || a.Insert?
  }

  /** The request moves on under its lock; locks and their holders stay. */
  ghost predicate MovesOn(s: State, t: State, id: nat)
    requires id in s.requests
  {
    && id in t.requests
    && var was, pc := s.requests[id].pc, t.requests[id].pc;
       && t.requests == s.requests[id := s.requests[id].(pc := pc)]
       && t.locks == s.locks && t.held == s.held && t.nextLock == s.nextLock
       && Holds(pc) == Holds(was) && (Claims(pc) ==> Claims(was))
       && (Holds(pc) || Claims(pc) ==> pc.lock == was.lock)
  }

  lemma WorkMovesOn(s: State, a: Action)
    requires Enabled(s, a) && IsWork(a)
    ensures MovesOn(s, Apply(s, a), a.id)
  {
    match a
    case Check(_) =>
    case Recheck(_) =>
    case Read(_) =>
    case Exchange(_, _, _) =>
    case Stamp(_) =>
    case Write(_) =>
    case Insert(_) =>
  }

  lemma EndsKeepLocks(s: State, a: Action)
    requires LocksInOrder(s) && Enabled(s, a) && (a.Leave? || a.Abort?)
    ensures LocksInOrder(Apply(s, a))
  {
    var pc := s.requests[a.id].pc;
    if a.Leave? {
      Finishes(s, a.id, Returned(pc.token, pc.source));
    } else {
      var dropped := Drop(s, s.requests[a.id].subject, pc);
      assert LocksInOrder(dropped);
      Finishes(dropped, a.id, Failed);
    }
  }

  lemma WorkKeepsLocks(s: State, a: Action)
    requires LocksInOrder(s) && Enabled(s, a) && IsWork(a)
    ensures LocksInOrder(Apply(s, a))
  {
    WorkMovesOn(s, a);
    GoesOn(s, Apply(s, a), a.id, Apply(s, a).requests[a.id].pc);
  }

  /** Every step keeps the locks in order, a sweep provided nobody claims the lock it removes. */
  lemma LocksStayInOrder(s: State, a: Action)
    requires LocksInOrder(s) && Enabled(s, a)
    requires a.Sweep? ==> Unclaimed(s, a.subject)
    ensures LocksInOrder(Apply(s, a))
  {
    match a
    case Tick(_) => BackgroundKeepsLocks(s, a);
    case Arrive(_, _) => BackgroundKeepsLocks(s, a);
    case Expire(_) => BackgroundKeepsLocks(s, a);
    case Evict(_) => BackgroundKeepsLocks(s, a);
    case Scan(_) => BackgroundKeepsLocks(s, a);
    case Sweep(_) => BackgroundKeepsLocks(s, a);
    case TakeLock(id) =>
      if s.requests[id].subject in s.locks { TakesExisting(s, id); } else { TakesNew(s, id, Apply(s, a)); }
    case Acquire(id) => Acquires(s, id);
    case Leave(_) => EndsKeepLocks(s, a);
    case Abort(_) => EndsKeepLocks(s, a);
    case _ => WorkKeepsLocks(s, a);
  }

  lemma {:induction false} LocksInOrderAfter(s: State, actions: seq<Action>)
    requires LocksInOrder(s) && CanRun(s, actions) && Careful(s, actions)
    ensures LocksInOrder(After(s, actions))
    decreases |actions|
  {
    if actions != [] {
      LocksStayInOrder(s, actions[0]);
      LocksInOrderAfter(Apply(s, actions[0]), actions[1..]);
    }
  }

  /** In every careful run, at most one request per subject refreshes at a time. */
  lemma MutualExclusion(s: State, actions: seq<Action>)
    requires Initial(s) && CanRun(s, actions) && Careful(s, actions)
    ensures OneRefreshEach(After(s, actions))
  {
    LocksInOrderAfter(s, actions);
    LocksGiveOneRefresh(After(s, actions));
  }
}
