/** Whose tokens the broker hands out, in every run, careful or not. */
module BrokerTokens {
  import opened Broker

  predicate Owned(s: State, subject: Subject, refresh: Refresh) {
    refresh in s.owner && s.owner[refresh] == subject
  }

  /** Issued to the subject, and stamped no earlier than it was issued. */
  predicate Stamped(s: State, subject: Subject, access: Access, stampedAt: int, expiresAt: int) {
    && access in s.issued && s.issued[access].subject == subject
    && s.issued[access].at <= stampedAt && expiresAt == stampedAt + s.issued[access].lifetime
  }

  /** A handed-out token belongs to the subject; a cached one had more than the grace period left when checked. */
  predicate Proper(s: State, subject: Subject, token: Access, source: Source) {
    && token in s.issued && s.issued[token].subject == subject
    && match source
       case Minted => true
       case Hit(checkedAt, stampedAt, expiresAt) =>
         Stamped(s, subject, token, stampedAt, expiresAt) && expiresAt > checkedAt + 30
  }

  predicate ProperPc(s: State, subject: Subject, pc: Pc) {
    match pc
    case Exchanging(_, presented) => Owned(s, subject, presented)
    case Stamping(_, access, lifetime, presented, rotated) =>
      && Stamped(s, subject, access, s.clock, s.clock + Lifetime(lifetime))
      && Owned(s, subject, presented) && (rotated.Some? ==> Owned(s, subject, rotated.value))
    case Writing(_, t) => Stamped(s, subject, t.access, t.stampedAt, t.expiresAt) && Owned(s, subject, t.refresh)
    case Caching(_, t) => Stamped(s, subject, t.access, t.stampedAt, t.expiresAt) && Owned(s, subject, t.refresh)
    case Leaving(_, token, source) => Proper(s, subject, token, source)
    case Returned(token, source) => Proper(s, subject, token, source)
    case _ => true
  }

  ghost predicate RequestsProper(s: State) {
    forall id :: id in s.requests ==> ProperPc(s, s.requests[id].subject, s.requests[id].pc)
  }

  ghost predicate StoresProper(s: State) {
    && (forall x :: x in s.rows ==> Owned(s, x, s.rows[x]))
    && (forall x :: x in s.cache ==> Stamped(s, x, s.cache[x].access, s.cache[x].stampedAt, s.cache[x].expiresAt))
    && (forall t :: t in s.owner ==> t < s.nextToken)
    && (forall t :: t in s.issued ==> t < s.nextToken)
  }

  ghost predicate TokensProper(s: State) {
    RequestsProper(s) && StoresProper(s)
  }

  /** The provider only issues new tokens, and time does not run backwards. */
  ghost predicate Grows(s: State, t: State) {
    && (forall r :: r in s.owner ==> r in t.owner && t.owner[r] == s.owner[r])
    && (forall a :: a in s.issued ==> a in t.issued && t.issued[a] == s.issued[a])
    && s.clock <= t.clock
  }

  lemma ProperStays(s: State, t: State, subject: Subject, pc: Pc)
    requires Grows(s, t) && ProperPc(s, subject, pc)
    ensures ProperPc(t, subject, pc)
  {
  }

  lemma ExchangeGrows(s: State, a: Action)
    requires StoresProper(s) && Enabled(s, a) && a.Exchange?
    ensures Grows(s, Apply(s, a))
  {
  }

  lemma LockingGrows(s: State, a: Action)
    requires Enabled(s, a) && (a.Check? || a.TakeLock? || a.Acquire? || a.Recheck? || a.Leave? || a.Abort?)
    ensures Grows(s, Apply(s, a))
  {
  }

  lemma OthersGrow(s: State, a: Action)
    requires Enabled(s, a) && !a.Exchange?
    requires !a.Check? && !a.TakeLock? && !a.Acquire? && !a.Recheck? && !a.Leave? && !a.Abort?
    ensures Grows(s, Apply(s, a))
  {
  }

  lemma StepGrows(s: State, a: Action)
    requires StoresProper(s) && Enabled(s, a)
    ensures Grows(s, Apply(s, a))
  {
    if a.Exchange? {
      ExchangeGrows(s, a);
    } else if a.Check? || a.TakeLock? || a.Acquire? || a.Recheck? || a.Leave? || a.Abort? {
      LockingGrows(s, a);
    } else {
      OthersGrow(s, a);
    }
  }

  /** Only the request that took the step changes, and its next state is proper. */
  ghost predicate StepsProperly(s: State, t: State, id: nat)
    requires id in s.requests
  {
    && id in t.requests && t.requests[id].subject == s.requests[id].subject
    && t.requests == s.requests[id := t.requests[id]]
    && ProperPc(t, t.requests[id].subject, t.requests[id].pc)
  }

  lemma CheckIsProper(s: State, id: nat)
    requires TokensProper(s) && Enabled(s, Check(id))
    ensures StepsProperly(s, Apply(s, Check(id)), id)
  {
    assert ProperPc(s, s.requests[id].subject, s.requests[id].pc);
  }

  lemma TakeLockIsProper(s: State, id: nat)
    requires TokensProper(s) && Enabled(s, TakeLock(id))
    ensures StepsProperly(s, Apply(s, TakeLock(id)), id)
  {
    assert ProperPc(s, s.requests[id].subject, s.requests[id].pc);
  }

  lemma AcquireIsProper(s: State, id: nat)
    requires TokensProper(s) && Enabled(s, Acquire(id))
    ensures StepsProperly(s, Apply(s, Acquire(id)), id)
  {
    assert ProperPc(s, s.requests[id].subject, s.requests[id].pc);
  }

  lemma RecheckIsProper(s: State, id: nat)
    requires TokensProper(s) && Enabled(s, Recheck(id))
    ensures StepsProperly(s, Apply(s, Recheck(id)), id)
  {
    assert ProperPc(s, s.requests[id].subject, s.requests[id].pc);
  }

  lemma LeaveIsProper(s: State, id: nat)
    requires TokensProper(s) && Enabled(s, Leave(id))
    ensures StepsProperly(s, Apply(s, Leave(id)), id)
  {
    assert ProperPc(s, s.requests[id].subject, s.requests[id].pc);
  }

  lemma AbortIsProper(s: State, id: nat)
    requires TokensProper(s) && Enabled(s, Abort(id))
    ensures StepsProperly(s, Apply(s, Abort(id)), id)
  {
    assert ProperPc(s, s.requests[id].subject, s.requests[id].pc);
  }

  lemma LockingIsProper(s: State, a: Action)
    requires TokensProper(s) && Enabled(s, a)
    requires a.Check? || a.TakeLock? || a.Acquire? || a.Recheck? || a.Leave? || a.Abort?
    ensures StepsProperly(s, Apply(s, a), a.id)
  {
    match a
    case Check(id) => CheckIsProper(s, id);
    case TakeLock(id) => TakeLockIsProper(s, id);
    case Acquire(id) => AcquireIsProper(s, id);
    case Recheck(id) => RecheckIsProper(s, id);
    case Leave(id) => LeaveIsProper(s, id);
    case Abort(id) => AbortIsProper(s, id);
  }

  lemma RefreshingIsProper(s: State, a: Action)
    requires TokensProper(s) && Enabled(s, a)
    requires a.Read? || a.Exchange? || a.Stamp? || a.Write? || a.Insert?
    ensures StepsProperly(s, Apply(s, a), a.id)
  {
    assert ProperPc(s, s.requests[a.id].subject, s.requests[a.id].pc);
  }

  lemma RefreshKeepsStores(s: State, a: Action)
    requires TokensProper(s) && Enabled(s, a) && (a.Write? || a.Insert?)
    ensures StoresProper(Apply(s, a))
  {
    assert ProperPc(s, s.requests[a.id].subject, s.requests[a.id].pc);
  }

  lemma ExchangeKeepsStores(s: State, a: Action)
    requires TokensProper(s) && Enabled(s, a) && a.Exchange?
    ensures StoresProper(Apply(s, a))
  {
    assert ProperPc(s, s.requests[a.id].subject, s.requests[a.id].pc);
  }

  lemma OthersKeepStores(s: State, a: Action)
    requires StoresProper(s) && Enabled(s, a) && !a.Write? && !a.Insert? && !a.Exchange?
    ensures StoresProper(Apply(s, a))
  {
    if a.Tick? || a.Arrive? || a.Expire? || a.Evict? || a.Scan? || a.Sweep? {
      BackgroundKeepsStores(s, a);
    } else {
      RequestLeavesStores(s, a);
    }
  }

  ghost predicate SameStores(s: State, t: State) {
    t.rows == s.rows && t.owner == s.owner && t.issued == s.issued && t.nextToken == s.nextToken && t.cache == s.cache
  }

  lemma CheckLeavesStores(s: State, id: nat)
    requires Enabled(s, Check(id))
    ensures SameStores(s, Apply(s, Check(id)))
  {
  }

  lemma TakeLockLeavesStores(s: State, id: nat)
    requires Enabled(s, TakeLock(id))
    ensures SameStores(s, Apply(s, TakeLock(id)))
  {
  }

  lemma AcquireLeavesStores(s: State, id: nat)
    requires Enabled(s, Acquire(id))
    ensures SameStores(s, Apply(s, Acquire(id)))
  {
  }

  lemma RecheckLeavesStores(s: State, id: nat)
    requires Enabled(s, Recheck(id))
    ensures SameStores(s, Apply(s, Recheck(id)))
  {
  }

  lemma ReadLeavesStores(s: State, id: nat)
    requires Enabled(s, Read(id))
    ensures SameStores(s, Apply(s, Read(id)))
  {
  }

  lemma StampLeavesStores(s: State, id: nat)
    requires Enabled(s, Stamp(id))
    ensures SameStores(s, Apply(s, Stamp(id)))
  {
  }

  lemma LeaveLeavesStores(s: State, id: nat)
    requires Enabled(s, Leave(id))
    ensures SameStores(s, Apply(s, Leave(id)))
  {
  }

  lemma AbortLeavesStores(s: State, id: nat)
    requires Enabled(s, Abort(id))
    ensures SameStores(s, Apply(s, Abort(id)))
  {
  }

  lemma RequestLeavesStores(s: State, a: Action)
    requires Enabled(s, a)
    requires a.Check? || a.TakeLock? || a.Acquire? || a.Recheck? || a.Read? || a.Stamp? || a.Leave? || a.Abort?
    ensures SameStores(s, Apply(s, a))
  {
    match a
    case Check(id) => CheckLeavesStores(s, id);
    case TakeLock(id) => TakeLockLeavesStores(s, id);
    case Acquire(id) => AcquireLeavesStores(s, id);
    case Recheck(id) => RecheckLeavesStores(s, id);
    case Read(id) => ReadLeavesStores(s, id);
    case Stamp(id) => StampLeavesStores(s, id);
    case Leave(id) => LeaveLeavesStores(s, id);
    case Abort(id) => AbortLeavesStores(s, id);
  }

  lemma CacheDropKeepsStores(s: State, a: Action)
    requires StoresProper(s) && Enabled(s, a) && (a.Expire? || a.Evict?)
    ensures StoresProper(Apply(s, a))
  {
  }

  lemma QuietLeavesStores(s: State, a: Action)
    requires Enabled(s, a) && (a.Tick? || a.Arrive? || a.Scan? || a.Sweep?)
    ensures SameStores(s, Apply(s, a))
  {
  }

  lemma BackgroundKeepsStores(s: State, a: Action)
    requires StoresProper(s) && Enabled(s, a)
    requires a.Tick? || a.Arrive? || a.Expire? || a.Evict? || a.Scan? || a.Sweep?
    ensures StoresProper(Apply(s, a))
  {
    if a.Expire? || a.Evict? {
      CacheDropKeepsStores(s, a);
    } else {
      QuietLeavesStores(s, a);
    }
  }

  lemma StoresStayProper(s: State, a: Action)
    requires TokensProper(s) && Enabled(s, a)
    ensures StoresProper(Apply(s, a))
  {
    if a.Write? || a.Insert? {
      RefreshKeepsStores(s, a);
    } else if a.Exchange? {
      ExchangeKeepsStores(s, a);
    } else {
      OthersKeepStores(s, a);
    }
  }

  lemma RequestsStayProper(s: State, a: Action)
    requires TokensProper(s) && Enabled(s, a)
    ensures RequestsProper(Apply(s, a))
  {
    var t := Apply(s, a);
    StepGrows(s, a);
    if a.Check? || a.TakeLock? || a.Acquire? || a.Recheck? || a.Leave? || a.Abort? {
      LockingIsProper(s, a);
    } else if a.Read? || a.Exchange? || a.Stamp? || a.Write? || a.Insert? {
      RefreshingIsProper(s, a);
    }
    forall id | id in t.requests
      ensures ProperPc(t, t.requests[id].subject, t.requests[id].pc)
    {
      if id in s.requests && t.requests[id] == s.requests[id] {
        ProperStays(s, t, s.requests[id].subject, s.requests[id].pc);
      }
    }
  }

  lemma TokensStayProper(s: State, a: Action)
    requires TokensProper(s) && Enabled(s, a)
    ensures TokensProper(Apply(s, a))
  {
    StoresStayProper(s, a);
    RequestsStayProper(s, a);
  }

  lemma {:induction false} TokensProperAfter(s: State, actions: seq<Action>)
    requires TokensProper(s) && CanRun(s, actions)
    ensures TokensProper(After(s, actions))
    decreases |actions|
  {
    if actions != [] {
      TokensStayProper(s, actions[0]);
      TokensProperAfter(Apply(s, actions[0]), actions[1..]);
    }
  }
}
