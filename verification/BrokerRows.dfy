/** The database against the provider: when the stored refresh token is the newest one. */
module BrokerRows {
  import opened Broker
  import opened BrokerLocks
  import opened BrokerTokens

  /** No request of the subject has a new refresh token that is still to be written. */
  ghost predicate Settled(s: State, subject: Subject) {
    forall id :: id in s.requests && s.requests[id].subject == subject ==> !Pending(s.requests[id].pc)
  }

  ghost predicate RowIsLatest(s: State, subject: Subject) {
    subject in s.rows && subject in s.latest && s.latest[subject] == s.rows[subject]
  }

  /** A token still to be written is the newest one and differs from the stored one. */
  ghost predicate PendingAreLatest(s: State) {
    forall id :: id in s.requests && Pending(s.requests[id].pc) ==>
                   var x, token := s.requests[id].subject, PendingToken(s.requests[id].pc);
                   x in s.rows && x in s.latest && s.latest[x] == token && s.rows[x] != token
  }

  /** What a request is about to present is what the database holds. */
  ghost predicate PresentedAreStored(s: State) {
    forall id :: id in s.requests && s.requests[id].pc.Exchanging? ==>
                   s.requests[id].subject in s.rows && s.rows[s.requests[id].subject] == s.requests[id].pc.presented
  }

  /** Once nothing is pending, the row is the newest token unless a newer one was dropped. */
  ghost predicate SettledRows(s: State) {
    forall x :: x in s.rows && Settled(s, x) ==> (RowIsLatest(s, x) <==> x !in s.lost)
  }

  ghost predicate RowsInOrder(s: State) {
    PendingAreLatest(s) && PresentedAreStored(s) && SettledRows(s)
  }

  /** Rows, provider and pending tokens stay; a request that comes to present a token has just read it. */
  ghost predicate Quiet(s: State, t: State) {
    && t.rows == s.rows && t.latest == s.latest && t.lost == s.lost
    && (forall id :: id in s.requests ==> id in t.requests && SamePending(s.requests[id], t.requests[id]))
    && (forall id :: id in t.requests ==> PresentsStored(s, t, id))
  }

  predicate SamePending(before: Request, after: Request) {
    && after.subject == before.subject && (Pending(after.pc) <==> Pending(before.pc))
    && (Pending(before.pc) ==> PendingToken(after.pc) == PendingToken(before.pc))
  }

  predicate PresentsStored(s: State, t: State, id: nat)
    requires id in t.requests
  {
    || (id in s.requests && t.requests[id] == s.requests[id])
    || (id !in s.requests && t.requests[id].pc.Arrived?)
    || (id in s.requests
        && (t.requests[id].pc.Exchanging? ==>
              t.requests[id].subject in s.rows && s.rows[t.requests[id].subject] == t.requests[id].pc.presented))
  }

  lemma QuietStepKeepsRows(s: State, t: State)
    requires RowsInOrder(s) && Quiet(s, t)
    ensures RowsInOrder(t)
  {
    forall id | id in t.requests && Pending(t.requests[id].pc)
      ensures id in s.requests && SamePending(s.requests[id], t.requests[id])
    {
      assert PresentsStored(s, t, id);
    }
    forall id | id in t.requests && t.requests[id].pc.Exchanging?
      ensures t.requests[id].subject in t.rows && t.rows[t.requests[id].subject] == t.requests[id].pc.presented
    {
      assert PresentsStored(s, t, id);
    }
    forall x | x in t.rows && Settled(t, x)
      ensures RowIsLatest(t, x) <==> x !in t.lost
    {
      forall id | id in s.requests && s.requests[id].subject == x
        ensures !Pending(s.requests[id].pc)
      {
        assert SamePending(s.requests[id], t.requests[id]);
      }
      assert Settled(s, x);
    }
  }

  lemma BackgroundIsQuiet(s: State, a: Action)
    requires Enabled(s, a)
    requires a.Tick? || a.Arrive? || a.Expire? || a.Evict? || a.Scan? || a.Sweep?
    ensures Quiet(s, Apply(s, a))
  {
  }

  /** The request moves on without having, or getting, anything to write or to present. */
  lemma PlainMoveIsQuiet(s: State, t: State, id: nat, pc: Pc)
    requires id in s.requests && t.requests == s.requests[id := s.requests[id].(pc := pc)]
    requires t.rows == s.rows && t.latest == s.latest && t.lost == s.lost
    requires !Pending(s.requests[id].pc) && !Pending(pc) && !pc.Exchanging?
    ensures Quiet(s, t)
  {
  }

  lemma CheckIsQuiet(s: State, id: nat)
    requires Enabled(s, Check(id))
    ensures Quiet(s, Apply(s, Check(id)))
  {
    PlainMoveIsQuiet(s, Apply(s, Check(id)), id, AfterCheck(s, s.requests[id].subject));
  }

  lemma TakeLockWaits(s: State, id: nat) returns (lock: nat)
    requires Enabled(s, TakeLock(id))
    ensures var t := Apply(s, TakeLock(id));
            && t.requests == s.requests[id := s.requests[id].(pc := Waiting(lock))]
            && t.rows == s.rows && t.latest == s.latest && t.lost == s.lost
  {
    var subject := s.requests[id].subject;
    lock := if subject in s.locks then s.locks[subject] else s.nextLock;
  }

  lemma TakeLockIsQuiet(s: State, id: nat)
    requires Enabled(s, TakeLock(id))
    ensures Quiet(s, Apply(s, TakeLock(id)))
  {
    var lock := TakeLockWaits(s, id);
    PlainMoveIsQuiet(s, Apply(s, TakeLock(id)), id, Waiting(lock));
  }

  lemma AcquireIsQuiet(s: State, id: nat)
    requires Enabled(s, Acquire(id))
    ensures Quiet(s, Apply(s, Acquire(id)))
  {
    PlainMoveIsQuiet(s, Apply(s, Acquire(id)), id, Checking(s.requests[id].pc.lock));
  }

  lemma RecheckIsQuiet(s: State, id: nat)
    requires Enabled(s, Recheck(id))
    ensures Quiet(s, Apply(s, Recheck(id)))
  {
    PlainMoveIsQuiet(s, Apply(s, Recheck(id)), id, AfterRecheck(s, s.requests[id].subject, s.requests[id].pc.lock));
  }

  lemma LeaveIsQuiet(s: State, id: nat)
    requires Enabled(s, Leave(id))
    ensures Quiet(s, Apply(s, Leave(id)))
  {
    PlainMoveIsQuiet(s, Apply(s, Leave(id)), id, Returned(s.requests[id].pc.token, s.requests[id].pc.source));
  }

  lemma LockingIsQuiet(s: State, a: Action)
    requires Enabled(s, a)
    requires a.Check? || a.TakeLock? || a.Acquire? || a.Recheck? || a.Leave?
    ensures Quiet(s, Apply(s, a))
  {
    match a
    case Check(id) => CheckIsQuiet(s, id);
    case TakeLock(id) => TakeLockIsQuiet(s, id);
    case Acquire(id) => AcquireIsQuiet(s, id);
    case Recheck(id) => RecheckIsQuiet(s, id);
    case Leave(id) => LeaveIsQuiet(s, id);
  }

  lemma RefreshingIsQuiet(s: State, a: Action)
    requires Enabled(s, a) && (a.Read? || a.Stamp? || a.Insert?)
    requires a.Insert? ==> !Pending(s.requests[a.id].pc)
    ensures Quiet(s, Apply(s, a))
  {
  }

  lemma QuietKeepsRows(s: State, a: Action)
    requires RowsInOrder(s) && Enabled(s, a)
    requires !a.Exchange? && !a.Write? && !a.Abort?
    ensures RowsInOrder(Apply(s, a))
  {
    if a.Check? || a.TakeLock? || a.Acquire? || a.Recheck? || a.Leave? {
      LockingIsQuiet(s, a);
    } else if a.Read? || a.Stamp? || a.Insert? {
      RefreshingIsQuiet(s, a);
    } else {
      BackgroundIsQuiet(s, a);
    }
    QuietStepKeepsRows(s, Apply(s, a));
  }

  lemma ExchangeKeepsPending(s: State, a: Action)
    requires RowsInOrder(s) && OneRefreshEach(s) && TokensProper(s)
    requires Enabled(s, a) && a.Exchange?
    ensures PendingAreLatest(Apply(s, a)) && PresentedAreStored(Apply(s, a))
  {
    var t, who := Apply(s, a), s.requests[a.id].subject;
    assert ProperPc(s, who, s.requests[a.id].pc);
    assert t.requests == s.requests[a.id := t.requests[a.id]];
  }

  /** No row changes; a rotated token is pending with the request and the newest of its subject, and of no other. */
  ghost predicate ExchangeTouches(s: State, t: State, id: nat, rotates: bool)
    requires id in s.requests
  {
    && t.rows == s.rows && id in t.requests
    && var who, pc := s.requests[id].subject, t.requests[id].pc;
       && (Pending(pc) <==> rotates)
       && (rotates ==> who in t.latest && t.latest[who] == PendingToken(pc))
       && t.latest - {who} == s.latest - {who} && (!rotates ==> t.latest == s.latest)
  }

  lemma ExchangeTouchesItsOwn(s: State, a: Action)
    requires TokensProper(s) && Enabled(s, a) && a.Exchange?
    ensures ExchangeTouches(s, Apply(s, a), a.id, a.rotates)
  {
    assert ProperPc(s, s.requests[a.id].subject, s.requests[a.id].pc);
  }

  lemma ExchangeKeepsRows(s: State, a: Action)
    requires RowsInOrder(s) && OneRefreshEach(s) && TokensProper(s)
    requires Enabled(s, a) && a.Exchange?
    ensures RowsInOrder(Apply(s, a))
    ensures ExchangeTouches(s, Apply(s, a), a.id, a.rotates)
  {
    ExchangeKeepsPending(s, a);
    ExchangeTouchesItsOwn(s, a);
    var t, who := Apply(s, a), s.requests[a.id].subject;
    assert ProperPc(s, who, s.requests[a.id].pc);
    assert t.requests == s.requests[a.id := t.requests[a.id]];
    forall x | x in t.rows && Settled(t, x)
      ensures RowIsLatest(t, x) <==> x !in t.lost
    {
      if x == who { assert !Pending(t.requests[a.id].pc); }
      forall id | id in s.requests && s.requests[id].subject == x
        ensures !Pending(s.requests[id].pc)
      {
        if id != a.id { assert t.requests[id] == s.requests[id]; }
      }
      assert Settled(s, x);
    }
  }

  /** A new token that was pending is in the row, and the newest; no other row changes. */
  lemma WriteStoresPending(s: State, a: Action)
    requires PendingAreLatest(s) && Enabled(s, a) && a.Write?
    ensures var t, x := Apply(s, a), s.requests[a.id].subject;
            && t.rows - {x} == s.rows - {x}
            && (Pending(s.requests[a.id].pc) ==> RowIsLatest(t, x) && t.rows[x] == PendingToken(s.requests[a.id].pc))
            && (!Pending(s.requests[a.id].pc) ==> t.rows == s.rows)
  {
  }

  lemma WriteKeepsRows(s: State, a: Action)
    requires RowsInOrder(s) && OneRefreshEach(s) && Enabled(s, a) && a.Write?
    ensures RowsInOrder(Apply(s, a))
    ensures Pending(s.requests[a.id].pc) ==> RowIsLatest(Apply(s, a), s.requests[a.id].subject)
  {
    WriteStoresPending(s, a);
    var t, who := Apply(s, a), s.requests[a.id].subject;
    assert t.requests == s.requests[a.id := t.requests[a.id]];
    forall x | x in t.rows && Settled(t, x)
      ensures RowIsLatest(t, x) <==> x !in t.lost
    {
      if x != who || !Pending(s.requests[a.id].pc) {
        forall id | id in s.requests && s.requests[id].subject == x
          ensures !Pending(s.requests[id].pc)
        {
          if id != a.id { assert t.requests[id] == s.requests[id]; }
        }
        assert Settled(s, x);
      }
    }
  }

  lemma AbortKeepsRows(s: State, a: Action)
    requires RowsInOrder(s) && OneRefreshEach(s) && Enabled(s, a) && a.Abort?
    ensures RowsInOrder(Apply(s, a))
  {
    var t, who := Apply(s, a), s.requests[a.id].subject;
    assert t.requests == s.requests[a.id := t.requests[a.id]];
    forall x | x in t.rows && Settled(t, x)
      ensures RowIsLatest(t, x) <==> x !in t.lost
    {
      if x != who || !Pending(s.requests[a.id].pc) {
        forall id | id in s.requests && s.requests[id].subject == x
          ensures !Pending(s.requests[id].pc)
        {
          if id != a.id { assert t.requests[id] == s.requests[id]; }
        }
        assert Settled(s, x);
      }
    }
  }

  lemma {:induction false} RowsInOrderAfter(s: State, actions: seq<Action>)
    requires LocksInOrder(s) && TokensProper(s) && RowsInOrder(s)
    requires CanRun(s, actions) && Careful(s, actions)
    ensures RowsInOrder(After(s, actions))
    decreases |actions|
  {
    if actions != [] {
      var a := actions[0];
      LocksGiveOneRefresh(s);
      if a.Exchange? {
        ExchangeKeepsRows(s, a);
      } else if a.Write? {
        WriteKeepsRows(s, a);
      } else if a.Abort? {
        AbortKeepsRows(s, a);
      } else {
        QuietKeepsRows(s, a);
      }
      LocksStayInOrder(s, a);
      TokensStayProper(s, a);
      RowsInOrderAfter(Apply(s, a), actions[1..]);
    }
  }

  /**
   In every careful run, while no request of a subject is between exchange and write, the row holds the
   newest refresh token exactly if no newer one was dropped since the last write; and a request about to
   exchange presents the stored token, which is then the newest on the same condition.
   */
  lemma RowsHoldTheLatest(s: State, actions: seq<Action>, subject: Subject)
    requires Initial(s) && CanRun(s, actions) && Careful(s, actions)
    ensures var t := After(s, actions);
            && (subject in t.rows && Settled(t, subject) ==> (RowIsLatest(t, subject) <==> subject !in t.lost))
            && forall id :: id in t.requests && t.requests[id].subject == subject && t.requests[id].pc.Exchanging? ==>
                              subject in t.rows && t.requests[id].pc.presented == t.rows[subject]
                              && (RowIsLatest(t, subject) <==> subject !in t.lost)
  {
    var t := After(s, actions);
    RowsInOrderAfter(s, actions);
    MutualExclusion(s, actions);
    forall id | id in t.requests && t.requests[id].subject == subject && t.requests[id].pc.Exchanging?
      ensures subject in t.rows && Settled(t, subject)
    {
    }
  }

  // ---------------------------------------------------------------- runs that drop nothing

  /** A step that drops a new refresh token: an abort between exchange and write. */
  predicate Drops(s: State, a: Action)
    requires Enabled(s, a)
  {
    a.Abort? && Pending(s.requests[a.id].pc)
  }

  lemma BackgroundDropsNothing(s: State, a: Action)
    requires Enabled(s, a)
    requires a.Tick? || a.Arrive? || a.Expire? || a.Evict? || a.Scan? || a.Sweep?
    ensures Apply(s, a).lost == s.lost
  {
  }

  lemma AbortDrops(s: State, id: nat)
    requires Enabled(s, Abort(id))
    ensures Apply(s, Abort(id)).lost
            == if Pending(s.requests[id].pc) then s.lost + {s.requests[id].subject} else s.lost
  {
  }

  lemma RefreshingDropsNothing(s: State, a: Action)
    requires Enabled(s, a) && (a.Read? || a.Exchange? || a.Stamp? || a.Write? || a.Insert?)
    ensures Apply(s, a).lost <= s.lost
  {
  }

  /** Nothing but such a step drops a token, and it drops that of its own subject. */
  lemma DropsExactly(s: State, a: Action)
    requires Enabled(s, a)
    ensures Drops(s, a) ==> Apply(s, a).lost == s.lost + {s.requests[a.id].subject}
    ensures !Drops(s, a) ==> Apply(s, a).lost <= s.lost
  {
    if a.Check? || a.TakeLock? || a.Acquire? || a.Recheck? || a.Leave? {
      LockingIsQuiet(s, a);
    } else if a.Tick? || a.Arrive? || a.Expire? || a.Evict? || a.Scan? || a.Sweep? {
      BackgroundDropsNothing(s, a);
    } else if a.Abort? {
      AbortDrops(s, a.id);
    } else {
      RefreshingDropsNothing(s, a);
    }
  }

  /** A run in which no request is aborted between exchange and write. */
  predicate DropsNothing(s: State, actions: seq<Action>)
    requires CanRun(s, actions)
    decreases |actions|
  {
    actions != [] ==> !Drops(s, actions[0]) && DropsNothing(Apply(s, actions[0]), actions[1..])
  }

  lemma {:induction false} NothingIsLost(s: State, actions: seq<Action>)
    requires CanRun(s, actions) && DropsNothing(s, actions) && s.lost == {}
    ensures After(s, actions).lost == {}
    decreases |actions|
  {
    if actions != [] {
      DropsExactly(s, actions[0]);
      NothingIsLost(Apply(s, actions[0]), actions[1..]);
    }
  }

  /**
   In every careful run in which no request is aborted between exchange and write, each row holds the newest refresh
   token whenever none is still to be written, and every exchange presents the newest one.
   */
  lemma StoredIsNewest(s: State, actions: seq<Action>, subject: Subject)
    requires Initial(s) && CanRun(s, actions) && Careful(s, actions) && DropsNothing(s, actions)
    ensures var t := After(s, actions);
            && (subject in t.rows && Settled(t, subject) ==> RowIsLatest(t, subject))
            && forall id :: id in t.requests && t.requests[id].subject == subject && t.requests[id].pc.Exchanging? ==>
                              subject in t.latest && t.requests[id].pc.presented == t.latest[subject]
  {
    NothingIsLost(s, actions);
    RowsHoldTheLatest(s, actions, subject);
  }
}
