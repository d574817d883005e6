/**
 What the cleanup loop may remove.

 The loop asks only whether the subject has a cache entry, which is also the case while a refresh is
 running. The module shows which sweeps are safe, and a run of the loop as written that is not.
 */
module BrokerSweep {
  import opened Broker
  import opened BrokerLocks
  import opened Wrappers

  /** However the run goes on with careful steps, refreshes stay one at a time. */
  ghost predicate StaysSafe(s: State) {
    forall actions | CanRun(s, actions) && Careful(s, actions) :: OneRefreshEach(After(s, actions))
  }

  // ---------------------------------------------------------------- going back from a clash

  lemma ClashNow(s: State)
    requires !OneRefreshEach(s)
    ensures !StaysSafe(s)
  {
    assert CanRun(s, []) && Careful(s, []) && After(s, []) == s;
  }

  lemma ClashAfter(s: State, a: Action)
    requires Enabled(s, a) && !a.Sweep? && !StaysSafe(Apply(s, a))
    ensures !StaysSafe(s)
  {
    var t := Apply(s, a);
    var rest :| CanRun(t, rest) && Careful(t, rest) && !OneRefreshEach(After(t, rest));
    var all := [a] + rest;
    assert all[0] == a && all[1..] == rest;
    assert CanRun(s, all) && Careful(s, all) && After(s, all) == After(t, rest);
  }

  /** An id above all that are used. */
  lemma {:induction false} FreeId(used: set<nat>) returns (id: nat)
    ensures forall u :: u in used ==> u < id
  {
    if used == {} {
      id := 0;
    } else {
      var u :| u in used;
      var above := FreeId(used - {u});
      id := if u < above then above else u + 1;
      forall w | w in used
        ensures w < id
      {
        assert w == u || w in used - {u};
      }
    }
  }

  ghost predicate At(s: State, id: nat, subject: Subject) {
    id in s.requests && s.requests[id].subject == subject
  }

  lemma TwoLocksClash(s: State, subject: Subject, id: nat, other: nat)
    requires At(s, id, subject) && Refreshing(s.requests[id].pc) && subject !in s.cache
    requires At(s, other, subject) && s.requests[other].pc.Waiting? && s.requests[other].pc.lock !in s.held
    ensures !StaysSafe(s)
  {
    var checking := Apply(s, Acquire(other));
    assert checking.requests[other].pc.Checking?;
    var reading := Apply(checking, Recheck(other));
    assert reading.requests[other].pc.Reading? && reading.requests[id] == s.requests[id] && id != other;
    ClashNow(reading);
    ClashAfter(checking, Recheck(other));
    ClashAfter(s, Acquire(other));
  }

  /** A refresh is running under a lock that the table no longer has: a newcomer gets another one. */
  lemma NewcomerClashes(s: State, subject: Subject, id: nat)
    requires At(s, id, subject) && Refreshing(s.requests[id].pc)
    requires subject !in s.locks && subject !in s.cache && s.nextLock !in s.held
    ensures !StaysSafe(s)
  {
    var other := FreeId(s.requests.Keys);
    assert other !in s.requests;
    var arrived := Apply(s, Arrive(other, subject));
    var missed := Apply(arrived, Check(other));
    var waiting := Apply(missed, TakeLock(other));
    assert waiting.requests[other].pc == Waiting(s.nextLock);
    TwoLocksClash(waiting, subject, id, other);
    ClashAfter(missed, TakeLock(other));
    ClashAfter(arrived, Check(other));
    ClashAfter(s, Arrive(other, subject));
  }

  lemma RefreshingClashes(s: State, subject: Subject, id: nat)
    requires At(s, id, subject) && Refreshing(s.requests[id].pc)
    requires subject !in s.locks && s.nextLock !in s.held
    ensures !StaysSafe(s)
  {
    if subject in s.cache {
      NewcomerClashes(Apply(s, Evict(subject)), subject, id);
      ClashAfter(s, Evict(subject));
    } else {
      NewcomerClashes(s, subject, id);
    }
  }

  lemma CheckingClashesUncached(s: State, subject: Subject, id: nat)
    requires At(s, id, subject) && s.requests[id].pc.Checking?
    requires subject !in s.locks && subject !in s.cache && s.nextLock !in s.held
    ensures !StaysSafe(s)
  {
    var reading := Apply(s, Recheck(id));
    assert reading.requests[id].pc.Reading?;
    RefreshingClashes(reading, subject, id);
    ClashAfter(s, Recheck(id));
  }

  lemma CheckingClashes(s: State, subject: Subject, id: nat)
    requires At(s, id, subject) && s.requests[id].pc.Checking?
    requires subject !in s.locks && s.nextLock !in s.held
    ensures !StaysSafe(s)
  {
    if subject in s.cache {
      CheckingClashesUncached(Apply(s, Evict(subject)), subject, id);
      ClashAfter(s, Evict(subject));
    } else {
      CheckingClashesUncached(s, subject, id);
    }
  }

  lemma WaitingClashesFree(s: State, subject: Subject, id: nat)
    requires At(s, id, subject) && s.requests[id].pc.Waiting? && s.requests[id].pc.lock !in s.held
    requires subject !in s.locks && s.nextLock !in s.held && s.requests[id].pc.lock != s.nextLock
    ensures !StaysSafe(s)
  {
    var checking := Apply(s, Acquire(id));
    assert checking.requests[id].pc.Checking?;
    CheckingClashes(checking, subject, id);
    ClashAfter(s, Acquire(id));
  }

  lemma AbortFrees(s: State, holder: nat)
    requires holder in s.requests && Holds(s.requests[holder].pc)
    ensures Enabled(s, Abort(holder))
    ensures var t := Apply(s, Abort(holder));
            t.held == s.held - {s.requests[holder].pc.lock} && t.locks == s.locks && t.nextLock == s.nextLock
            && forall id :: id in s.requests && id != holder ==> id in t.requests && t.requests[id] == s.requests[id]
  {
  }

  lemma WaitingClashes(s: State, subject: Subject, id: nat)
    requires At(s, id, subject) && s.requests[id].pc.Waiting? && HeldIsUsed(s)
    requires subject !in s.locks && s.nextLock !in s.held && s.requests[id].pc.lock != s.nextLock
    ensures !StaysSafe(s)
  {
    var lock := s.requests[id].pc.lock;
    if lock in s.held {
      var holder := s.held[lock];
      AbortFrees(s, holder);
      WaitingClashesFree(Apply(s, Abort(holder)), subject, id);
      ClashAfter(s, Abort(holder));
    } else {
      WaitingClashesFree(s, subject, id);
    }
  }

  // ---------------------------------------------------------------- which sweeps are safe

  /**
   At any state of a careful run, sweeping a subject's lock keeps refreshes one at a time, whatever
   comes after, exactly when no request holds a clone of that lock that it still works under.
   */
  lemma SweepSafeExactlyWhenUnclaimed(s: State, subject: Subject)
    requires LocksInOrder(s) && Enabled(s, Sweep(subject))
    ensures StaysSafe(Apply(s, Sweep(subject))) <==> Unclaimed(s, subject)
  {
    var swept := Apply(s, Sweep(subject));
    if Unclaimed(s, subject) {
      LocksStayInOrder(s, Sweep(subject));
      forall actions | CanRun(swept, actions) && Careful(swept, actions)
        ensures OneRefreshEach(After(swept, actions))
      {
        LocksInOrderAfter(swept, actions);
        LocksGiveOneRefresh(After(swept, actions));
      }
    } else {
      var id :| id in s.requests && s.requests[id].subject == subject && Claims(s.requests[id].pc);
      assert s.nextLock !in s.held && s.requests[id].pc.lock == s.locks[subject] < s.nextLock;
      assert HeldIsUsed(swept);
      if s.requests[id].pc.Waiting? {
        WaitingClashes(swept, subject, id);
      } else if s.requests[id].pc.Checking? {
        CheckingClashes(swept, subject, id);
      } else {
        RefreshingClashes(swept, subject, id);
      }
    }
  }

  // ---------------------------------------------------------------- the loop as written

  ghost predicate Reaches(s: State, t: State) {
    exists actions :: CanRun(s, actions) && After(s, actions) == t
  }

  lemma {:induction false} RunOneMore(s: State, actions: seq<Action>, a: Action)
    requires CanRun(s, actions) && Enabled(After(s, actions), a)
    ensures CanRun(s, actions + [a]) && After(s, actions + [a]) == Apply(After(s, actions), a)
    decreases |actions|
  {
    var all := actions + [a];
    if actions == [] {
      assert all[0] == a && all[1..] == [];
    } else {
      RunOneMore(Apply(s, actions[0]), actions[1..], a);
      assert all[0] == actions[0] && all[1..] == actions[1..] + [a];
    }
  }

  lemma Then(s: State, t: State, a: Action)
    requires Reaches(s, t) && Enabled(t, a)
    ensures Reaches(s, Apply(t, a))
  {
    var actions :| CanRun(s, actions) && After(s, actions) == t;
    RunOneMore(s, actions, a);
  }

  /** A request arrives and finds nothing in the cache. */
  lemma RunsUpToMiss(s: State, t: State, id: nat, subject: Subject) returns (u: State)
    requires Reaches(s, t) && id !in t.requests && subject !in t.cache
    ensures Reaches(s, u) && u == t.(requests := t.requests[id := Request(subject, Missed)])
  {
    Then(s, t, Arrive(id, subject));
    var arrived := Apply(t, Arrive(id, subject));
    Then(s, arrived, Check(id));
    u := Apply(arrived, Check(id));
    assert u.requests == t.requests[id := Request(subject, Missed)];
  }

  /** It gets a lock of its own. */
  lemma RunsUpToLock(s: State, t: State, id: nat, subject: Subject) returns (u: State)
    requires Reaches(s, t) && id in t.requests && t.requests[id] == Request(subject, Missed)
    requires subject !in t.locks && t.nextLock !in t.held
    ensures Reaches(s, u)
    ensures u == t.(requests := t.requests[id := Request(subject, Checking(t.nextLock))],
                    locks := t.locks[subject := t.nextLock],
                    held := t.held[t.nextLock := id], nextLock := t.nextLock + 1)
  {
    Then(s, t, TakeLock(id));
    var waiting := Apply(t, TakeLock(id));
    assert waiting.requests == t.requests[id := Request(subject, Waiting(t.nextLock))];
    Then(s, waiting, Acquire(id));
    u := Apply(waiting, Acquire(id));
    assert u.requests == t.requests[id := Request(subject, Checking(t.nextLock))];
  }

  /** It goes on, still alone, until it has read the database. */
  lemma RunsUpToExchange(s: State, t: State, id: nat, subject: Subject) returns (u: State)
    requires Reaches(s, t) && id in t.requests && t.requests[id].subject == subject && t.requests[id].pc.Checking?
    requires subject !in t.cache && subject in t.rows
    ensures Reaches(s, u)
    ensures u == t.(requests := t.requests[id := Request(subject, Exchanging(t.requests[id].pc.lock, t.rows[subject]))])
  {
    var lock := t.requests[id].pc.lock;
    Then(s, t, Recheck(id));
    u := Apply(t, Recheck(id));
    assert u.requests == t.requests[id := Request(subject, Reading(lock))];
    Then(s, u, Read(id));
    u := Apply(u, Read(id));
    assert u.requests == t.requests[id := Request(subject, Exchanging(lock, t.rows[subject]))];
  }

  /**
   With the guard the loop has, the locks fail: for every subject with a stored token there is a run in
   which two requests refresh at once and the second presents a refresh token already replaced.
   */
  lemma CleanupAsWrittenClashes(s: State, subject: Subject)
    requires Initial(s) && subject in s.rows
    ensures exists t :: Reaches(s, t) && !OneRefreshEach(t)
                        && 1 in t.requests && t.requests[1].subject == subject && t.requests[1].pc.Exchanging?
                        && subject in t.latest && t.requests[1].pc.presented != t.latest[subject]
  {
    assert CanRun(s, []) && After(s, []) == s;
    var first := RunsUpToMiss(s, s, 0, subject);
    first := RunsUpToLock(s, first, 0, subject);
    first := RunsUpToExchange(s, first, 0, subject);
    var swept := RunsThroughCleanup(s, first, subject);
    SecondClashes(s, swept, subject);
  }

  /** The loop collects the lock of a subject without cache entry, and removes it. */
  lemma RunsThroughCleanup(s: State, t: State, subject: Subject) returns (u: State)
    requires Reaches(s, t) && subject in t.locks && subject !in t.cache && subject !in t.stale
    ensures Reaches(s, u) && u == t.(locks := t.locks - {subject})
  {
    Then(s, t, Scan(subject));
    var scanned := Apply(t, Scan(subject));
    Then(s, scanned, Sweep(subject));
    u := Apply(scanned, Sweep(subject));
    assert u.stale == t.stale;
  }

  lemma SecondClashes(s: State, swept: State, subject: Subject)
    requires Reaches(s, swept) && subject in swept.rows && subject !in swept.cache
    requires subject !in swept.locks && swept.nextLock !in swept.held && 1 !in swept.requests
    requires 0 in swept.requests && swept.requests[0].subject == subject && swept.requests[0].pc.Exchanging?
    requires swept.requests[0].pc.presented == swept.rows[subject]
    requires swept.rows[subject] in swept.owner && swept.owner[swept.rows[subject]] == subject
    requires swept.rows[subject] < swept.nextToken
    ensures exists t :: Reaches(s, t) && !OneRefreshEach(t)
                        && 1 in t.requests && t.requests[1].subject == subject && t.requests[1].pc.Exchanging?
                        && subject in t.latest && t.requests[1].pc.presented != t.latest[subject]
  {
    var both := RunsUpToMiss(s, swept, 1, subject);
    both := RunsUpToLock(s, both, 1, subject);
    both := RunsUpToExchange(s, both, 1, subject);
    Then(s, both, Exchange(0, None, true));
    var t := Apply(both, Exchange(0, None, true));
    assert t.latest[subject] == swept.nextToken + 1;
    assert t.requests[1] == both.requests[1];
    assert t.requests[0].pc.Stamping? && t.requests[0].subject == subject;
  }
}
