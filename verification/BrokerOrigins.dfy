/** Where in a run the token that a request returns comes from. */
module BrokerOrigins {
  import opened Broker
  import opened BrokerTokens
  import opened Wrappers

  // ---------------------------------------------------------------- the states of a run

  /** The state after the first n steps. */
  ghost function At(s: State, actions: seq<Action>, n: nat): State
    requires CanRun(s, actions) && n <= |actions|
    decreases n
  {
    if n == 0 then s else At(Apply(s, actions[0]), actions[1..], n - 1)
  }

  lemma {:induction false} AtNext(s: State, actions: seq<Action>, n: nat)
    requires CanRun(s, actions) && n < |actions|
    ensures Enabled(At(s, actions, n), actions[n])
    ensures At(s, actions, n + 1) == Apply(At(s, actions, n), actions[n])
    decreases n
  {
    if n > 0 { AtNext(Apply(s, actions[0]), actions[1..], n - 1); }
  }

  lemma {:induction false} AtEnd(s: State, actions: seq<Action>)
    requires CanRun(s, actions)
    ensures At(s, actions, |actions|) == After(s, actions)
    decreases |actions|
  {
    if actions != [] { AtEnd(Apply(s, actions[0]), actions[1..]); }
  }

  lemma {:induction false} AtProper(s: State, actions: seq<Action>, n: nat)
    requires TokensProper(s) && CanRun(s, actions) && n <= |actions|
    ensures TokensProper(At(s, actions, n))
    decreases n
  {
    if n > 0 {
      TokensStayProper(s, actions[0]);
      AtProper(Apply(s, actions[0]), actions[1..], n - 1);
    }
  }

  lemma {:induction false} AtGrows(s: State, actions: seq<Action>, m: nat, n: nat)
    requires TokensProper(s) && CanRun(s, actions) && m <= n <= |actions|
    ensures Grows(At(s, actions, m), At(s, actions, n))
    decreases n - m
  {
    if m < n {
      AtNext(s, actions, m);
      AtProper(s, actions, m);
      StepGrows(At(s, actions, m), actions[m]);
      AtGrows(s, actions, m + 1, n);
    }
  }

  // ---------------------------------------------------------------- origins

  /** Step i is the arrival of the request. */
  predicate ArrivesAt(actions: seq<Action>, id: nat, subject: Subject, i: nat) {
    i < |actions| && actions[i] == Arrive(id, subject)
  }

  /** Step k is an exchange by the request itself; there the provider issues the token, not before. */
  ghost predicate MintedAt(s: State, actions: seq<Action>, id: nat, token: Access, k: nat)
    requires CanRun(s, actions)
  {
    && k < |actions| && actions[k].Exchange? && actions[k].id == id
    && token !in At(s, actions, k).issued && token in At(s, actions, k + 1).issued
    && var issued := At(s, actions, k + 1).issued[token];
       && issued.at == At(s, actions, k).clock
       && issued.lifetime == (if actions[k].lifetime.Some? then actions[k].lifetime.value else 60)
  }

  /** Step k is a look of the request into the cache, which holds the token for the subject. */
  ghost predicate FoundAt(s: State, actions: seq<Action>, id: nat, subject: Subject, token: Access, source: Source,
                          k: nat)
    requires CanRun(s, actions)
  {
    && k < |actions| && (actions[k].Check? || actions[k].Recheck?) && actions[k].id == id
    && InCache(At(s, actions, k), subject, token, source)
  }

  /** The cached token is no older than five minutes, and has more than 30 seconds left. */
  predicate Fresh(s: State, subject: Subject) {
    && subject in s.cache && s.clock < s.cache[subject].insertedAt + 300
    && s.clock + 30 < s.cache[subject].expiresAt
  }

  predicate InCache(s: State, subject: Subject, token: Access, source: Source) {
    && Fresh(s, subject) && source.Hit? && source.checkedAt == s.clock
    && s.cache[subject].access == token
    && s.cache[subject].stampedAt == source.stampedAt && s.cache[subject].expiresAt == source.expiresAt
  }

  /** The request arrived at step i and got the token at the later step k. */
  ghost predicate ComesFrom(s: State, actions: seq<Action>, id: nat, subject: Subject, token: Access, source: Source,
                            i: nat, k: nat)
    requires CanRun(s, actions)
  {
    && ArrivesAt(actions, id, subject, i) && i < k
    && (source.Minted? ==> MintedAt(s, actions, id, token, k))
    && (source.Hit? ==> FoundAt(s, actions, id, subject, token, source, k))
  }

  // ---------------------------------------------------------------- single steps

  /** The token that a request has got, by an exchange or from the cache. */
  function Carried(pc: Pc): Option<(Access, Source)> {
    match pc
    case Stamping(_, access, _, _, _) => Some((access, Minted))
    case Writing(_, ticket) => Some((ticket.access, Minted))
    case Caching(_, ticket) => Some((ticket.access, Minted))
    case Leaving(_, token, source) => Some((token, source))
    case Returned(token, source) => Some((token, source))
    case _ => None
  }

  /** The request of t has nothing, or what it had in s, or what the step from s gave it. */
  ghost predicate CarriesOn(s: State, t: State, a: Action, id: nat)
    requires id in s.requests && id in t.requests
  {
    var had, has := Carried(s.requests[id].pc), Carried(t.requests[id].pc);
    has.None? || has == had || Mints(s, t, a, id, has.value) || Finds(s, a, id, t.requests[id].subject, has.value)
  }

  predicate Mints(s: State, t: State, a: Action, id: nat, got: (Access, Source)) {
    && a.Exchange? && a.id == id && got.1.Minted? && got.0 !in s.issued && got.0 in t.issued
    && t.issued[got.0].at == s.clock
    && t.issued[got.0].lifetime == (if a.lifetime.Some? then a.lifetime.value else 60)
  }

  predicate Finds(s: State, a: Action, id: nat, subject: Subject, got: (Access, Source)) {
    (a.Check? || a.Recheck?) && a.id == id && InCache(s, subject, got.0, got.1)
  }

  lemma CheckCarriesOn(s: State, id: nat)
    requires Enabled(s, Check(id))
    ensures var t := Apply(s, Check(id)); id in t.requests && CarriesOn(s, t, Check(id), id)
  {
  }

  lemma RecheckCarriesOn(s: State, id: nat)
    requires Enabled(s, Recheck(id))
    ensures var t := Apply(s, Recheck(id)); id in t.requests && CarriesOn(s, t, Recheck(id), id)
  {
  }

  lemma TakeLockCarriesOn(s: State, id: nat)
    requires Enabled(s, TakeLock(id))
    ensures var t := Apply(s, TakeLock(id)); id in t.requests && CarriesOn(s, t, TakeLock(id), id)
  {
  }

  lemma AcquireCarriesOn(s: State, id: nat)
    requires Enabled(s, Acquire(id))
    ensures var t := Apply(s, Acquire(id)); id in t.requests && CarriesOn(s, t, Acquire(id), id)
  {
  }

  lemma ReadCarriesOn(s: State, id: nat)
    requires Enabled(s, Read(id))
    ensures var t := Apply(s, Read(id)); id in t.requests && CarriesOn(s, t, Read(id), id)
  {
  }

  lemma ExchangeCarriesOn(s: State, a: Action)
    requires StoresProper(s) && Enabled(s, a) && a.Exchange?
    ensures var t := Apply(s, a); a.id in t.requests && CarriesOn(s, t, a, a.id)
  {
    assert s.nextToken !in s.issued;
  }

  lemma StampCarriesOn(s: State, id: nat)
    requires Enabled(s, Stamp(id))
    ensures var t := Apply(s, Stamp(id)); id in t.requests && CarriesOn(s, t, Stamp(id), id)
  {
  }

  lemma WriteCarriesOn(s: State, id: nat)
    requires Enabled(s, Write(id))
    ensures var t := Apply(s, Write(id)); id in t.requests && CarriesOn(s, t, Write(id), id)
  {
  }

  lemma InsertCarriesOn(s: State, id: nat)
    requires Enabled(s, Insert(id))
    ensures var t := Apply(s, Insert(id)); id in t.requests && CarriesOn(s, t, Insert(id), id)
  {
  }

  lemma LeaveCarriesOn(s: State, id: nat)
    requires Enabled(s, Leave(id))
    ensures var t := Apply(s, Leave(id)); id in t.requests && CarriesOn(s, t, Leave(id), id)
  {
  }

  lemma AbortCarriesOn(s: State, id: nat)
    requires Enabled(s, Abort(id))
    ensures var t := Apply(s, Abort(id)); id in t.requests && CarriesOn(s, t, Abort(id), id)
  {
  }

  /** The step is taken by a request that has arrived. */
  predicate ByRequest(a: Action) {
    !a.Tick? && !a.Arrive? && !a.Expire? && !a.Evict? && !a.Scan? && !a.Sweep?
  }

  lemma OwnStepCarriesOn(s: State, a: Action)
    requires StoresProper(s) && Enabled(s, a) && ByRequest(a)
    ensures var t := Apply(s, a); a.id in t.requests && CarriesOn(s, t, a, a.id)
  {
    match a
    case Check(id) => CheckCarriesOn(s, id);
    case TakeLock(id) => TakeLockCarriesOn(s, id);
    case Acquire(id) => AcquireCarriesOn(s, id);
    case Recheck(id) => RecheckCarriesOn(s, id);
    case Read(id) => ReadCarriesOn(s, id);
    case Exchange(id, _, _) => ExchangeCarriesOn(s, a);
    case Stamp(id) => StampCarriesOn(s, id);
    case Write(id) => WriteCarriesOn(s, id);
    case Insert(id) => InsertCarriesOn(s, id);
    case Leave(id) => LeaveCarriesOn(s, id);
    case Abort(id) => AbortCarriesOn(s, id);
  }

  /** A step leaves every request alone but the one that takes it or arrives by it. */
  lemma OthersAreLeftAlone(s: State, a: Action, id: nat)
    requires TokensProper(s) && Enabled(s, a) && ((ByRequest(a) || a.Arrive?) ==> a.id != id)
    ensures var t := Apply(s, a);
            (id in t.requests <==> id in s.requests) && (id in t.requests ==> t.requests[id] == s.requests[id])
  {
    if a.Check? || a.TakeLock? || a.Acquire? || a.Recheck? || a.Leave? || a.Abort? {
      LockingIsProper(s, a);
    } else if ByRequest(a) {
      RefreshingIsProper(s, a);
    }
  }

  lemma OwnStepKeepsSubject(s: State, a: Action)
    requires TokensProper(s) && Enabled(s, a) && ByRequest(a)
    ensures var t := Apply(s, a); a.id in t.requests && t.requests[a.id].subject == s.requests[a.id].subject
  {
    if a.Check? || a.TakeLock? || a.Acquire? || a.Recheck? || a.Leave? || a.Abort? {
      LockingIsProper(s, a);
    } else {
      RefreshingIsProper(s, a);
    }
  }

  // ---------------------------------------------------------------- every run

  /** The request has arrived within the first n steps, and got what it carries within them. */
  ghost predicate Traced(s: State, actions: seq<Action>, id: nat, n: nat)
    requires CanRun(s, actions) && n <= |actions| && id in At(s, actions, n).requests
  {
    var r := At(s, actions, n).requests[id];
    exists i: nat ::
      && i < n && ArrivesAt(actions, id, r.subject, i)
      && (Carried(r.pc).Some? ==> Got(s, actions, id, r.subject, Carried(r.pc).value, i, n))
  }

  ghost predicate Got(s: State, actions: seq<Action>, id: nat, subject: Subject, got: (Access, Source), i: nat, n: nat)
    requires CanRun(s, actions)
  {
    exists k: nat :: k < n && ComesFrom(s, actions, id, subject, got.0, got.1, i, k)
  }

  lemma OwnStepIsTraced(s: State, actions: seq<Action>, id: nat, n: nat)
    requires TokensProper(s) && CanRun(s, actions) && n < |actions| && ByRequest(actions[n]) && actions[n].id == id
    requires id in At(s, actions, n).requests && Traced(s, actions, id, n)
    ensures id in At(s, actions, n + 1).requests && Traced(s, actions, id, n + 1)
  {
    var u, a, t := At(s, actions, n), actions[n], At(s, actions, n + 1);
    AtNext(s, actions, n);
    AtProper(s, actions, n);
    OwnStepCarriesOn(u, a);
    OwnStepKeepsSubject(u, a);
    var subject, had, has := u.requests[id].subject, Carried(u.requests[id].pc), Carried(t.requests[id].pc);
    var i: nat :| i < n && ArrivesAt(actions, id, subject, i)
                  && (had.Some? ==> Got(s, actions, id, subject, had.value, i, n));
    if has.Some? {
      if has == had {
        var k: nat :| k < n && ComesFrom(s, actions, id, subject, had.value.0, had.value.1, i, k);
        assert ComesFrom(s, actions, id, subject, has.value.0, has.value.1, i, k);
      } else {
        assert ComesFrom(s, actions, id, subject, has.value.0, has.value.1, i, n);
      }
      assert Got(s, actions, id, subject, has.value, i, n + 1);
    }
  }

  lemma OthersStayTraced(s: State, actions: seq<Action>, id: nat, n: nat)
    requires TokensProper(s) && CanRun(s, actions) && n < |actions|
    requires id in At(s, actions, n).requests && Traced(s, actions, id, n)
    requires (ByRequest(actions[n]) || actions[n].Arrive?) ==> actions[n].id != id
    ensures id in At(s, actions, n + 1).requests && Traced(s, actions, id, n + 1)
  {
    AtNext(s, actions, n);
    AtProper(s, actions, n);
    OthersAreLeftAlone(At(s, actions, n), actions[n], id);
    var r := At(s, actions, n).requests[id];
    var i: nat :| i < n && ArrivesAt(actions, id, r.subject, i)
                  && (Carried(r.pc).Some? ==> Got(s, actions, id, r.subject, Carried(r.pc).value, i, n));
    if Carried(r.pc).Some? {
      var got := Carried(r.pc).value;
      var k: nat :| k < n && ComesFrom(s, actions, id, r.subject, got.0, got.1, i, k);
      assert Got(s, actions, id, r.subject, got, i, n + 1);
    }
  }

  lemma ArrivalIsTraced(s: State, actions: seq<Action>, id: nat, n: nat)
    requires CanRun(s, actions) && n < |actions| && actions[n].Arrive? && actions[n].id == id
    ensures id in At(s, actions, n + 1).requests && Traced(s, actions, id, n + 1)
  {
    AtNext(s, actions, n);
    assert ArrivesAt(actions, id, actions[n].subject, n);
  }

  lemma {:induction false} EveryRequestIsTraced(s: State, actions: seq<Action>, id: nat, n: nat)
    requires TokensProper(s) && s.requests == map[] && CanRun(s, actions) && n <= |actions|
    requires id in At(s, actions, n).requests
    ensures Traced(s, actions, id, n)
    decreases n
  {
    if n > 0 {
      var u, a := At(s, actions, n - 1), actions[n - 1];
      AtNext(s, actions, n - 1);
      AtProper(s, actions, n - 1);
      if a.Arrive? && a.id == id {
        ArrivalIsTraced(s, actions, id, n - 1);
      } else if ByRequest(a) && a.id == id {
        EveryRequestIsTraced(s, actions, id, n - 1);
        OwnStepIsTraced(s, actions, id, n - 1);
      } else {
        OthersAreLeftAlone(u, a, id);
        EveryRequestIsTraced(s, actions, id, n - 1);
        OthersStayTraced(s, actions, id, n - 1);
      }
    }
  }

  // ---------------------------------------------------------------- what is in the cache

  /** In step l a request for the subject puts the entry into the cache, with the token that it got by an exchange. */
  ghost predicate PutAt(s: State, actions: seq<Action>, subject: Subject, entry: Cached, l: nat)
    requires CanRun(s, actions)
  {
    l < |actions| && Puts(At(s, actions, l), actions[l], subject, entry)
  }

  predicate Puts(s: State, a: Action, subject: Subject, entry: Cached) {
    && a.Insert? && a.id in s.requests && s.requests[a.id].subject == subject
    && entry.insertedAt == s.clock && Carried(s.requests[a.id].pc) == Some((entry.access, Minted))
  }

  lemma InsertPuts(s: State, a: Action, subject: Subject)
    requires Enabled(s, a) && a.Insert? && subject in Apply(s, a).cache
    ensures Puts(s, a, subject, Apply(s, a).cache[subject])
            || (subject in s.cache && Apply(s, a).cache[subject] == s.cache[subject])
  {
  }

  lemma OthersPutNothing(s: State, a: Action, subject: Subject)
    requires Enabled(s, a) && !a.Insert? && subject in Apply(s, a).cache
    ensures subject in s.cache && Apply(s, a).cache[subject] == s.cache[subject]
  {
    if a.Check? || a.TakeLock? || a.Acquire? || a.Recheck? || a.Read? || a.Stamp? || a.Leave? || a.Abort? {
      RequestLeavesStores(s, a);
    }
  }

  /** What is in the cache has been put there by a request for that subject. */
  lemma {:induction false} CachedTokensWerePut(s: State, actions: seq<Action>, subject: Subject, n: nat)
    requires s.cache == map[] && CanRun(s, actions) && n <= |actions| && subject in At(s, actions, n).cache
    ensures exists l: nat :: l < n && PutAt(s, actions, subject, At(s, actions, n).cache[subject], l)
    decreases n
  {
    if n > 0 {
      var u, a := At(s, actions, n - 1), actions[n - 1];
      AtNext(s, actions, n - 1);
      var entry := At(s, actions, n).cache[subject];
      if a.Insert? {
        InsertPuts(u, a, subject);
      } else {
        OthersPutNothing(u, a, subject);
      }
      if a.Insert? && Puts(u, a, subject, entry) {
        assert PutAt(s, actions, subject, entry, n - 1);
      } else {
        CachedTokensWerePut(s, actions, subject, n - 1);
        var l: nat :| l < n - 1 && PutAt(s, actions, subject, u.cache[subject], l);
      }
    }
  }

  // ---------------------------------------------------------------- what is returned

  /** The entry found at step k was put into the cache less than 300 seconds earlier. */
  ghost predicate FoundRecent(s: State, actions: seq<Action>, subject: Subject, k: nat)
    requires CanRun(s, actions) && k < |actions|
  {
    var u := At(s, actions, k);
    && subject in u.cache
    && exists l: nat :: l < k && PutAt(s, actions, subject, u.cache[subject], l)
                        && u.clock < At(s, actions, l).clock + 300
  }

  lemma FoundIsRecent(s: State, actions: seq<Action>, id: nat, subject: Subject, token: Access, source: Source, k: nat)
    requires s.cache == map[] && CanRun(s, actions) && FoundAt(s, actions, id, subject, token, source, k)
    ensures FoundRecent(s, actions, subject, k)
  {
    CachedTokensWerePut(s, actions, subject, k);
    var l: nat :| l < k && PutAt(s, actions, subject, At(s, actions, k).cache[subject], l);
  }

  /** It was issued, or checked in the cache, after the request's arrival. */
  ghost predicate AfterArrival(s: State, actions: seq<Action>, token: Access, source: Source, i: nat)
    requires CanRun(s, actions) && i < |actions| && token in After(s, actions).issued
  {
    At(s, actions, i).clock <= (if source.Minted? then After(s, actions).issued[token].at else source.checkedAt)
  }

  /** The token of a finished request: whose it is, how fresh it is, and which steps of the run it comes from. */
  ghost predicate ProperlyReturned(s: State, actions: seq<Action>, id: nat, i: nat, k: nat)
    requires CanRun(s, actions) && id in After(s, actions).requests && After(s, actions).requests[id].pc.Returned?
  {
    var t := After(s, actions);
    var subject, token, source := t.requests[id].subject, t.requests[id].pc.token, t.requests[id].pc.source;
    && Proper(t, subject, token, source) && ComesFrom(s, actions, id, subject, token, source, i, k)
    && (source.Hit? ==> FoundRecent(s, actions, subject, k))
    && AfterArrival(s, actions, token, source, i)
  }

  lemma MintedAfterArrival(s: State, actions: seq<Action>, id: nat, token: Access, i: nat, k: nat)
    requires TokensProper(s) && CanRun(s, actions) && i < k && MintedAt(s, actions, id, token, k)
    ensures var t := After(s, actions); token in t.issued && At(s, actions, i).clock <= t.issued[token].at
  {
    AtGrows(s, actions, i, k);
    AtGrows(s, actions, k + 1, |actions|);
    AtEnd(s, actions);
  }

  lemma OriginIsLate(s: State, actions: seq<Action>, id: nat, subject: Subject, token: Access, source: Source, i: nat,
                     k: nat)
    requires TokensProper(s) && CanRun(s, actions) && token in After(s, actions).issued
    requires k < |actions| && ComesFrom(s, actions, id, subject, token, source, i, k)
    ensures AfterArrival(s, actions, token, source, i)
  {
    if source.Minted? {
      MintedAfterArrival(s, actions, id, token, i, k);
    } else {
      AtGrows(s, actions, i, k);
    }
  }

  lemma OriginIsProper(s: State, actions: seq<Action>, id: nat, i: nat, k: nat)
    requires Initial(s) && CanRun(s, actions) && k < |actions|
    requires id in After(s, actions).requests && After(s, actions).requests[id].pc.Returned?
    requires var r := After(s, actions).requests[id];
             ComesFrom(s, actions, id, r.subject, r.pc.token, r.pc.source, i, k)
    ensures ProperlyReturned(s, actions, id, i, k)
  {
    var r := After(s, actions).requests[id];
    TokensProperAfter(s, actions);
    assert ProperPc(After(s, actions), r.subject, r.pc);
    OriginIsLate(s, actions, id, r.subject, r.pc.token, r.pc.source, i, k);
    if r.pc.source.Hit? { FoundIsRecent(s, actions, id, r.subject, r.pc.token, r.pc.source, k); }
  }

  /**
   In every run, the token that a request returns was issued to the subject it asked for. A minted one was issued
   by an exchange of this very request, after its arrival; any other was found in the cache after its arrival, put
   there less than 300 seconds before by a request for the same subject, and with more than 30 seconds left.
   */
  lemma ReturnedTokensAreProper(s: State, actions: seq<Action>, id: nat)
    requires Initial(s) && CanRun(s, actions)
    requires id in After(s, actions).requests && After(s, actions).requests[id].pc.Returned?
    ensures exists i: nat, k: nat :: ProperlyReturned(s, actions, id, i, k)
  {
    AtEnd(s, actions);
    EveryRequestIsTraced(s, actions, id, |actions|);
    var r := After(s, actions).requests[id];
    var i: nat :| i < |actions| && ArrivesAt(actions, id, r.subject, i)
                  && Got(s, actions, id, r.subject, Carried(r.pc).value, i, |actions|);
    var k: nat :| k < |actions| && ComesFrom(s, actions, id, r.subject, r.pc.token, r.pc.source, i, k);
    OriginIsProper(s, actions, id, i, k);
  }

  lemma MintedOnce(s: State, actions: seq<Action>, id: nat, other: nat, token: Access, k: nat, l: nat)
    requires TokensProper(s) && CanRun(s, actions)
    requires MintedAt(s, actions, id, token, k) && MintedAt(s, actions, other, token, l)
    ensures id == other
  {
    if k < l {
      AtGrows(s, actions, k + 1, l);
    } else if l < k {
      AtGrows(s, actions, l + 1, k);
    }
  }

  /** In every run, no two requests return the same token as newly minted. */
  lemma MintedTokensAreNotShared(s: State, actions: seq<Action>, id: nat, other: nat)
    requires Initial(s) && CanRun(s, actions)
    requires var t := After(s, actions);
             && id in t.requests && t.requests[id].pc.Returned? && t.requests[id].pc.source.Minted?
             && other in t.requests && t.requests[other].pc.Returned? && t.requests[other].pc.source.Minted?
             && t.requests[id].pc.token == t.requests[other].pc.token
    ensures id == other
  {
    ReturnedTokensAreProper(s, actions, id);
    ReturnedTokensAreProper(s, actions, other);
    var i: nat, k: nat :| ProperlyReturned(s, actions, id, i, k);
    var j: nat, l: nat :| ProperlyReturned(s, actions, other, j, l);
    MintedOnce(s, actions, id, other, After(s, actions).requests[id].pc.token, k, l);
  }

  // ---------------------------------------------------------------- a fresh token is used

  /** Nothing is left to a request but to leave or to be dropped. */
  predicate Settled(s: State, id: nat) {
    id in s.requests && (s.requests[id].pc.Leaving? || s.requests[id].pc.Returned? || s.requests[id].pc.Failed?)
  }

  lemma StepKeepsSettled(s: State, a: Action, id: nat)
    requires TokensProper(s) && Enabled(s, a) && Settled(s, id)
    ensures Settled(Apply(s, a), id) && (a.Exchange? ==> a.id != id)
  {
    if (ByRequest(a) || a.Arrive?) && a.id == id {
      assert a.Leave? || a.Abort?;
    } else {
      OthersAreLeftAlone(s, a, id);
    }
  }

  lemma {:induction false} SettledNeverExchanges(s: State, actions: seq<Action>, id: nat, m: nat, n: nat)
    requires TokensProper(s) && CanRun(s, actions) && m <= n < |actions| && Settled(At(s, actions, m), id)
    ensures actions[n].Exchange? ==> actions[n].id != id
    decreases n - m
  {
    AtNext(s, actions, m);
    AtProper(s, actions, m);
    StepKeepsSettled(At(s, actions, m), actions[m], id);
    if m < n { SettledNeverExchanges(s, actions, id, m + 1, n); }
  }

  lemma FreshTokenSettles(s: State, a: Action)
    requires Enabled(s, a) && (a.Check? || a.Recheck?) && Fresh(s, s.requests[a.id].subject)
    ensures Settled(Apply(s, a), a.id)
  {
  }

  /** A request that looks into the cache while it holds a fresh token of its subject never goes to the provider. */
  lemma FreshTokensAreUsed(s: State, actions: seq<Action>, k: nat, n: nat)
    requires Initial(s) && CanRun(s, actions) && k < n < |actions|
    requires (actions[k].Check? || actions[k].Recheck?) && actions[n].Exchange? && actions[n].id == actions[k].id
    ensures var u, id := At(s, actions, k), actions[k].id;
            id in u.requests && !Fresh(u, u.requests[id].subject)
  {
    AtNext(s, actions, k);
    if Fresh(At(s, actions, k), At(s, actions, k).requests[actions[k].id].subject) {
      FreshTokenSettles(At(s, actions, k), actions[k]);
      SettledNeverExchanges(s, actions, actions[k].id, k + 1, n);
    }
  }
}
