/**
 The identity mapper (identity-mapper/src/identity_mapper): custom objects in the cluster, one per user,
 brought in line with the identities found in LDAP. Nobody else changes the objects.
 */
module IdentitySync {
  import opened Decimal
  import opened Wrappers

  datatype Identity = Identity(uid: nat, gid: nat, supplementalGroups: seq<nat>)

  /** Identities by uid. */
  type Identities = map<nat, Identity>

  /** The specs of the custom objects by the name of the object. */
  type Cluster = map<string, Identity>

  /** The objects are named after the uid in their spec, as those this program creates are. */
  ghost predicate Named(cluster: Cluster) {
    forall name :: name in cluster ==> name == Show(cluster[name].uid)
  }

  /** LDAP identities are keyed by their own uid. */
  ghost predicate WellKeyed(ldap: Identities) {
    forall uid :: uid in ldap ==> ldap[uid].uid == uid
  }

  // ---------------------------------------------------------------- reading the cluster

  /** The dictionary built from the listed objects; the last object of a uid stays. */
  function ByUid(items: seq<Identity>): Identities {
    if items == [] then map[]
    else
      var last := items[|items| - 1];
      ByUid(items[..|items| - 1])[last.uid := last]
  }

  /** Every object is listed, and nothing else. */
  ghost predicate Lists(items: seq<Identity>, cluster: Cluster) {
    forall item :: item in items <==> item in cluster.Values
  }

  /** The identities of the objects in the cluster. */
  ghost function View(cluster: Cluster): Identities
    requires Named(cluster)
  {
    var uids := set name | name in cluster :: cluster[name].uid;
    assert forall uid :: uid in uids ==> Show(uid) in cluster;
    map uid | uid in uids :: cluster[Show(uid)]
  }

  lemma {:induction false} ViewAt(cluster: Cluster, uid: nat)
    requires Named(cluster)
    ensures uid in View(cluster) <==> Show(uid) in cluster
    ensures uid in View(cluster) ==> View(cluster)[uid] == cluster[Show(uid)] && View(cluster)[uid].uid == uid
  {
    if Show(uid) in cluster {
      ShowInjective(uid, cluster[Show(uid)].uid);
    }
  }

  lemma {:induction false} ByUidExactly(items: seq<Identity>, uid: nat)
    ensures uid in ByUid(items) <==> exists item :: item in items && item.uid == uid
    ensures uid in ByUid(items) ==> ByUid(items)[uid] in items && ByUid(items)[uid].uid == uid
  {
    if items != [] {
      var front, last := items[..|items| - 1], items[|items| - 1];
      assert items == front + [last];
      ByUidExactly(front, uid);
    }
  }

  /** In whatever order the objects are listed, reading them yields the identity of each. */
  lemma {:induction false} ListingYieldsView(items: seq<Identity>, cluster: Cluster)
    requires Named(cluster) && Lists(items, cluster)
    ensures ByUid(items) == View(cluster)
  {
    forall uid: nat
      ensures uid in ByUid(items) <==> uid in View(cluster)
      ensures uid in ByUid(items) ==> ByUid(items)[uid] == View(cluster)[uid]
    {
      ByUidExactly(items, uid);
      ViewAt(cluster, uid);
      if uid in ByUid(items) {
        var item := ByUid(items)[uid];
        assert item in cluster.Values;
        var name :| name in cluster && cluster[name] == item;
      }
      if uid in View(cluster) {
        assert cluster[Show(uid)] in cluster.Values;
      }
    }
  }

  // ---------------------------------------------------------------- distance

  function Lookup(m: Identities, uid: nat): Option<Identity> {
    if uid in m then Some(m[uid]) else None
  }

  /** The uids for which the cluster differs from LDAP. */
  function Differing(kube: Identities, ldap: Identities): set<nat> {
    set uid | uid in kube.Keys + ldap.Keys && Lookup(kube, uid) != Lookup(ldap, uid)
  }

  function Distance(kube: Identities, ldap: Identities): nat {
    |Differing(kube, ldap)|
  }

  /** Distance zero is agreement. */
  lemma {:induction false} ZeroDistanceExactly(kube: Identities, ldap: Identities)
    ensures Distance(kube, ldap) == 0 <==> kube == ldap
  {
    if Distance(kube, ldap) == 0 {
      forall uid
        ensures uid in kube <==> uid in ldap
        ensures uid in kube ==> kube[uid] == ldap[uid]
      {
        assert uid !in Differing(kube, ldap);
        assert uid in kube.Keys + ldap.Keys ==> Lookup(kube, uid) == Lookup(ldap, uid);
      }
    }
  }

  function ToCreate(kube: Identities, ldap: Identities): set<nat> {
    ldap.Keys - kube.Keys
  }

  function ToDelete(kube: Identities, ldap: Identities): set<nat> {
    kube.Keys - ldap.Keys
  }

  function ToUpdate(kube: Identities, ldap: Identities): set<nat> {
    set uid | uid in ldap.Keys * kube.Keys && ldap[uid] != kube[uid]
  }

  lemma {:induction false} DifferingSplits(kube: Identities, ldap: Identities)
    ensures Differing(kube, ldap) == ToCreate(kube, ldap) + ToDelete(kube, ldap) + ToUpdate(kube, ldap)
  {
  }

  /** The identities once a uid has its LDAP state. */
  function Given(kube: Identities, ldap: Identities, uid: nat): Identities {
    if uid in ldap then kube[uid := ldap[uid]] else kube - {uid}
  }

  /** Giving a differing uid its LDAP state takes it and nothing else off what is to be done. */
  lemma {:induction false} OneCallOneStep(kube: Identities, ldap: Identities, uid: nat)
    requires uid in Differing(kube, ldap)
    ensures ToCreate(Given(kube, ldap, uid), ldap) == ToCreate(kube, ldap) - {uid}
    ensures ToDelete(Given(kube, ldap, uid), ldap) == ToDelete(kube, ldap) - {uid}
    ensures ToUpdate(Given(kube, ldap, uid), ldap) == ToUpdate(kube, ldap) - {uid}
    ensures Distance(Given(kube, ldap, uid), ldap) == Distance(kube, ldap) - 1
  {
    assert Differing(Given(kube, ldap, uid), ldap) == Differing(kube, ldap) - {uid};
  }

  lemma {:induction false} StoringStores(cluster: Cluster, spec: Identity)
    requires Named(cluster)
    ensures Named(cluster[Show(spec.uid) := spec])
    ensures View(cluster[Show(spec.uid) := spec]) == View(cluster)[spec.uid := spec]
  {
    var after := cluster[Show(spec.uid) := spec];
    forall uid: nat
      ensures uid in View(after) <==> uid in View(cluster) || uid == spec.uid
      ensures uid in View(after) ==> View(after)[uid] == if uid == spec.uid then spec else View(cluster)[uid]
    {
      ViewAt(after, uid);
      ViewAt(cluster, uid);
      if Show(uid) == Show(spec.uid) { ShowInjective(uid, spec.uid); }
    }
  }

  lemma {:induction false} RemovedAt(cluster: Cluster, gone: nat, uid: nat)
    requires Named(cluster)
    ensures Named(cluster - {Show(gone)})
    ensures uid in View(cluster - {Show(gone)}) <==> uid in View(cluster) && uid != gone
    ensures uid in View(cluster - {Show(gone)}) ==> View(cluster - {Show(gone)})[uid] == View(cluster)[uid]
  {
    ViewAt(cluster - {Show(gone)}, uid);
    ViewAt(cluster, uid);
    if Show(uid) == Show(gone) { ShowInjective(uid, gone); }
  }

  lemma {:induction false} RemovingRemoves(cluster: Cluster, gone: nat)
    requires Named(cluster)
    ensures Named(cluster - {Show(gone)}) && View(cluster - {Show(gone)}) == View(cluster) - {gone}
  {
    forall uid: nat { RemovedAt(cluster, gone, uid); }
  }

  // ---------------------------------------------------------------- the cluster and its calls

  class Kubectl {
    var cluster: Cluster
    /** How many calls have taken effect. */
    var done: nat

    /** All specs, in any order. */
    method List() returns (items: seq<Identity>)
      ensures Lists(items, cluster)
    {
      items := [];
      var names := cluster.Keys;
      while names != {}
        invariant names <= cluster.Keys
        invariant forall name :: name in cluster && name !in names ==> cluster[name] in items
        invariant forall item :: item in items ==> item in cluster.Values
      {
        var name :| name in names;
        items := items + [cluster[name]];
        names := names - {name};
      }
      assert forall item :: item in cluster.Values ==> exists name :: name in cluster && cluster[name] == item;
    }

    /** Creating fails if there is an object of that name. */
    method Create(name: string, spec: Identity, ok: bool) returns (success: bool)
      modifies this
      ensures success <==> ok && name !in old(cluster)
      ensures cluster == if success then old(cluster)[name := spec] else old(cluster)
      ensures done == if success then old(done) + 1 else old(done)
    {
      success := ok && name !in cluster;
      if success {
        cluster, done := cluster[name := spec], done + 1;
      }
    }

    method Delete(name: string, ok: bool) returns (success: bool)
      modifies this
      ensures success <==> ok && name in old(cluster)
      ensures cluster == if success then old(cluster) - {name} else old(cluster)
      ensures done == if success then old(done) + 1 else old(done)
    {
      success := ok && name in cluster;
      if success {
        cluster, done := cluster - {name}, done + 1;
      }
    }

    /** A patch that names every field of the spec replaces it. */
    method Patch(name: string, spec: Identity, ok: bool) returns (success: bool)
      modifies this
      ensures success <==> ok && name in old(cluster)
      ensures cluster == if success then old(cluster)[name := spec] else old(cluster)
      ensures done == if success then old(done) + 1 else old(done)
    {
      success := ok && name in cluster;
      if success {
        cluster, done := cluster[name := spec], done + 1;
      }
    }
  }

  /** How a synchronisation stands: every call made has lowered the distance by one, and none has failed. */
  ghost predicate OnTheWay(cluster: Cluster, ldap: Identities, distance: nat, calls: nat, ok: nat -> bool) {
    && Named(cluster) && Distance(View(cluster), ldap) + calls == distance
    && forall i :: 0 <= i < calls ==> ok(i)
  }

  /** What is still to be done. */
  datatype Work = Work(create: set<nat>, delete: set<nat>, update: set<nat>)

  ghost function Remaining(kube: Identities, ldap: Identities): Work {
    Work(ToCreate(kube, ldap), ToDelete(kube, ldap), ToUpdate(kube, ldap))
  }

  /** How it stands, with what is still to be done. */
  ghost predicate Stands(cluster: Cluster, ldap: Identities, distance: nat, calls: nat, ok: nat -> bool, work: Work) {
    OnTheWay(cluster, ldap, distance, calls, ok) && Remaining(View(cluster), ldap) == work
  }

  lemma {:induction false} CallAdvances(cluster: Cluster, after: Cluster, ldap: Identities, distance: nat, calls: nat,
                                        ok: nat -> bool, uid: nat)
    requires OnTheWay(cluster, ldap, distance, calls, ok) && Named(after)
    requires uid in Differing(View(cluster), ldap) && View(after) == Given(View(cluster), ldap, uid)
    ensures calls < distance && (ok(calls) ==> OnTheWay(after, ldap, distance, calls + 1, ok))
  {
    OneCallOneStep(View(cluster), ldap, uid);
  }

  lemma {:induction false} OneCreate(kube: Identities, ldap: Identities, uid: nat)
    requires uid in ToCreate(kube, ldap)
    ensures Remaining(Given(kube, ldap, uid), ldap) == Remaining(kube, ldap).(create := ToCreate(kube, ldap) - {uid})
    ensures uid in Differing(kube, ldap)
  {
    var work := Remaining(kube, ldap);
    assert uid in Differing(kube, ldap);
    OneCallOneStep(kube, ldap, uid);
    assert uid in work.create;
    assert work.delete - {uid} == work.delete;
    assert work.update - {uid} == work.update;
  }

  lemma {:induction false} OneDelete(kube: Identities, ldap: Identities, uid: nat)
    requires uid in ToDelete(kube, ldap)
    ensures Remaining(Given(kube, ldap, uid), ldap) == Remaining(kube, ldap).(delete := ToDelete(kube, ldap) - {uid})
    ensures uid in Differing(kube, ldap)
  {
    var work := Remaining(kube, ldap);
    assert uid in Differing(kube, ldap);
    OneCallOneStep(kube, ldap, uid);
    assert uid in work.delete;
    assert work.create - {uid} == work.create;
    assert work.update - {uid} == work.update;
  }

  lemma {:induction false} OneUpdate(kube: Identities, ldap: Identities, uid: nat)
    requires uid in ToUpdate(kube, ldap)
    ensures Remaining(Given(kube, ldap, uid), ldap) == Remaining(kube, ldap).(update := ToUpdate(kube, ldap) - {uid})
    ensures uid in Differing(kube, ldap)
  {
    var work := Remaining(kube, ldap);
    assert uid in Differing(kube, ldap);
    OneCallOneStep(kube, ldap, uid);
    assert uid in work.update;
    assert work.create - {uid} == work.create;
    assert work.delete - {uid} == work.delete;
  }

  lemma {:induction false} Creating(cluster: Cluster, ldap: Identities, distance: nat, calls: nat, ok: nat -> bool,
                                    uid: nat)
    requires OnTheWay(cluster, ldap, distance, calls, ok) && WellKeyed(ldap) && uid in ToCreate(View(cluster), ldap)
    ensures Show(uid) !in cluster && calls < distance
    ensures ok(calls) ==> OnTheWay(cluster[Show(uid) := ldap[uid]], ldap, distance, calls + 1, ok)
    ensures ok(calls) ==>
              Remaining(View(cluster[Show(uid) := ldap[uid]]), ldap)
              == Remaining(View(cluster), ldap).(create := ToCreate(View(cluster), ldap) - {uid})
  {
    ViewAt(cluster, uid);
    StoringStores(cluster, ldap[uid]);
    OneCreate(View(cluster), ldap, uid);
    CallAdvances(cluster, cluster[Show(uid) := ldap[uid]], ldap, distance, calls, ok, uid);
  }

  lemma {:induction false} Deleting(cluster: Cluster, ldap: Identities, distance: nat, calls: nat, ok: nat -> bool,
                                    uid: nat)
    requires OnTheWay(cluster, ldap, distance, calls, ok) && WellKeyed(ldap) && uid in ToDelete(View(cluster), ldap)
    ensures Show(uid) in cluster && calls < distance
    ensures ok(calls) ==> OnTheWay(cluster - {Show(uid)}, ldap, distance, calls + 1, ok)
    ensures ok(calls) ==>
              Remaining(View(cluster - {Show(uid)}), ldap)
              == Remaining(View(cluster), ldap).(delete := ToDelete(View(cluster), ldap) - {uid})
  {
    ViewAt(cluster, uid);
    RemovingRemoves(cluster, uid);
    OneDelete(View(cluster), ldap, uid);
    CallAdvances(cluster, cluster - {Show(uid)}, ldap, distance, calls, ok, uid);
  }

  lemma {:induction false} Updating(cluster: Cluster, ldap: Identities, distance: nat, calls: nat, ok: nat -> bool,
                                    uid: nat)
    requires OnTheWay(cluster, ldap, distance, calls, ok) && WellKeyed(ldap) && uid in ToUpdate(View(cluster), ldap)
    ensures Show(uid) in cluster && calls < distance
    ensures ok(calls) ==> OnTheWay(cluster[Show(uid) := ldap[uid]], ldap, distance, calls + 1, ok)
    ensures ok(calls) ==>
              Remaining(View(cluster[Show(uid) := ldap[uid]]), ldap)
              == Remaining(View(cluster), ldap).(update := ToUpdate(View(cluster), ldap) - {uid})
  {
    ViewAt(cluster, uid);
    StoringStores(cluster, ldap[uid]);
    OneUpdate(View(cluster), ldap, uid);
    CallAdvances(cluster, cluster[Show(uid) := ldap[uid]], ldap, distance, calls, ok, uid);
  }

  /** The first loop of sync_ldap_to_kubernetes. */
  method CreateAll(kubectl: Kubectl, ldap: Identities, uids: set<nat>, ghost distance: nat, calls: nat, ok: nat -> bool,
                   ghost work: Work)
    returns (completed: bool, callsNow: nat, ghost left: set<nat>)
    requires Stands(kubectl.cluster, ldap, distance, calls, ok, work) && WellKeyed(ldap) && uids == work.create
    modifies kubectl
    ensures kubectl.done + calls == old(kubectl.done) + callsNow
    ensures Stands(kubectl.cluster, ldap, distance, callsNow, ok, work.(create := left))
    ensures left <= uids && (completed <==> left == {}) && (!completed ==> callsNow < distance && !ok(callsNow))
  {
    var waiting := uids;
    callsNow := calls;
    while waiting != {}
      invariant kubectl.done + calls == old(kubectl.done) + callsNow && waiting <= uids
      invariant Stands(kubectl.cluster, ldap, distance, callsNow, ok, work.(create := waiting))
    {
      var uid :| uid in waiting;
      Creating(kubectl.cluster, ldap, distance, callsNow, ok, uid);
      var success := kubectl.Create(Show(uid), ldap[uid], ok(callsNow));
      if !success {
        return false, callsNow, waiting;
      }
      waiting, callsNow := waiting - {uid}, callsNow + 1;
    }
    completed, left := true, {};
  }

  /** The second loop. */
  method DeleteAll(kubectl: Kubectl, ldap: Identities, uids: set<nat>, ghost distance: nat, calls: nat, ok: nat -> bool,
                   ghost work: Work)
    returns (completed: bool, callsNow: nat, ghost left: set<nat>)
    requires Stands(kubectl.cluster, ldap, distance, calls, ok, work) && WellKeyed(ldap) && uids == work.delete
    modifies kubectl
    ensures kubectl.done + calls == old(kubectl.done) + callsNow
    ensures Stands(kubectl.cluster, ldap, distance, callsNow, ok, work.(delete := left))
    ensures left <= uids && (completed <==> left == {}) && (!completed ==> callsNow < distance && !ok(callsNow))
  {
    var waiting := uids;
    callsNow := calls;
    while waiting != {}
      invariant kubectl.done + calls == old(kubectl.done) + callsNow && waiting <= uids
      invariant Stands(kubectl.cluster, ldap, distance, callsNow, ok, work.(delete := waiting))
    {
      var uid :| uid in waiting;
      Deleting(kubectl.cluster, ldap, distance, callsNow, ok, uid);
      var success := kubectl.Delete(Show(uid), ok(callsNow));
      if !success {
        return false, callsNow, waiting;
      }
      waiting, callsNow := waiting - {uid}, callsNow + 1;
    }
    completed, left := true, {};
  }

  /** The third loop. */
  method UpdateAll(kubectl: Kubectl, ldap: Identities, uids: set<nat>, ghost distance: nat, calls: nat, ok: nat -> bool,
                   ghost work: Work)
    returns (completed: bool, callsNow: nat, ghost left: set<nat>)
    requires Stands(kubectl.cluster, ldap, distance, calls, ok, work) && WellKeyed(ldap) && uids == work.update
    modifies kubectl
    ensures kubectl.done + calls == old(kubectl.done) + callsNow
    ensures Stands(kubectl.cluster, ldap, distance, callsNow, ok, work.(update := left))
    ensures left <= uids && (completed <==> left == {}) && (!completed ==> callsNow < distance && !ok(callsNow))
  {
    var waiting := uids;
    callsNow := calls;
    while waiting != {}
      invariant kubectl.done + calls == old(kubectl.done) + callsNow && waiting <= uids
      invariant Stands(kubectl.cluster, ldap, distance, callsNow, ok, work.(update := waiting))
    {
      var uid :| uid in waiting;
      Updating(kubectl.cluster, ldap, distance, callsNow, ok, uid);
      var success := kubectl.Patch(Show(uid), ldap[uid], ok(callsNow));
      if !success {
        return false, callsNow, waiting;
      }
      waiting, callsNow := waiting - {uid}, callsNow + 1;
    }
    completed, left := true, {};
  }

  predicate IsDeleted(before: Identities, after: Identities, uid: nat) {
    uid in before && uid !in after
  }

  predicate IsUpdated(before: Identities, after: Identities, ldap: Identities, uid: nat) {
    uid in before && uid in ldap && before[uid] != ldap[uid] && uid in after && after[uid] == ldap[uid]
  }

  /** Nothing is deleted before everything missing is there, and nothing updated before everything surplus is gone. */
  ghost predicate InOrder(before: Identities, after: Identities, ldap: Identities) {
    && (forall uid :: IsDeleted(before, after, uid) ==> ldap.Keys <= after.Keys)
    && (forall uid :: IsUpdated(before, after, ldap, uid) ==> ldap.Keys == after.Keys)
  }

  /** The same for what is to be done. */
  predicate Follows(was: Work, now: Work) {
    && now.create <= was.create && (now.delete != was.delete ==> now.create == {})
    && (now.update != was.update ==> now.create == {} && now.delete == {})
  }

  lemma {:induction false} WorkInOrder(before: Identities, after: Identities, ldap: Identities)
    requires Follows(Remaining(before, ldap), Remaining(after, ldap))
    ensures InOrder(before, after, ldap)
  {
    var was, now := Remaining(before, ldap), Remaining(after, ldap);
    assert now.create == {} ==> ldap.Keys <= after.Keys by {
      assert forall uid :: uid in ldap && uid !in after ==> uid in now.create;
    }
    assert now.delete == {} ==> after.Keys <= ldap.Keys by {
      assert forall uid :: uid in after && uid !in ldap ==> uid in now.delete;
    }
    forall uid | IsDeleted(before, after, uid)
      ensures now.create == {}
    {
      assert uid in ldap ==> uid in now.create && uid !in was.create;
      assert uid !in ldap ==> uid in was.delete && uid !in now.delete;
    }
    forall uid | IsUpdated(before, after, ldap, uid)
      ensures now.create == {} && now.delete == {}
    {
      assert uid in was.update && uid !in now.update;
    }
  }

  /**
   sync_ldap_to_kubernetes; call number i fails if !ok(i), and a failing call ends it. In whatever order the sets
   are gone through, it completes exactly when no call fails, after exactly as many calls as uids differed; and
   wherever it is cut short, every call made has lowered the distance by one. Nothing is deleted before everything
   missing is created, and nothing updated before everything surplus is deleted.
   */
  method Sync(kubectl: Kubectl, ldap: Identities, kube: Identities, ok: nat -> bool) returns (completed: bool)
    requires Named(kubectl.cluster) && kube == View(kubectl.cluster) && WellKeyed(ldap)
    modifies kubectl
    ensures Named(kubectl.cluster)
    ensures old(kubectl.done) <= kubectl.done
    ensures Distance(View(kubectl.cluster), ldap) + (kubectl.done - old(kubectl.done)) == Distance(kube, ldap)
    ensures completed <==> forall i :: 0 <= i < Distance(kube, ldap) ==> ok(i)
    ensures completed <==> View(kubectl.cluster) == ldap
    ensures InOrder(kube, View(kubectl.cluster), ldap)
  {
    var toCreate, toDelete, toUpdate := ToCreate(kube, ldap), ToDelete(kube, ldap), ToUpdate(kube, ldap);
    var calls;
    ghost var left;
    completed, calls, left := WorkOff(kubectl, ldap, toCreate, toDelete, toUpdate, Distance(kube, ldap), ok);
    WorkInOrder(kube, View(kubectl.cluster), ldap);
    DifferingSplits(View(kubectl.cluster), ldap);
    ZeroDistanceExactly(View(kubectl.cluster), ldap);
  }

  /** Its three loops. */
  method WorkOff(kubectl: Kubectl, ldap: Identities, toCreate: set<nat>, toDelete: set<nat>, toUpdate: set<nat>,
                 ghost distance: nat, ok: nat -> bool)
    returns (completed: bool, calls: nat, ghost left: Work)
    requires Stands(kubectl.cluster, ldap, distance, 0, ok, Work(toCreate, toDelete, toUpdate)) && WellKeyed(ldap)
    modifies kubectl
    ensures kubectl.done == old(kubectl.done) + calls && Stands(kubectl.cluster, ldap, distance, calls, ok, left)
    ensures if completed then left == Work({}, {}, {}) else calls < distance && !ok(calls)
    ensures Follows(Work(toCreate, toDelete, toUpdate), left)
  {
    ghost var work, rest := Work(toCreate, toDelete, toUpdate), toCreate;
    completed, calls, rest := CreateAll(kubectl, ldap, toCreate, distance, 0, ok, work);
    left := work.(create := rest);
    if completed {
      completed, calls, rest := DeleteAll(kubectl, ldap, toDelete, distance, calls, ok, left);
      left := left.(delete := rest);
    }
    if completed {
      completed, calls, rest := UpdateAll(kubectl, ldap, toUpdate, distance, calls, ok, left);
      left := left.(update := rest);
    }
  }

  // ---------------------------------------------------------------- whole runs

  /** One run of the program: list the objects, compare, synchronise. */
  method Run(kubectl: Kubectl, ldap: Identities, ok: nat -> bool) returns (completed: bool)
    requires Named(kubectl.cluster) && WellKeyed(ldap)
    modifies kubectl
    ensures Named(kubectl.cluster) && old(kubectl.done) <= kubectl.done
    ensures Distance(View(kubectl.cluster), ldap) + (kubectl.done - old(kubectl.done))
         == Distance(View(old(kubectl.cluster)), ldap)
    ensures completed <==> View(kubectl.cluster) == ldap
    ensures completed <==> forall i :: 0 <= i < Distance(View(old(kubectl.cluster)), ldap) ==> ok(i)
  {
    var items := kubectl.List();
    ListingYieldsView(items, kubectl.cluster);
    completed := Sync(kubectl, ldap, ByUid(items), ok);
  }

  /** A run that starts in agreement completes without a call. */
  method RunOnce(kubectl: Kubectl, ldap: Identities, ok: nat -> bool) returns (completed: bool)
    requires Named(kubectl.cluster) && WellKeyed(ldap)
    modifies kubectl
    ensures Named(kubectl.cluster) && old(kubectl.done) <= kubectl.done
    ensures Distance(View(kubectl.cluster), ldap) + (kubectl.done - old(kubectl.done))
         == Distance(View(old(kubectl.cluster)), ldap)
    ensures completed <==> View(kubectl.cluster) == ldap
    ensures View(old(kubectl.cluster)) == ldap ==> completed && kubectl.done == old(kubectl.done)
  {
    ZeroDistanceExactly(View(kubectl.cluster), ldap);
    completed := Run(kubectl, ldap, ok);
    ZeroDistanceExactly(View(kubectl.cluster), ldap);
  }

  /** Runs that may each be cut short anywhere: together they never make more calls than uids differed at first,
      and as soon as one of them completes they have made exactly that many, and make no more. */
  method RunAgainAndAgain(kubectl: Kubectl, ldap: Identities, outcomes: seq<nat -> bool>) returns (completed: seq<bool>)
    requires Named(kubectl.cluster) && WellKeyed(ldap)
    modifies kubectl
    ensures |completed| == |outcomes| && Named(kubectl.cluster) && old(kubectl.done) <= kubectl.done
    ensures Distance(View(kubectl.cluster), ldap) + (kubectl.done - old(kubectl.done))
         == Distance(View(old(kubectl.cluster)), ldap)
    ensures true in completed ==> View(kubectl.cluster) == ldap
                                  && kubectl.done - old(kubectl.done) == Distance(View(old(kubectl.cluster)), ldap)
    ensures forall i, j :: 0 <= i < j < |completed| && completed[i] ==> completed[j]
  {
    completed := [];
    ghost var distance := Distance(View(kubectl.cluster), ldap);
    for i := 0 to |outcomes|
      invariant |completed| == i && Named(kubectl.cluster) && old(kubectl.done) <= kubectl.done
      invariant Distance(View(kubectl.cluster), ldap) + (kubectl.done - old(kubectl.done)) == distance
      invariant true in completed ==> View(kubectl.cluster) == ldap
      invariant forall i, j :: 0 <= i < j < |completed| && completed[i] ==> completed[j]
    {
      var success := RunOnce(kubectl, ldap, outcomes[i]);
      completed := completed + [success];
    }
    ZeroDistanceExactly(View(kubectl.cluster), ldap);
  }
}
