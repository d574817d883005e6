/**
 The sessionspaces reconciler (sessionspaces/src/main.rs, resources/): ticks that drive the cluster
 towards the sessions of the proposal database.

 Every call to the cluster may fail; a failed call has no effect. The cluster is changed by nobody else.
 */
module Sessionspaces {
  import opened Decimal
  import opened Wrappers

  datatype Session = Session(
    proposalCode: string,
    proposalNumber: nat,
    visit: nat,
    instrument: string,
    members: set<string>,
    gid: Option<nat>,
    startDate: string,
    endDate: string,
    dataDirectory: Option<string>)

  /** How member lists are written as JSON, and which directory belongs to an instrument: not part of this model. */
  datatype Environment = Environment(membersText: set<string> -> string, directory: Session -> Option<string>)

  type Data = map<string, string>

  /** A namespace, with the data of its "sessionspaces" ConfigMap if it has one. */
  datatype Namespace = Namespace(config: Option<Data>)

  type Cluster = map<string, Namespace>
  type Sessions = map<string, Session>

  // ---------------------------------------------------------------- rendering

  function Entry(data: Data, key: string, value: Option<string>): Data {
    if value.Some? then data[key := value.value] else data
  }

  /** The data of a session's ConfigMap; a configured data directory is preferred over the instrument's. */
  function Render(session: Session, env: Environment): Data {
    var base := map[
                  "proposal_code" := session.proposalCode,
                  "proposal_number" := Show(session.proposalNumber),
                  "visit" := Show(session.visit),
                  "instrument" := session.instrument,
                  "members" := env.membersText(session.members),
                  "start_date" := session.startDate,
                  "end_date" := session.endDate];
    Entry(Entry(base, "gid", if session.gid.Some? then Some(Show(session.gid.value)) else None),
          "data_directory", if session.dataDirectory.Some? then session.dataDirectory else env.directory(session))
  }

  /** The fields of a ConfigMap: seven always, the group ID if there is one, and the data directory that was
      configured or else belongs to the instrument. */
  lemma {:induction false} RendersFields(session: Session, env: Environment)
    ensures var r := Render(session, env);
            && Lookup(r, "proposal_code") == Some(session.proposalCode)
            && Lookup(r, "proposal_number") == Some(Show(session.proposalNumber))
            && Lookup(r, "visit") == Some(Show(session.visit))
            && Lookup(r, "instrument") == Some(session.instrument)
            && Lookup(r, "members") == Some(env.membersText(session.members))
            && Lookup(r, "start_date") == Some(session.startDate) && Lookup(r, "end_date") == Some(session.endDate)
            && (session.gid.Some? ==> Lookup(r, "gid") == Some(Show(session.gid.value)))
            && (session.gid.None? ==> "gid" !in r)
            && Lookup(r, "data_directory")
               == (if session.dataDirectory.Some? then session.dataDirectory else env.directory(session))
  {
  }

  /** Sessions with the same rendering agree on all they render directly. */
  lemma RenderDetermines(a: Session, b: Session, env: Environment)
    requires Render(a, env) == Render(b, env)
    ensures a.proposalCode == b.proposalCode && a.proposalNumber == b.proposalNumber && a.visit == b.visit
    ensures a.instrument == b.instrument && a.gid == b.gid && a.startDate == b.startDate && a.endDate == b.endDate
    ensures env.membersText(a.members) == env.membersText(b.members)
  {
    RendersFields(a, env);
    RendersFields(b, env);
    ShowInjective(a.proposalNumber, b.proposalNumber);
    ShowInjective(a.visit, b.visit);
    if a.gid.Some? {
      ShowInjective(a.gid.value, b.gid.value);
    }
  }

  // ---------------------------------------------------------------- one name

  datatype Call = GetNamespace | RemoveNamespace | CreateNamespace | CreateConfigMap

  /** Which calls of a tick succeed. */
  type Outcomes = (string, Call) -> bool

  /** What is remembered of a name, and what the cluster holds of it. */
  datatype Slot = Slot(current: Option<Session>, space: Option<Namespace>)

  datatype Step = Step(slot: Slot, calls: seq<Call>)

  /** delete_namespace: a namespace that is not there counts as deleted. */
  function Deleting(slot: Slot, name: string, ok: Outcomes): Step {
    if !ok(name, GetNamespace) then Step(slot, [GetNamespace])
    else if slot.space.None? then Step(slot.(current := None), [GetNamespace])
    else if !ok(name, RemoveNamespace) then Step(slot, [GetNamespace, RemoveNamespace])
    else Step(Slot(None, None), [GetNamespace, RemoveNamespace])
  }

  /** create_configmap, and remembering the session; the namespace must exist. */
  function Configuring(slot: Slot, name: string, session: Session, ok: Outcomes, env: Environment): Step {
    if ok(name, CreateConfigMap) && slot.space.Some?
    then Step(Slot(Some(session), Some(Namespace(Some(Render(session, env))))), [CreateConfigMap])
    else Step(slot, [CreateConfigMap])
  }

  /** create_namespace applies: an existing namespace stays as it is. */
  function Creating(slot: Slot, name: string, session: Session, ok: Outcomes, env: Environment): Step {
    if !ok(name, CreateNamespace) then Step(slot, [CreateNamespace])
    else
      var made := slot.(space := if slot.space.Some? then slot.space else Some(Namespace(None)));
      var next := Configuring(made, name, session, ok, env);
      Step(next.slot, [CreateNamespace] + next.calls)
  }

  /** update_sessionspace. */
  function Updated(slot: Slot, name: string, desired: Option<Session>, ok: Outcomes, env: Environment): Step {
    match (slot.current, desired)
    case (Some(_), None) => Deleting(slot, name, ok)
    case (None, Some(session)) => Creating(slot, name, session, ok, env)
    case (Some(current), Some(session)) =>
      if current != session then Configuring(slot, name, session, ok, env) else Step(slot, [])
    case (None, None) => Step(slot, [])
  }

  /** The calls that updating a name takes when none of them fails. */
  function Needed(slot: Slot, desired: Option<Session>): seq<Call> {
    if slot.current == desired then []
    else if desired.None? then if slot.space.Some? then [GetNamespace, RemoveNamespace] else [GetNamespace]
    else if slot.current.None? then [CreateNamespace, CreateConfigMap]
    else [CreateConfigMap]
  }

  /** The needed calls are made in order, up to the first that fails; and nothing else is. */
  lemma {:induction false} CallsExactly(slot: Slot, name: string, desired: Option<Session>, ok: Outcomes,
                                        env: Environment)
    ensures var calls, needed := Updated(slot, name, desired, ok, env).calls, Needed(slot, desired);
            && calls <= needed && (forall i :: 0 <= i < |calls| - 1 ==> ok(name, calls[i]))
            && (|calls| < |needed| ==> |calls| > 0 && !ok(name, calls[|calls| - 1]))
  {
  }

  // ---------------------------------------------------------------- all names

  datatype World = World(current: Sessions, cluster: Cluster)

  function Lookup<T>(m: map<string, T>, key: string): Option<T> {
    if key in m then Some(m[key]) else None
  }

  function SlotOf(w: World, name: string): Slot {
    Slot(Lookup(w.current, name), Lookup(w.cluster, name))
  }

  /** The calls made for one name. */
  function CallsOf(log: seq<(string, Call)>, name: string): seq<Call> {
    if log == [] then []
    else (if log[0].0 == name then [log[0].1] else []) + CallsOf(log[1..], name)
  }

  lemma {:induction false} CallsOfSplit(a: seq<(string, Call)>, b: seq<(string, Call)>, name: string)
    ensures CallsOf(a + b, name) == CallsOf(a, name) + CallsOf(b, name)
  {
    if a == [] {
      assert a + b == b;
    } else {
      var first := if a[0].0 == name then [a[0].1] else [];
      assert (a + b)[0] == a[0] && (a + b)[1..] == a[1..] + b;
      CallsOfSplit(a[1..], b, name);
      assert first + (CallsOf(a[1..], name) + CallsOf(b, name)) == (first + CallsOf(a[1..], name)) + CallsOf(b, name);
    }
  }

  function Tagged(name: string, calls: seq<Call>): seq<(string, Call)> {
    if calls == [] then [] else [(name, calls[0])] + Tagged(name, calls[1..])
  }

  lemma {:induction false} CallsOfTagged(name: string, calls: seq<Call>, other: string)
    ensures CallsOf(Tagged(name, calls), other) == if other == name then calls else []
  {
    if calls != [] { CallsOfTagged(name, calls[1..], other); }
  }

  /** A tick applies update_sessionspace to every name on its own: to what is known of it, with its calls. */
  ghost predicate Ticks(before: World, after: World, desired: Sessions, ok: Outcomes, env: Environment,
                        made: seq<(string, Call)>)
  {
    forall name :: TicksName(before, after, desired, ok, env, made, name)
  }

  ghost predicate TicksName(before: World, after: World, desired: Sessions, ok: Outcomes, env: Environment,
                            made: seq<(string, Call)>, name: string)
  {
    Step(SlotOf(after, name), CallsOf(made, name))
    == Updated(SlotOf(before, name), name, Lookup(desired, name), ok, env)
  }

  ghost predicate SameFor(names: set<string>, a: Sessions, b: Sessions) {
    forall name :: name in names ==> Lookup(a, name) == Lookup(b, name)
  }

  lemma TakenOut(names: set<string>, a: Sessions, b: Sessions, name: string)
    requires SameFor(names, a, b)
    ensures SameFor(names - {name}, a - {name}, b)
  {
  }

  lemma LogGoesOn(log: seq<(string, Call)>, made: seq<(string, Call)>, calls: seq<(string, Call)>)
    ensures (log + made) + calls == log + (made + calls)
    ensures log <= log + made && (log + made)[|log|..] == made
  {
  }

  class Reconciler {
    var current: Sessions
    var cluster: Cluster
    var log: seq<(string, Call)>

    constructor (cluster: Cluster)
      ensures current == map[] && this.cluster == cluster && log == []
    {
      this.current := map[];
      this.cluster := cluster;
      this.log := [];
    }

    function State(): World
      reads this
    {
      World(current, cluster)
    }

    method DeleteNamespace(name: string, ok: Outcomes) returns (success: bool)
      modifies this`cluster, this`log
      ensures success <==> ok(name, GetNamespace) && (name in old(cluster) ==> ok(name, RemoveNamespace))
      ensures cluster == if success then old(cluster) - {name} else old(cluster)
      ensures log == old(log) + Tagged(name, if ok(name, GetNamespace) && name in old(cluster)
                                             then [GetNamespace, RemoveNamespace] else [GetNamespace])
    {
      log := log + [(name, GetNamespace)];
      if !ok(name, GetNamespace) {
        return false;
      }
      if name !in cluster {
        return true;
      }
      log := log + [(name, RemoveNamespace)];
      assert Tagged(name, [GetNamespace, RemoveNamespace]) == [(name, GetNamespace)] + Tagged(name, [RemoveNamespace]);
      if !ok(name, RemoveNamespace) {
        return false;
      }
      cluster := cluster - {name};
      success := true;
    }

    method ApplyNamespace(name: string, ok: Outcomes) returns (success: bool)
      modifies this`cluster, this`log
      ensures success == ok(name, CreateNamespace) && log == old(log) + Tagged(name, [CreateNamespace])
      ensures cluster
           == if success && name !in old(cluster) then old(cluster)[name := Namespace(None)] else old(cluster)
    {
      log := log + [(name, CreateNamespace)];
      success := ok(name, CreateNamespace);
      if success && name !in cluster {
        cluster := cluster[name := Namespace(None)];
      }
    }

    method ApplyConfigMap(name: string, session: Session, ok: Outcomes, env: Environment) returns (success: bool)
      modifies this`cluster, this`log
      ensures success <==> ok(name, CreateConfigMap) && name in old(cluster)
      ensures log == old(log) + Tagged(name, [CreateConfigMap])
      ensures cluster == if success then old(cluster)[name := Namespace(Some(Render(session, env)))] else old(cluster)
    {
      log := log + [(name, CreateConfigMap)];
      success := ok(name, CreateConfigMap) && name in cluster;
      if success {
        cluster := cluster[name := Namespace(Some(Render(session, env)))];
      }
    }

    /** Updates one name; the calls made are logged, and no other name is touched. */
    method UpdateSessionspace(name: string, desired: Option<Session>, ok: Outcomes, env: Environment)
      modifies this
      ensures var step := Updated(SlotOf(old(State()), name), name, desired, ok, env);
              SlotOf(State(), name) == step.slot && log == old(log) + Tagged(name, step.calls)
      ensures forall other :: other != name ==> SlotOf(State(), other) == SlotOf(old(State()), other)
    {
      if name in current && desired.None? {
        var success := DeleteNamespace(name, ok);
        if success {
          current := current - {name};
        }
      } else if name !in current && desired.Some? {
        var made := ApplyNamespace(name, ok);
        if made {
          var success := ApplyConfigMap(name, desired.value, ok, env);
          if success {
            current := current[name := desired.value];
          }
        }
      } else if name in current && current[name] != desired.value {
        var success := ApplyConfigMap(name, desired.value, ok, env);
        if success {
          current := current[name := desired.value];
        }
      }
    }

    /** The body of its loop: one more name is updated, with its own calls. */
    method UpdateNext(name: string, session: Option<Session>, ok: Outcomes, env: Environment, ghost before: World,
                      ghost desired: Sessions, ghost made: seq<(string, Call)>, ghost waiting: set<string>)
      requires name in waiting && session == Lookup(desired, name)
      requires AllUpToHere(before, State(), desired, ok, env, made, waiting)
      modifies this
      ensures var calls := Tagged(name, Updated(SlotOf(before, name), name, session, ok, env).calls);
              log == old(log) + calls
              && AllUpToHere(before, State(), desired, ok, env, made + calls, waiting - {name})
    {
      ghost var here := State();
      assert UpToHere(before, here, desired, ok, env, made, name, name in waiting);
      UpdateSessionspace(name, session, ok, env);
      OneNameMore(before, here, State(), desired, ok, env, made, name, waiting);
    }

    /** One tick: every remembered and every desired name in turn, whatever happens to the others. */
    method UpdateSessionspaces(desired: Sessions, ok: Outcomes, env: Environment)
      modifies this
      ensures old(log) <= log && Ticks(old(State()), State(), desired, ok, env, log[|old(log)|..])
    {
      ghost var before := State();
      ghost var made: seq<(string, Call)> := [];
      var toUpdate := current.Keys + desired.Keys;
      var newSessions := desired;
      NothingToDo(before, desired, ok, env, toUpdate);
      while toUpdate != {}
        invariant log == old(log) + made && before == old(State())
        invariant SameFor(toUpdate, newSessions, desired)
        invariant AllUpToHere(before, State(), desired, ok, env, made, toUpdate)
        decreases toUpdate
      {
        var name :| name in toUpdate;
        var session := Lookup(newSessions, name);
        TakenOut(toUpdate, newSessions, desired, name);
        newSessions := newSessions - {name};
        UpdateNext(name, session, ok, env, before, desired, made, toUpdate);
        ghost var calls := Tagged(name, Updated(SlotOf(before, name), name, session, ok, env).calls);
        LogGoesOn(old(log), made, calls);
        made := made + calls;
        toUpdate := toUpdate - {name};
      }
      LogGoesOn(old(log), made, []);
      AllDone(before, State(), desired, ok, env, made, toUpdate);
    }
  }

  /** A name is as before while it waits, and updated afterwards, with exactly its own calls made. */
  ghost predicate UpToHere(before: World, now: World, desired: Sessions, ok: Outcomes, env: Environment,
                           made: seq<(string, Call)>, name: string, waits: bool)
  {
    if waits then SlotOf(now, name) == SlotOf(before, name) && CallsOf(made, name) == []
    else
      var step := Updated(SlotOf(before, name), name, Lookup(desired, name), ok, env);
      SlotOf(now, name) == step.slot && CallsOf(made, name) == step.calls
  }

  ghost predicate AllUpToHere(before: World, now: World, desired: Sessions, ok: Outcomes, env: Environment,
                              made: seq<(string, Call)>, waiting: set<string>)
  {
    forall name :: UpToHere(before, now, desired, ok, env, made, name, name in waiting)
  }

  lemma NothingToDo(before: World, desired: Sessions, ok: Outcomes, env: Environment, waiting: set<string>)
    requires waiting == before.current.Keys + desired.Keys
    ensures AllUpToHere(before, before, desired, ok, env, [], waiting)
  {
  }

  lemma {:induction false} OneNameMore(before: World, here: World, after: World, desired: Sessions, ok: Outcomes,
                                       env: Environment, made: seq<(string, Call)>, name: string, waiting: set<string>)
    requires name in waiting && AllUpToHere(before, here, desired, ok, env, made, waiting)
    requires SlotOf(after, name) == Updated(SlotOf(before, name), name, Lookup(desired, name), ok, env).slot
    requires forall other :: other != name ==> SlotOf(after, other) == SlotOf(here, other)
    ensures var calls := Updated(SlotOf(before, name), name, Lookup(desired, name), ok, env).calls;
            AllUpToHere(before, after, desired, ok, env, made + Tagged(name, calls), waiting - {name})
  {
    var calls := Updated(SlotOf(before, name), name, Lookup(desired, name), ok, env).calls;
    forall n
      ensures UpToHere(before, after, desired, ok, env, made + Tagged(name, calls), n, n in waiting - {name})
    {
      CallsOfSplit(made, Tagged(name, calls), n);
      CallsOfTagged(name, calls, n);
      assert UpToHere(before, here, desired, ok, env, made, n, n in waiting);
    }
  }

  lemma {:induction false} AllDone(before: World, after: World, desired: Sessions, ok: Outcomes, env: Environment,
                                   made: seq<(string, Call)>, waiting: set<string>)
    requires waiting == {} && AllUpToHere(before, after, desired, ok, env, made, waiting)
    ensures Ticks(before, after, desired, ok, env, made)
  {
    forall name
      ensures TicksName(before, after, desired, ok, env, made, name)
    {
      assert UpToHere(before, after, desired, ok, env, made, name, name in waiting);
    }
  }
}
