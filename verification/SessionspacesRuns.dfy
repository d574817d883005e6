/** Whole runs of the sessionspaces tick loop (sessionspaces/src/main.rs), with failures anywhere. */
module SessionspacesRuns {
  import opened Sessionspaces
  import opened Wrappers
  import SessionTables

  /** One tick: the sessions fetched, if that succeeded, and which calls succeed. */
  datatype Tick = Tick(fetched: Option<Sessions>, ok: Outcomes)

  function Next(w: World, desired: Sessions, ok: Outcomes, env: Environment, name: string): Slot {
    Updated(SlotOf(w, name), name, Lookup(desired, name), ok, env).slot
  }

  /** The world after update_sessionspaces, name by name. */
  function Ticked(w: World, desired: Sessions, ok: Outcomes, env: Environment): World {
    var names := w.current.Keys + w.cluster.Keys + desired.Keys;
    World(map name | name in names && Next(w, desired, ok, env, name).current.Some? ::
            Next(w, desired, ok, env, name).current.value,
          map name | name in names && Next(w, desired, ok, env, name).space.Some? ::
            Next(w, desired, ok, env, name).space.value)
  }

  lemma {:induction false} TickedSlot(w: World, desired: Sessions, ok: Outcomes, env: Environment, name: string)
    ensures SlotOf(Ticked(w, desired, ok, env), name) == Next(w, desired, ok, env, name)
  {
  }

  lemma {:induction false} SameSlotsSameWorld(a: World, b: World)
    requires forall name :: SlotOf(a, name) == SlotOf(b, name)
    ensures a == b
  {
    forall name
      ensures name in a.current <==> name in b.current
      ensures name in a.cluster <==> name in b.cluster
      ensures name in a.current ==> a.current[name] == b.current[name]
      ensures name in a.cluster ==> a.cluster[name] == b.cluster[name]
    {
      assert SlotOf(a, name) == SlotOf(b, name);
    }
  }

  /** A tick has one outcome. */
  lemma {:induction false} TicksTo(before: World, after: World, desired: Sessions, ok: Outcomes, env: Environment,
                                   made: seq<(string, Call)>)
    requires Ticks(before, after, desired, ok, env, made)
    ensures after == Ticked(before, desired, ok, env)
  {
    forall name
      ensures SlotOf(after, name) == SlotOf(Ticked(before, desired, ok, env), name)
    {
      assert TicksName(before, after, desired, ok, env, made, name);
      TickedSlot(before, desired, ok, env, name);
    }
    SameSlotsSameWorld(after, Ticked(before, desired, ok, env));
  }

  function Desired(fetched: Sessions, statics: Option<Sessions>): Sessions {
    if statics.Some? then SessionTables.Merged(statics.value, fetched) else fetched
  }

  /** A name's desired session is the fetched one, or else the static one, if there are static sessions. */
  lemma {:induction false} DesiredExactly(fetched: Sessions, statics: Option<Sessions>, name: string)
    ensures Lookup(Desired(fetched, statics), name) ==
            if name in fetched then Some(fetched[name])
            else if statics.Some? && name in statics.value then Some(statics.value[name])
            else None
  {
  }

  /** The world after a run; a tick whose fetch failed changes nothing. */
  function After(w: World, ticks: seq<Tick>, statics: Option<Sessions>, env: Environment): World {
    if ticks == [] then w
    else
      var last := ticks[|ticks| - 1];
      var before := After(w, ticks[..|ticks| - 1], statics, env);
      if last.fetched.None? then before else Ticked(before, Desired(last.fetched.value, statics), last.ok, env)
  }

  /** What one tick does, from world to world, and with which calls: if its fetch fails, nothing and none. */
  ghost predicate TickDone(before: World, after: World, tick: Tick, statics: Option<Sessions>, env: Environment,
                           made: seq<(string, Call)>)
  {
    if tick.fetched.None? then after == before && made == []
    else Ticks(before, after, Desired(tick.fetched.value, statics), tick.ok, env, made)
  }

  /** The log falls into the calls of one tick after the other, up to mark n. */
  ghost predicate LoggedUpTo(log: seq<(string, Call)>, marks: seq<nat>, n: nat, w: World, ticks: seq<Tick>,
                             statics: Option<Sessions>, env: Environment)
    requires n <= |ticks|
  {
    && |marks| == n + 1 && marks[0] == 0 && marks[n] == |log|
    && forall i :: 0 <= i < n ==> TickLogged(log, marks, i, w, ticks, statics, env)
  }

  ghost predicate TickLogged(log: seq<(string, Call)>, marks: seq<nat>, i: nat, w: World, ticks: seq<Tick>,
                             statics: Option<Sessions>, env: Environment)
    requires i < |ticks| && i + 1 < |marks|
  {
    && marks[i] <= marks[i + 1] <= |log|
    && TickDone(After(w, ticks[..i], statics, env), After(w, ticks[..i + 1], statics, env), ticks[i], statics, env,
                log[marks[i]..marks[i + 1]])
  }

  lemma {:induction false} StaysLogged(log: seq<(string, Call)>, longer: seq<(string, Call)>, marks: seq<nat>, i: nat,
                                       w: World, ticks: seq<Tick>, statics: Option<Sessions>, env: Environment)
    requires i < |ticks| && i + 1 < |marks| && log <= longer
    requires TickLogged(log, marks, i, w, ticks, statics, env)
    ensures TickLogged(longer, marks + [|longer|], i, w, ticks, statics, env)
  {
    var more := marks + [|longer|];
    assert more[i] == marks[i] && more[i + 1] == marks[i + 1];
    assert longer[more[i]..more[i + 1]] == log[marks[i]..marks[i + 1]];
  }

  lemma {:induction false} LogOneMore(log: seq<(string, Call)>, longer: seq<(string, Call)>, marks: seq<nat>, n: nat,
                                      w: World, ticks: seq<Tick>, statics: Option<Sessions>, env: Environment)
    requires n < |ticks| && LoggedUpTo(log, marks, n, w, ticks, statics, env) && log <= longer
    requires TickDone(After(w, ticks[..n], statics, env), After(w, ticks[..n + 1], statics, env), ticks[n], statics,
                      env, longer[|log|..])
    ensures LoggedUpTo(longer, marks + [|longer|], n + 1, w, ticks, statics, env)
  {
    var more := marks + [|longer|];
    forall i | 0 <= i < n + 1
      ensures TickLogged(longer, more, i, w, ticks, statics, env)
    {
      if i < n {
        assert TickLogged(log, marks, i, w, ticks, statics, env);
        StaysLogged(log, longer, marks, i, w, ticks, statics, env);
      } else {
        assert longer[more[i]..more[i + 1]] == longer[|log|..];
      }
    }
  }

  /** The loop of main, for as many ticks as there are. */
  method Loop(ticks: seq<Tick>, statics: Option<Sessions>, env: Environment, cluster: Cluster)
    returns (reconciler: Reconciler, ghost marks: seq<nat>)
    ensures reconciler.State() == After(World(map[], cluster), ticks, statics, env)
    ensures LoggedUpTo(reconciler.log, marks, |ticks|, World(map[], cluster), ticks, statics, env)
  {
    reconciler := new Reconciler(cluster);
    ghost var start := World(map[], cluster);
    marks := [0];
    for i := 0 to |ticks|
      invariant fresh(reconciler)
      invariant reconciler.State() == After(start, ticks[..i], statics, env)
      invariant LoggedUpTo(reconciler.log, marks, i, start, ticks, statics, env)
    {
      assert ticks[..i + 1][..i] == ticks[..i];
      ghost var before, log := reconciler.State(), reconciler.log;
      if ticks[i].fetched.Some? {
        var desired := ticks[i].fetched.value;
        if statics.Some? {
          desired := SessionTables.MergeInto(statics.value, desired);
        }
        reconciler.UpdateSessionspaces(desired, ticks[i].ok, env);
        TicksTo(before, reconciler.State(), desired, ticks[i].ok, env, reconciler.log[|log|..]);
      }
      LogOneMore(log, reconciler.log, marks, i, start, ticks, statics, env);
      marks := marks + [|reconciler.log|];
    }
    assert ticks[..|ticks|] == ticks;
  }

  /** Runs that end alike still do after one more tick. */
  lemma {:induction false} AfterOneMore(w: World, a: seq<Tick>, v: World, b: seq<Tick>, last: Tick,
                                        statics: Option<Sessions>, env: Environment)
    requires After(w, a, statics, env) == After(v, b, statics, env)
    ensures After(w, a + [last], statics, env) == After(v, b + [last], statics, env)
  {
    assert (a + [last])[..|a|] == a && (b + [last])[..|b|] == b;
  }

  lemma JoinedFront(front: seq<Tick>, rest: seq<Tick>)
    requires rest != []
    ensures front + rest == (front + rest[..|rest| - 1]) + [rest[|rest| - 1]]
    ensures rest == rest[..|rest| - 1] + [rest[|rest| - 1]]
  {
  }

  /** A run goes on from where its first part ends. */
  lemma {:induction false} AfterSplit(w: World, front: seq<Tick>, rest: seq<Tick>, statics: Option<Sessions>,
                                      env: Environment)
    ensures After(w, front + rest, statics, env) == After(After(w, front, statics, env), rest, statics, env)
    decreases |rest|
  {
    if rest == [] {
      assert front + rest == front;
    } else {
      var some, last := rest[..|rest| - 1], rest[|rest| - 1];
      AfterSplit(w, front, some, statics, env);
      AfterOneMore(w, front + some, After(w, front, statics, env), some, last, statics, env);
      JoinedFront(front, rest);
    }
  }

  lemma {:induction false} FailedFetchAtTheEnd(w: World, ticks: seq<Tick>, ok: Outcomes, statics: Option<Sessions>,
                                               env: Environment)
    ensures After(w, ticks + [Tick(None, ok)], statics, env) == After(w, ticks, statics, env)
  {
    assert (ticks + [Tick(None, ok)])[..|ticks|] == ticks;
  }

  /** A tick whose fetch fails, anywhere in a run, makes no difference to how the run ends. */
  lemma {:induction false} FailedFetchesDoNothing(w: World, front: seq<Tick>, ok: Outcomes, rest: seq<Tick>,
                                                  statics: Option<Sessions>, env: Environment)
    ensures After(w, front + [Tick(None, ok)] + rest, statics, env) == After(w, front + rest, statics, env)
  {
    FailedFetchAtTheEnd(w, front, ok, statics, env);
    AfterSplit(w, front + [Tick(None, ok)], rest, statics, env);
    AfterSplit(w, front, rest, statics, env);
  }

  // ---------------------------------------------------------------- what is remembered is there

  /** A remembered session has its namespace, and the ConfigMap there is the rendering of that session. */
  predicate RememberedSlot(slot: Slot, env: Environment) {
    slot.current.Some? ==> slot.space == Some(Namespace(Some(Render(slot.current.value, env))))
  }

  ghost predicate Remembered(w: World, env: Environment) {
    forall name :: RememberedSlot(SlotOf(w, name), env)
  }

  lemma {:induction false} StepRemembers(slot: Slot, name: string, desired: Option<Session>, ok: Outcomes,
                                         env: Environment)
    requires RememberedSlot(slot, env)
    ensures RememberedSlot(Updated(slot, name, desired, ok, env).slot, env)
  {
  }

  lemma {:induction false} TickRemembers(w: World, desired: Sessions, ok: Outcomes, env: Environment)
    requires Remembered(w, env)
    ensures Remembered(Ticked(w, desired, ok, env), env)
  {
    forall name
      ensures RememberedSlot(SlotOf(Ticked(w, desired, ok, env), name), env)
    {
      TickedSlot(w, desired, ok, env, name);
      assert RememberedSlot(SlotOf(w, name), env);
      StepRemembers(SlotOf(w, name), name, Lookup(desired, name), ok, env);
    }
  }

  /** On every run, whatever fails, whatever is remembered is in the cluster as remembered. */
  lemma {:induction false} AlwaysRemembered(cluster: Cluster, ticks: seq<Tick>, statics: Option<Sessions>,
                                            env: Environment)
    ensures Remembered(After(World(map[], cluster), ticks, statics, env), env)
  {
    if ticks != [] {
      AlwaysRemembered(cluster, ticks[..|ticks| - 1], statics, env);
      var last := ticks[|ticks| - 1];
      var before := After(World(map[], cluster), ticks[..|ticks| - 1], statics, env);
      if last.fetched.Some? {
        TickRemembers(before, Desired(last.fetched.value, statics), last.ok, env);
      }
    }
  }

  // ---------------------------------------------------------------- a tick, name by name

  /** The name is remembered as desired, or neither remembered nor desired. */
  predicate Settled(w: World, desired: Sessions, name: string) {
    Lookup(w.current, name) == Lookup(desired, name)
  }

  /** The calls a tick makes for a name. */
  function CallsFor(w: World, desired: Sessions, ok: Outcomes, env: Environment, name: string): seq<Call> {
    Updated(SlotOf(w, name), name, Lookup(desired, name), ok, env).calls
  }

  predicate AllSucceed(name: string, calls: seq<Call>, ok: Outcomes) {
    forall call :: call in calls ==> ok(name, call)
  }

  /** A tick settles a name exactly when it was settled, or all the calls made for it succeed. */
  lemma {:induction false} SettlesExactly(w: World, desired: Sessions, ok: Outcomes, env: Environment, name: string)
    requires Remembered(w, env)
    ensures Settled(Ticked(w, desired, ok, env), desired, name)
            <==> Settled(w, desired, name) || AllSucceed(name, CallsFor(w, desired, ok, env, name), ok)
    ensures Settled(w, desired, name)
            <==> CallsFor(w, desired, ok, env, name) == []
    ensures Settled(w, desired, name) ==> SlotOf(Ticked(w, desired, ok, env), name) == SlotOf(w, name)
  {
    TickedSlot(w, desired, ok, env, name);
    var slot := SlotOf(w, name);
    assert RememberedSlot(slot, env);
    SettlesSlot(slot, name, Lookup(desired, name), ok, env);
  }

  lemma {:induction false} SettlesSlot(slot: Slot, name: string, desired: Option<Session>, ok: Outcomes,
                                       env: Environment)
    requires RememberedSlot(slot, env)
    ensures var step := Updated(slot, name, desired, ok, env);
            && (step.slot.current == desired <==> slot.current == desired || AllSucceed(name, step.calls, ok))
            && (slot.current == desired <==> step.calls == [])
            && (slot.current == desired ==> step.slot == slot)
  {
    var calls := Updated(slot, name, desired, ok, env).calls;
    assert forall call :: call in calls <==> exists i :: 0 <= i < |calls| && calls[i] == call;
    assert |calls| >= 1 ==> calls[0] in calls;
    assert |calls| >= 2 ==> calls[1] in calls;
  }

  // ---------------------------------------------------------------- reaching the desired sessions

  ghost predicate NothingFails(ok: Outcomes) {
    forall name, call :: ok(name, call)
  }

  /** A failure-free tick leaves exactly the desired sessions remembered, each rendered in its namespace;
      beside them exactly the namespaces remain that were not remembered. */
  lemma {:induction false} FailureFreeTick(w: World, desired: Sessions, ok: Outcomes, env: Environment)
    requires Remembered(w, env) && NothingFails(ok)
    ensures var after := Ticked(w, desired, ok, env);
            && after.current == desired && Remembered(after, env)
            && after.cluster.Keys == (w.cluster.Keys - w.current.Keys) + desired.Keys
            && forall name :: name in w.cluster && name !in w.current && name !in desired
                              ==> after.cluster[name] == w.cluster[name]
  {
    var after := Ticked(w, desired, ok, env);
    TickRemembers(w, desired, ok, env);
    forall name
      ensures FailureFreeName(w, after, desired, name)
    {
      assert RememberedSlot(SlotOf(w, name), env);
      TickedSlot(w, desired, ok, env, name);
      FailureFreeStep(SlotOf(w, name), name, Lookup(desired, name), ok, env);
    }
    AllNamesFailureFree(w, after, desired);
  }

  /** What a failure-free tick does for one name. */
  predicate FailureFreeName(w: World, after: World, desired: Sessions, name: string) {
    && Lookup(after.current, name) == Lookup(desired, name)
    && (name in after.cluster <==> (name in w.cluster && name !in w.current) || name in desired)
    && (name !in w.current && name !in desired ==> Lookup(after.cluster, name) == Lookup(w.cluster, name))
  }

  lemma {:induction false} AllNamesFailureFree(w: World, after: World, desired: Sessions)
    requires forall name :: FailureFreeName(w, after, desired, name)
    ensures after.current == desired && after.cluster.Keys == (w.cluster.Keys - w.current.Keys) + desired.Keys
    ensures forall name :: name in w.cluster && name !in w.current && name !in desired
                           ==> after.cluster[name] == w.cluster[name]
  {
    assert SameLookups(after.current, desired) by {
      forall name
        ensures Lookup(after.current, name) == Lookup(desired, name)
      {
        assert FailureFreeName(w, after, desired, name);
      }
    }
    SameLookupsSameMap(after.current, desired);
    assert forall name :: name in after.cluster ==> FailureFreeName(w, after, desired, name);
    assert forall name :: name in w.cluster ==> FailureFreeName(w, after, desired, name);
    assert forall name :: name in desired ==> FailureFreeName(w, after, desired, name);
  }

  lemma {:induction false} FailureFreeStep(slot: Slot, name: string, desired: Option<Session>, ok: Outcomes,
                                           env: Environment)
    requires RememberedSlot(slot, env) && NothingFails(ok)
    ensures var after := Updated(slot, name, desired, ok, env).slot;
            && after.current == desired
            && (after.space.Some? <==> (slot.space.Some? && slot.current.None?) || desired.Some?)
            && (slot.current.None? && desired.None? ==> after.space == slot.space)
  {
    assert ok(name, GetNamespace) && ok(name, RemoveNamespace);
    assert ok(name, CreateNamespace) && ok(name, CreateConfigMap);
  }

  ghost predicate SameLookups(a: Sessions, b: Sessions) {
    forall name :: Lookup(a, name) == Lookup(b, name)
  }

  lemma SameLookupsSameMap(a: Sessions, b: Sessions)
    requires SameLookups(a, b)
    ensures a == b
  {
    forall name
      ensures name in a <==> name in b
      ensures name in a ==> a[name] == b[name]
    {
      assert Lookup(a, name) == Lookup(b, name);
    }
  }

  /** Once the desired sessions are remembered, a tick makes no call and changes nothing, whatever would fail. */
  lemma {:induction false} NothingLeftToDo(w: World, ok: Outcomes, env: Environment)
    requires Remembered(w, env)
    ensures Ticked(w, w.current, ok, env) == w
    ensures forall name :: CallsFor(w, w.current, ok, env, name) == []
  {
    forall name
      ensures SlotOf(Ticked(w, w.current, ok, env), name) == SlotOf(w, name)
      ensures CallsFor(w, w.current, ok, env, name) == []
    {
      TickedSlot(w, w.current, ok, env, name);
      assert RememberedSlot(SlotOf(w, name), env);
    }
    SameSlotsSameWorld(Ticked(w, w.current, ok, env), w);
  }

  /** After a failure-free tick the cluster holds the desired namespaces and no others exactly when every namespace
      before it was remembered or is desired. */
  lemma {:induction false} NoOrphansExactlyWhenKnown(w: World, desired: Sessions, ok: Outcomes, env: Environment)
    requires Remembered(w, env) && NothingFails(ok)
    ensures Ticked(w, desired, ok, env).cluster.Keys == desired.Keys
            <==> w.cluster.Keys <= w.current.Keys + desired.Keys
  {
    FailureFreeTick(w, desired, ok, env);
    var after := Ticked(w, desired, ok, env);
    if after.cluster.Keys == desired.Keys {
      forall name | name in w.cluster
        ensures name in w.current.Keys + desired.Keys
      {
        assert name in w.current || name in after.cluster.Keys;
      }
    }
  }

  // ---------------------------------------------------------------- convergence under failures

  /** Every tick of the run that fetches anything fetches these sessions. */
  predicate AlwaysDesires(ticks: seq<Tick>, desired: Sessions, statics: Option<Sessions>) {
    forall i | 0 <= i < |ticks| && ticks[i].fetched.Some? :: Desired(ticks[i].fetched.value, statics) == desired
  }

  /** That tick of the run fetches the sessions, and every call that is made for the name succeeds. */
  ghost predicate GoesThrough(w: World, ticks: seq<Tick>, i: int, desired: Sessions, statics: Option<Sessions>,
                              env: Environment, name: string)
    requires 0 <= i < |ticks|
  {
    && ticks[i].fetched.Some?
    && AllSucceed(name, CallsFor(After(w, ticks[..i], statics, env), desired, ticks[i].ok, env, name), ticks[i].ok)
  }

  ghost predicate OnceThrough(w: World, ticks: seq<Tick>, desired: Sessions, statics: Option<Sessions>,
                              env: Environment, name: string)
  {
    exists i :: 0 <= i < |ticks| && GoesThrough(w, ticks, i, desired, statics, env, name)
  }

  lemma {:induction false} GoesThroughInFront(w: World, ticks: seq<Tick>, i: int, desired: Sessions,
                                              statics: Option<Sessions>, env: Environment, name: string)
    requires 0 <= i < |ticks| - 1
    ensures GoesThrough(w, ticks[..|ticks| - 1], i, desired, statics, env, name)
            <==> GoesThrough(w, ticks, i, desired, statics, env, name)
  {
    assert ticks[..|ticks| - 1][..i] == ticks[..i];
  }

  lemma {:induction false} OnceInFrontOrLast(w: World, ticks: seq<Tick>, desired: Sessions, statics: Option<Sessions>,
                                             env: Environment, name: string)
    requires ticks != [] && OnceThrough(w, ticks, desired, statics, env, name)
    ensures OnceThrough(w, ticks[..|ticks| - 1], desired, statics, env, name)
            || GoesThrough(w, ticks, |ticks| - 1, desired, statics, env, name)
  {
    var i :| 0 <= i < |ticks| && GoesThrough(w, ticks, i, desired, statics, env, name);
    if i < |ticks| - 1 { GoesThroughInFront(w, ticks, i, desired, statics, env, name); }
  }

  lemma {:induction false} OnceInFront(w: World, ticks: seq<Tick>, desired: Sessions, statics: Option<Sessions>,
                                       env: Environment, name: string)
    requires ticks != [] && OnceThrough(w, ticks[..|ticks| - 1], desired, statics, env, name)
    ensures OnceThrough(w, ticks, desired, statics, env, name)
  {
    var front := ticks[..|ticks| - 1];
    var i :| 0 <= i < |front| && GoesThrough(w, front, i, desired, statics, env, name);
    GoesThroughInFront(w, ticks, i, desired, statics, env, name);
  }

  lemma {:induction false} OnceThroughSplits(w: World, ticks: seq<Tick>, desired: Sessions, statics: Option<Sessions>,
                                             env: Environment, name: string)
    requires ticks != []
    ensures OnceThrough(w, ticks, desired, statics, env, name)
            <==> OnceThrough(w, ticks[..|ticks| - 1], desired, statics, env, name)
                 || GoesThrough(w, ticks, |ticks| - 1, desired, statics, env, name)
  {
    if OnceThrough(w, ticks, desired, statics, env, name) {
      OnceInFrontOrLast(w, ticks, desired, statics, env, name);
    }
    if OnceThrough(w, ticks[..|ticks| - 1], desired, statics, env, name) {
      OnceInFront(w, ticks, desired, statics, env, name);
    }
  }

  lemma {:induction false} RememberedAfter(w: World, ticks: seq<Tick>, desired: Sessions, statics: Option<Sessions>,
                                           env: Environment)
    requires Remembered(w, env) && AlwaysDesires(ticks, desired, statics)
    ensures Remembered(After(w, ticks, statics, env), env)
  {
    if ticks != [] {
      var front, last := ticks[..|ticks| - 1], ticks[|ticks| - 1];
      RememberedAfter(w, front, desired, statics, env);
      if last.fetched.Some? { TickRemembers(After(w, front, statics, env), desired, last.ok, env); }
    }
  }

  /** While the same sessions are desired, whatever fetches fail in between, a name is settled at the end exactly if it
      was settled before, or in some tick that fetched all the calls made for it succeeded. */
  lemma {:induction false} SettledAtTheEnd(w: World, ticks: seq<Tick>, desired: Sessions, statics: Option<Sessions>,
                                           env: Environment, name: string)
    requires Remembered(w, env) && AlwaysDesires(ticks, desired, statics)
    ensures Settled(After(w, ticks, statics, env), desired, name)
            <==> Settled(w, desired, name) || OnceThrough(w, ticks, desired, statics, env, name)
  {
    if ticks != [] {
      var front, last := ticks[..|ticks| - 1], ticks[|ticks| - 1];
      SettledAtTheEnd(w, front, desired, statics, env, name);
      OnceThroughSplits(w, ticks, desired, statics, env, name);
      RememberedAfter(w, front, desired, statics, env);
      if last.fetched.Some? { SettlesExactly(After(w, front, statics, env), desired, last.ok, env, name); }
    }
  }

  /** While the same sessions are desired, a run ends with exactly these sessions if and only if each name that was
      remembered or is desired was settled before, or once had all its calls succeed; however the failures of
      different names, and failed fetches, fall together. */
  lemma {:induction false} ConvergesExactly(w: World, ticks: seq<Tick>, desired: Sessions, statics: Option<Sessions>,
                                            env: Environment)
    requires Remembered(w, env) && AlwaysDesires(ticks, desired, statics)
    ensures After(w, ticks, statics, env).current == desired
            <==> forall name :: name in w.current.Keys + desired.Keys
                                ==> Settled(w, desired, name) || OnceThrough(w, ticks, desired, statics, env, name)
  {
    var after := After(w, ticks, statics, env);
    forall name
      ensures Lookup(after.current, name) == Lookup(desired, name)
              <==> Settled(w, desired, name) || OnceThrough(w, ticks, desired, statics, env, name)
      ensures name !in w.current.Keys + desired.Keys ==> Settled(w, desired, name)
    {
      SettledAtTheEnd(w, ticks, desired, statics, env, name);
    }
    if forall name :: Lookup(after.current, name) == Lookup(desired, name) {
      assert SameLookups(after.current, desired);
      SameLookupsSameMap(after.current, desired);
    }
  }

  /** In some tick of the run that fetches, every call for the name would succeed, whichever are made. */
  ghost predicate HasItsChance(ticks: seq<Tick>, name: string) {
    exists i :: 0 <= i < |ticks| && ticks[i].fetched.Some? && WouldSucceed(ticks[i].ok, name)
  }

  predicate WouldSucceed(ok: Outcomes, name: string) {
    ok(name, GetNamespace) && ok(name, RemoveNamespace) && ok(name, CreateNamespace) && ok(name, CreateConfigMap)
  }

  lemma {:induction false} ChancesAreTaken(w: World, ticks: seq<Tick>, desired: Sessions, statics: Option<Sessions>,
                                           env: Environment, name: string)
    requires HasItsChance(ticks, name)
    ensures OnceThrough(w, ticks, desired, statics, env, name)
  {
    var i :| 0 <= i < |ticks| && ticks[i].fetched.Some? && WouldSucceed(ticks[i].ok, name);
    forall call: Call
      ensures ticks[i].ok(name, call)
    {
      match call
      case GetNamespace =>
      case RemoveNamespace =>
      case CreateNamespace =>
      case CreateConfigMap =>
    }
    assert GoesThrough(w, ticks, i, desired, statics, env, name);
  }

  /** So a run in which each name that was remembered or is desired once had its chance ends with the desired
      sessions. */
  lemma {:induction false} ConvergesNameByName(w: World, ticks: seq<Tick>, desired: Sessions, statics: Option<Sessions>,
                                               env: Environment)
    requires Remembered(w, env) && AlwaysDesires(ticks, desired, statics)
    requires forall name :: name in w.current.Keys + desired.Keys ==> HasItsChance(ticks, name)
    ensures After(w, ticks, statics, env).current == desired
  {
    forall name | name in w.current.Keys + desired.Keys
      ensures OnceThrough(w, ticks, desired, statics, env, name)
    {
      ChancesAreTaken(w, ticks, desired, statics, env, name);
    }
    ConvergesExactly(w, ticks, desired, statics, env);
  }

  // ---------------------------------------------------------------- orphans

  /** A namespace that is there without being remembered. */
  predicate Orphan(w: World, name: string) {
    name in w.cluster && name !in w.current
  }

  /** An orphan that is never desired again is never removed. */
  lemma {:induction false} OrphansStay(w: World, ticks: seq<Tick>, statics: Option<Sessions>, env: Environment,
                                       name: string)
    requires Orphan(w, name)
    requires forall i | 0 <= i < |ticks| && ticks[i].fetched.Some? ::
               name !in Desired(ticks[i].fetched.value, statics)
    ensures Orphan(After(w, ticks, statics, env), name)
    ensures After(w, ticks, statics, env).cluster[name] == w.cluster[name]
  {
    if ticks != [] {
      var front, last := ticks[..|ticks| - 1], ticks[|ticks| - 1];
      assert forall i :: 0 <= i < |front| ==> front[i] == ticks[i];
      OrphansStay(w, front, statics, env, name);
      if last.fetched.Some? {
        var before := After(w, front, statics, env);
        TickedSlot(before, Desired(last.fetched.value, statics), last.ok, env, name);
        assert SlotOf(before, name).current.None? && SlotOf(before, name).space == Some(w.cluster[name]);
      }
    }
  }

  /** An orphan comes about in one tick: the namespace is created and its ConfigMap is not. */
  lemma {:induction false} OrphanAppearsExactly(w: World, desired: Sessions, ok: Outcomes, env: Environment,
                                                name: string)
    requires Remembered(w, env) && !Orphan(w, name)
    ensures Orphan(Ticked(w, desired, ok, env), name)
            <==> name !in w.cluster && name in desired && ok(name, CreateNamespace) && !ok(name, CreateConfigMap)
  {
    TickedSlot(w, desired, ok, env, name);
    assert RememberedSlot(SlotOf(w, name), env);
    OrphanStep(SlotOf(w, name), name, Lookup(desired, name), ok, env);
  }

  lemma {:induction false} OrphanStep(slot: Slot, name: string, desired: Option<Session>, ok: Outcomes,
                                      env: Environment)
    requires RememberedSlot(slot, env) && !(slot.space.Some? && slot.current.None?)
    ensures var after := Updated(slot, name, desired, ok, env).slot;
            after.space.Some? && after.current.None?
            <==> slot.space.None? && desired.Some? && ok(name, CreateNamespace) && !ok(name, CreateConfigMap)
  {
  }

  /** So a namespace can outlive its session for good: here its ConfigMap fails once, then the session ends. */
  lemma {:induction false} ANamespaceIsLeft(name: string, session: Session, ticks: seq<Tick>, env: Environment)
    requires forall i :: 0 <= i < |ticks| && ticks[i].fetched.Some? ==> name !in ticks[i].fetched.value
    ensures var first := Ticked(World(map[], map[]), map[name := session], (n, call) => call != CreateConfigMap, env);
            Orphan(After(first, ticks, None, env), name)
  {
    var start, ok := World(map[], map[]), (n: string, call: Call) => call != CreateConfigMap;
    assert forall n :: RememberedSlot(SlotOf(start, n), env);
    OrphanAppearsExactly(start, map[name := session], ok, env, name);
    OrphansStay(Ticked(start, map[name := session], ok, env), ticks, None, env, name);
  }
}
