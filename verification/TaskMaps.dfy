/**
 The tasks of a workflow, in the service (workflows.rs, TaskMap) and in the browser (buildTaskTree).

 The service turns each node's children into each task's parents; the browser turns parents back into
 children.
 */
module TaskMaps {
  import opened Wrappers

  /** What Argo reports of a node. */
  datatype NodeStatus = NodeStatus(name: string, stepType: string, children: seq<string>)

  /** What the service sends: the node under its id, with its parents. */
  datatype Task = Task(id: string, node: NodeStatus, depends: seq<string>)

  function Known<T>(m: map<string, seq<T>>, key: string): seq<T> {
    if key in m then m[key] else []
  }

  // ---------------------------------------------------------------- children to parents

  /** How often parent occurs among the recorded parents of child. */
  function Times(parents: map<string, seq<string>>, child: string, parent: string): nat {
    multiset(Known(parents, child))[parent]
  }

  lemma PushCounts(parents: map<string, seq<string>>, child: string, parent: string)
    ensures var pushed := parents[child := Known(parents, child) + [parent]];
            forall c, p :: Times(pushed, c, p) == Times(parents, c, p) + if c == child && p == parent then 1 else 0
  {
  }

  ghost predicate Recorded(nodes: map<string, NodeStatus>, parents: map<string, seq<string>>, child: string,
                           parent: string)
  {
    Times(parents, child, parent) == if parent in nodes then multiset(nodes[parent].children)[child] else 0
  }

  /** The inner loop: the node is recorded once more for each time it lists a child. */
  method PushAll(before: map<string, seq<string>>, children: seq<string>, nodeName: string)
    returns (parents: map<string, seq<string>>)
    ensures forall c, p :: Times(parents, c, p) ==
              Times(before, c, p) + if p == nodeName then multiset(children)[c] else 0
  {
    parents := before;
    for i := 0 to |children|
      invariant forall c, p :: Times(parents, c, p) ==
                  Times(before, c, p) + if p == nodeName then multiset(children[..i])[c] else 0
    {
      PushCounts(parents, children[i], nodeName);
      assert children[..i + 1] == children[..i] + [children[i]];
      parents := parents[children[i] := Known(parents, children[i]) + [nodeName]];
    }
    assert children[..|children|] == children;
  }

  /** Every node is recorded under each of its children, as often as it lists that child. */
  method GenerateRelationshipMap(nodes: map<string, NodeStatus>) returns (parents: map<string, seq<string>>)
    ensures forall child, parent :: Recorded(nodes, parents, child, parent)
  {
    parents := map[];
    var pending := nodes.Keys;
    while pending != {}
      invariant pending <= nodes.Keys
      invariant forall c, p :: Times(parents, c, p) ==
                  if p in nodes && p !in pending then multiset(nodes[p].children)[c] else 0
      decreases pending
    {
      var nodeName :| nodeName in pending;
      parents := PushAll(parents, nodes[nodeName].children, nodeName);
      pending := pending - {nodeName};
    }
    AllRecorded(nodes, parents);
  }

  lemma AllRecorded(nodes: map<string, NodeStatus>, parents: map<string, seq<string>>)
    requires forall c, p :: Times(parents, c, p) == if p in nodes then multiset(nodes[p].children)[c] else 0
    ensures forall child, parent :: Recorded(nodes, parents, child, parent)
  {
  }

  ghost predicate DistinctIds(tasks: seq<Task>) {
    forall i, j :: 0 <= i < j < |tasks| ==> tasks[i].id != tasks[j].id
  }

  ghost predicate HasId(tasks: seq<Task>, id: string) {
    exists i :: 0 <= i < |tasks| && tasks[i].id == id
  }

  /** One task a node, whose parents are the nodes that list it, as often as they do. */
  ghost predicate TasksOf(nodes: map<string, NodeStatus>, tasks: seq<Task>) {
    && DistinctIds(tasks)
    && (forall id :: id in nodes <==> HasId(tasks, id))
    && (forall i :: 0 <= i < |tasks| ==> Describes(nodes, tasks[i]))
  }

  ghost predicate Describes(nodes: map<string, NodeStatus>, task: Task) {
    && task.id in nodes && task.node == nodes[task.id]
    && forall p :: multiset(task.depends)[p] == if p in nodes then multiset(nodes[p].children)[task.id] else 0
  }

  /** The tasks made so far, and the nodes still to come. */
  ghost predicate MadeBut(nodes: map<string, NodeStatus>, tasks: seq<Task>, pending: set<string>) {
    && DistinctIds(tasks)
    && (forall id :: (id in nodes && id !in pending) <==> HasId(tasks, id))
    && (forall i :: 0 <= i < |tasks| ==> Describes(nodes, tasks[i]))
  }

  lemma OneMoreMade(nodes: map<string, NodeStatus>, tasks: seq<Task>, pending: set<string>, task: Task)
    requires MadeBut(nodes, tasks, pending) && pending <= nodes.Keys && task.id in pending && Describes(nodes, task)
    ensures MadeBut(nodes, tasks + [task], pending - {task.id})
  {
    HasIdGrows(tasks, task);
    forall i | 0 <= i < |tasks|
      ensures tasks[i].id != task.id
    {
      assert HasId(tasks, tasks[i].id);
    }
  }

  lemma RecordedDescribe(nodes: map<string, NodeStatus>, parents: map<string, seq<string>>, task: Task)
    requires forall child, parent :: Recorded(nodes, parents, child, parent)
    requires task.id in nodes && task.node == nodes[task.id] && task.depends == Known(parents, task.id)
    ensures Describes(nodes, task)
  {
    assert forall p :: Recorded(nodes, parents, task.id, p) ==> multiset(task.depends)[p] == Times(parents, task.id, p);
  }

  method IntoTasks(nodes: map<string, NodeStatus>) returns (tasks: seq<Task>)
    ensures TasksOf(nodes, tasks)
  {
    var relationshipMap := GenerateRelationshipMap(nodes);
    ghost var all := relationshipMap;
    tasks := [];
    var pending := nodes.Keys;
    while pending != {}
      invariant pending <= nodes.Keys && MadeBut(nodes, tasks, pending)
      invariant forall id :: id in pending ==> Known(relationshipMap, id) == Known(all, id)
      decreases pending
    {
      var nodeName :| nodeName in pending;
      var depends := Known(relationshipMap, nodeName);
      relationshipMap := relationshipMap - {nodeName};
      var task := Task(nodeName, nodes[nodeName], depends);
      RecordedDescribe(nodes, all, task);
      OneMoreMade(nodes, tasks, pending, task);
      tasks := tasks + [task];
      pending := pending - {nodeName};
    }
  }

  lemma HasIdGrows(tasks: seq<Task>, task: Task)
    ensures forall id :: HasId(tasks + [task], id) <==> HasId(tasks, id) || id == task.id
  {
    var more := tasks + [task];
    assert more[|tasks|] == task;
    forall id
      ensures HasId(more, id) <==> HasId(tasks, id) || id == task.id
    {
      if HasId(tasks, id) {
        var i :| 0 <= i < |tasks| && tasks[i].id == id;
        assert more[i].id == id;
      }
    }
  }

  // ---------------------------------------------------------------- parents to children

  /** One entry for each time the parent occurs among the dependencies. */
  function Entries(id: string, depends: seq<string>, parent: string): seq<string> {
    if depends == [] then []
    else
      Entries(id, depends[..|depends| - 1], parent) + if depends[|depends| - 1] == parent then [id] else []
  }

  /** The children a parent gets, in the order of the tasks. */
  function ChildrenOf(tasks: seq<Task>, parent: string): seq<string> {
    if tasks == [] then []
    else
      var last := tasks[|tasks| - 1];
      ChildrenOf(tasks[..|tasks| - 1], parent) + Entries(last.id, last.depends, parent)
  }

  function RootsOf(tasks: seq<Task>): seq<string> {
    if tasks == [] then []
    else
      var last := tasks[|tasks| - 1];
      RootsOf(tasks[..|tasks| - 1]) + if last.depends == [] then [last.id] else []
  }

  /** The children of every known task, and the tasks without parents. */
  datatype Tree = Tree(children: map<string, seq<string>>, roots: seq<string>)

  /** The browser's error when a task names a parent that is not there. */
  datatype TreeError = UnknownParent(id: string)

  ghost predicate DependsKnown(tasks: seq<Task>, depends: seq<string>) {
    forall parent :: parent in depends ==> HasId(tasks, parent)
  }

  ghost predicate ParentsKnown(tasks: seq<Task>) {
    forall i :: 0 <= i < |tasks| ==> DependsKnown(tasks, tasks[i].depends)
  }

  ghost predicate SameIds(m: map<string, seq<string>>, tasks: seq<Task>) {
    forall id :: id in m <==> HasId(tasks, id)
  }

  /** Every known task has the children that the first i tasks, and k parents of the next, give it. */
  ghost predicate LinkedUpTo(m: map<string, seq<string>>, tasks: seq<Task>, i: int, k: int)
    requires 0 <= i < |tasks| && 0 <= k <= |tasks[i].depends|
  {
    forall id :: id in m ==>
                   m[id] == ChildrenOf(tasks[..i], id) + Entries(tasks[i].id, tasks[i].depends[..k], id)
  }

  ghost predicate Linked(m: map<string, seq<string>>, tasks: seq<Task>) {
    forall id :: id in m ==> m[id] == ChildrenOf(tasks, id)
  }

  lemma LinkParent(m: map<string, seq<string>>, tasks: seq<Task>, i: int, k: int)
    requires 0 <= i < |tasks| && 0 <= k < |tasks[i].depends| && LinkedUpTo(m, tasks, i, k)
    requires tasks[i].depends[k] in m
    ensures LinkedUpTo(m[tasks[i].depends[k] := m[tasks[i].depends[k]] + [tasks[i].id]], tasks, i, k + 1)
  {
    assert tasks[i].depends[..k + 1][..k] == tasks[i].depends[..k];
  }

  lemma LinkTask(m: map<string, seq<string>>, tasks: seq<Task>, i: int)
    requires 0 <= i < |tasks|
    ensures Linked(m, tasks[..i]) ==> LinkedUpTo(m, tasks, i, 0)
    ensures LinkedUpTo(m, tasks, i, |tasks[i].depends|) ==> Linked(m, tasks[..i + 1])
  {
    assert tasks[..i + 1][..i] == tasks[..i];
    assert tasks[i].depends[..|tasks[i].depends|] == tasks[i].depends;
  }

  method EmptyTaskMap(tasks: seq<Task>) returns (taskMap: map<string, seq<string>>)
    ensures SameIds(taskMap, tasks) && Linked(taskMap, [])
  {
    taskMap := map[];
    for i := 0 to |tasks|
      invariant SameIds(taskMap, tasks[..i])
      invariant forall id :: id in taskMap ==> taskMap[id] == []
    {
      assert tasks[..i + 1] == tasks[..i] + [tasks[i]];
      HasIdGrows(tasks[..i], tasks[i]);
      taskMap := taskMap[tasks[i].id := []];
    }
    assert tasks[..|tasks|] == tasks;
  }

  /** Adds the task to the children of each of its parents. */
  method LinkToParents(taskMap: map<string, seq<string>>, tasks: seq<Task>, i: nat)
    returns (result: Result<map<string, seq<string>>, TreeError>)
    requires i < |tasks| && SameIds(taskMap, tasks) && LinkedUpTo(taskMap, tasks, i, 0)
    ensures result.Ok? <==> DependsKnown(tasks, tasks[i].depends)
    ensures result.Ok? ==> SameIds(result.value, tasks) && LinkedUpTo(result.value, tasks, i, |tasks[i].depends|)
    ensures result.Err? ==> !HasId(tasks, result.error.id) && result.error.id in tasks[i].depends
  {
    var linked, depends := taskMap, tasks[i].depends;
    for k := 0 to |depends|
      invariant SameIds(linked, tasks) && LinkedUpTo(linked, tasks, i, k)
      invariant forall j :: 0 <= j < k ==> HasId(tasks, depends[j])
    {
      var depId := depends[k];
      if depId !in linked {
        return Err(UnknownParent(depId));
      }
      LinkParent(linked, tasks, i, k);
      linked := linked[depId := linked[depId] + [tasks[i].id]];
    }
    result := Ok(linked);
  }

  lemma RootsOneMore(tasks: seq<Task>, i: nat)
    requires i < |tasks|
    ensures RootsOf(tasks[..i + 1]) == RootsOf(tasks[..i]) + if tasks[i].depends == [] then [tasks[i].id] else []
  {
    assert tasks[..i + 1][..i] == tasks[..i];
  }

  /** What the second loop does for one task: it is linked to its parents, if it has any. */
  method LinkOneTask(taskMap: map<string, seq<string>>, tasks: seq<Task>, i: nat)
    returns (result: Result<map<string, seq<string>>, TreeError>)
    requires i < |tasks| && SameIds(taskMap, tasks) && Linked(taskMap, tasks[..i])
    ensures result.Ok? <==> DependsKnown(tasks, tasks[i].depends)
    ensures result.Ok? ==> SameIds(result.value, tasks) && Linked(result.value, tasks[..i + 1])
    ensures result.Err? ==> !HasId(tasks, result.error.id) && result.error.id in tasks[i].depends
  {
    LinkTask(taskMap, tasks, i);
    if |tasks[i].depends| > 0 {
      result := LinkToParents(taskMap, tasks, i);
      if result.Ok? { LinkTask(result.value, tasks, i); }
    } else {
      result := Ok(taskMap);
    }
  }

  method BuildTaskTree(tasks: seq<Task>) returns (result: Result<Tree, TreeError>)
    ensures result.Ok? <==> ParentsKnown(tasks)
    ensures result.Ok? ==>
              SameIds(result.value.children, tasks) && Linked(result.value.children, tasks)
              && result.value.roots == RootsOf(tasks)
    ensures result.Err? ==>
              !HasId(tasks, result.error.id) && exists i :: 0 <= i < |tasks| && result.error.id in tasks[i].depends
  {
    var taskMap := EmptyTaskMap(tasks);
    var roots: seq<string> := [];
    for i := 0 to |tasks|
      invariant SameIds(taskMap, tasks) && Linked(taskMap, tasks[..i]) && roots == RootsOf(tasks[..i])
      invariant forall j :: 0 <= j < i ==> DependsKnown(tasks, tasks[j].depends)
    {
      RootsOneMore(tasks, i);
      var linked := LinkOneTask(taskMap, tasks, i);
      if linked.Err? {
        return Err(linked.error);
      }
      taskMap := linked.value;
      if tasks[i].depends == [] {
        roots := roots + [tasks[i].id];
      }
    }
    assert tasks[..|tasks|] == tasks;
    result := Ok(Tree(taskMap, roots));
  }

  // ---------------------------------------------------------------- there and back

  lemma {:induction false} EntriesCount(id: string, depends: seq<string>, parent: string)
    ensures multiset(Entries(id, depends, parent))[id] == multiset(depends)[parent]
    ensures forall c :: c != id ==> multiset(Entries(id, depends, parent))[c] == 0
  {
    if depends != [] {
      var front := depends[..|depends| - 1];
      EntriesCount(id, front, parent);
      assert depends == front + [depends[|depends| - 1]];
    }
  }

  lemma ChildrenGrow(tasks: seq<Task>, parent: string, id: string)
    requires tasks != []
    ensures var front, last := tasks[..|tasks| - 1], tasks[|tasks| - 1];
            multiset(ChildrenOf(tasks, parent))[id]
            == multiset(ChildrenOf(front, parent))[id] + multiset(Entries(last.id, last.depends, parent))[id]
  {
  }

  lemma {:induction false} ChildrenCount(tasks: seq<Task>, parent: string, i: int)
    requires DistinctIds(tasks) && 0 <= i < |tasks|
    ensures multiset(ChildrenOf(tasks, parent))[tasks[i].id] == multiset(tasks[i].depends)[parent]
    decreases |tasks|
  {
    var front, last := tasks[..|tasks| - 1], tasks[|tasks| - 1];
    ChildrenGrow(tasks, parent, tasks[i].id);
    EntriesCount(last.id, last.depends, parent);
    if i < |front| {
      ChildrenCount(front, parent, i);
      assert tasks[i].id != last.id;
    } else {
      assert !HasId(front, last.id);
      NoStrangers(front, parent, last.id);
    }
  }

  /** Only tasks become children. */
  lemma {:induction false} NoStrangers(tasks: seq<Task>, parent: string, id: string)
    requires !HasId(tasks, id)
    ensures multiset(ChildrenOf(tasks, parent))[id] == 0
  {
    if tasks != [] {
      var front, last := tasks[..|tasks| - 1], tasks[|tasks| - 1];
      assert front + [last] == tasks;
      HasIdGrows(front, last);
      NoStrangers(front, parent, id);
      ChildrenGrow(tasks, parent, id);
      EntriesCount(last.id, last.depends, parent);
    }
  }

  /**
   Inverting twice gives back the original: the browser never meets an unknown parent, and each task has
   the children its node listed, as often as it listed them, except those that are no node.
   */
  lemma {:induction false} InvertingTwice(nodes: map<string, NodeStatus>, tasks: seq<Task>)
    requires TasksOf(nodes, tasks)
    ensures ParentsKnown(tasks)
    ensures forall n, c :: n in nodes ==>
              multiset(ChildrenOf(tasks, n))[c] == if c in nodes then multiset(nodes[n].children)[c] else 0
  {
    forall i | 0 <= i < |tasks|
      ensures DependsKnown(tasks, tasks[i].depends)
    {
      assert Describes(nodes, tasks[i]);
      assert forall parent :: parent in tasks[i].depends ==> multiset(tasks[i].depends)[parent] > 0;
    }
    forall n, c | n in nodes
      ensures multiset(ChildrenOf(tasks, n))[c] == if c in nodes then multiset(nodes[n].children)[c] else 0
    {
      if c in nodes {
        var i :| 0 <= i < |tasks| && tasks[i].id == c;
        ChildrenCount(tasks, n, i);
        assert Describes(nodes, tasks[i]);
      } else {
        NoStrangers(tasks, n, c);
      }
    }
  }
}
