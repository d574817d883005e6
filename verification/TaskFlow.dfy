/**
 Drawing a task tree (tasksFlowUtils.ts, generateNodesAndEdges) and finding its outputs
 (BaseSingleWorkflowView.tsx).

 Both walk the tree depth first without remembering where they have been, so a task with several
 parents is visited several times; nodes, edges and outputs are de-duplicated by search.
 */
module TaskFlow {
  import opened TaskGraphs
  import opened Text

  // ---------------------------------------------------------------- order of the walk

  function Inserted(id: string, ids: seq<string>): (r: seq<string>)
    ensures multiset(r) == multiset(ids) + multiset{id}
  {
    if ids == [] || !Less(ids[0], id) then [id] + ids
    else
      assert ids == [ids[0]] + ids[1..];
      [ids[0]] + Inserted(id, ids[1..])
  }

  /** The ids in ascending order; any total order of ids will do. */
  function Sorted(ids: seq<string>): (r: seq<string>)
    ensures multiset(r) == multiset(ids)
  {
    if ids == [] then []
    else
      assert ids == [ids[0]] + ids[1..];
      Inserted(ids[0], Sorted(ids[1..]))
  }

  lemma {:induction false} InsertedAscends(id: string, ids: seq<string>)
    requires Ascends(ids)
    ensures Ascends(Inserted(id, ids))
  {
    if ids != [] && Less(ids[0], id) {
      var rest := Inserted(id, ids[1..]);
      InsertedAscends(id, ids[1..]);
      forall i | 0 <= i < |rest|
        ensures !Less(rest[i], ids[0])
      {
        assert rest[i] in multiset(rest);
        LessNotBoth(ids[0], id);
      }
    } else if ids != [] {
      forall i | 0 <= i < |ids|
        ensures !Less(ids[i], id)
      {
        if Less(ids[i], id) { LessTotal(ids[0], ids[i]); StepDown(ids[0], ids[i], id); }
      }
    }
  }

  lemma LessNotBoth(a: string, b: string)
    requires Less(a, b)
    ensures !Less(b, a)
  {
    if Less(b, a) {
      LessTransitive(a, b, a);
      LessIrreflexive(a);
    }
  }

  lemma StepDown(first: string, x: string, id: string)
    requires Less(x, id) && (first == x || Less(first, x))
    ensures Less(first, id)
  {
    if first != x { LessTransitive(first, x, id); }
  }

  /** No later id comes before an earlier one. */
  ghost predicate Ascends(ids: seq<string>) {
    forall i, j :: 0 <= i < j < |ids| ==> !Less(ids[j], ids[i])
  }

  /** The walk takes the tasks of a level in ascending order of their ids. */
  lemma {:induction false} SortedAscends(ids: seq<string>)
    ensures Ascends(Sorted(ids))
  {
    if ids != [] {
      SortedAscends(ids[1..]);
      InsertedAscends(ids[0], Sorted(ids[1..]));
    }
  }

  lemma SortedKeepsMembers(ids: seq<string>)
    ensures forall x :: x in Sorted(ids) <==> x in ids
  {
    forall x
      ensures x in Sorted(ids) <==> x in ids
    {
      assert x in Sorted(ids) <==> x in multiset(Sorted(ids));
    }
  }

  lemma SortedKeepsReach(g: Graph, ids: seq<string>)
    ensures forall x :: Reachable(g, Sorted(ids), x) <==> Reachable(g, ids, x)
  {
    SortedKeepsMembers(ids);
  }

  /** The graph can be walked from these tasks: they are ranked, and every task below has a lower rank. */
  ghost predicate Walkable(g: Graph, rank: Ranking, ids: seq<string>, bound: nat) {
    Ranks(rank, g) && forall i :: 0 <= i < |ids| ==> ids[i] in rank && rank[ids[i]] < bound
  }

  lemma WalkableBelow(g: Graph, rank: Ranking, ids: seq<string>, bound: nat)
    requires Walkable(g, rank, ids, bound) && ids != []
    ensures Walkable(g, rank, Sorted(g[ids[0]]), rank[ids[0]])
    ensures Walkable(g, rank, ids[1..], bound)
  {
    SortedKeepsMembers(g[ids[0]]);
    forall i | 0 <= i < |Sorted(g[ids[0]])|
      ensures IsEdge(g, ids[0], Sorted(g[ids[0]])[i])
    {
    }
  }

  /** One visit: the task, and the task it was reached from, if any. */
  datatype Visit = Visit(task: string, parents: seq<string>)

  /** All visits of the walk in order; the longest path below a task bounds the walk from it. */
  ghost function Visits(g: Graph, rank: Ranking, ids: seq<string>, parents: seq<string>, bound: nat): seq<Visit>
    requires Walkable(g, rank, ids, bound)
    decreases bound, |ids|
  {
    if ids == [] then []
    else
      WalkableBelow(g, rank, ids, bound);
      [Visit(ids[0], parents)]
      + Visits(g, rank, Sorted(g[ids[0]]), [ids[0]], rank[ids[0]])
      + Visits(g, rank, ids[1..], parents, bound)
  }

  // ---------------------------------------------------------------- nodes and edges

  datatype Edge = Edge(id: string, source: string, target: string)

  function EdgeId(source: string, target: string): string {
    "e" + source + "-" + target
  }

  /** A DAG or Steps node without parents only wraps the others. */
  predicate IsRedundantStep(stepType: string, depends: seq<string>) {
    (stepType == "DAG" || stepType == "Steps") && depends == []
  }

  function AddNode(nodes: seq<string>, task: string, redundant: set<string>): seq<string> {
    if task !in nodes && task !in redundant then nodes + [task] else nodes
  }

  predicate HasEdge(edges: seq<Edge>, id: string) {
    exists i :: 0 <= i < |edges| && edges[i].id == id
  }

  function AddEdge(edges: seq<Edge>, source: string, target: string): seq<Edge> {
    if HasEdge(edges, EdgeId(source, target)) then edges else edges + [Edge(EdgeId(source, target), source, target)]
  }

  function AddEdges(edges: seq<Edge>, parents: seq<string>, target: string): seq<Edge> {
    if parents == [] then edges
    else AddEdge(AddEdges(edges, parents[..|parents| - 1], target), parents[|parents| - 1], target)
  }

  function DrawNodes(nodes: seq<string>, visits: seq<Visit>, redundant: set<string>): seq<string>
    decreases |visits|
  {
    if visits == [] then nodes else DrawNodes(AddNode(nodes, visits[0].task, redundant), visits[1..], redundant)
  }

  function DrawEdges(edges: seq<Edge>, visits: seq<Visit>): seq<Edge>
    decreases |visits|
  {
    if visits == [] then edges else DrawEdges(AddEdges(edges, visits[0].parents, visits[0].task), visits[1..])
  }

  /** A task without children is an output. */
  function AddOutput(outputs: seq<string>, task: string, g: Graph): seq<string> {
    if task in g && g[task] == [] && task !in outputs then outputs + [task] else outputs
  }

  function CollectOutputs(outputs: seq<string>, visits: seq<Visit>, g: Graph): seq<string>
    decreases |visits|
  {
    if visits == [] then outputs else CollectOutputs(AddOutput(outputs, visits[0].task, g), visits[1..], g)
  }

  lemma {:induction false} DrawNodesSplit(nodes: seq<string>, a: seq<Visit>, b: seq<Visit>, redundant: set<string>)
    ensures DrawNodes(nodes, a + b, redundant) == DrawNodes(DrawNodes(nodes, a, redundant), b, redundant)
    decreases |a|
  {
    if a == [] {
      assert a + b == b;
    } else {
      assert (a + b)[0] == a[0] && (a + b)[1..] == a[1..] + b;
      DrawNodesSplit(AddNode(nodes, a[0].task, redundant), a[1..], b, redundant);
    }
  }

  lemma {:induction false} DrawEdgesSplit(edges: seq<Edge>, a: seq<Visit>, b: seq<Visit>)
    ensures DrawEdges(edges, a + b) == DrawEdges(DrawEdges(edges, a), b)
    decreases |a|
  {
    if a == [] {
      assert a + b == b;
    } else {
      assert (a + b)[0] == a[0] && (a + b)[1..] == a[1..] + b;
      DrawEdgesSplit(AddEdges(edges, a[0].parents, a[0].task), a[1..], b);
    }
  }

  lemma {:induction false} CollectOutputsSplit(outputs: seq<string>, a: seq<Visit>, b: seq<Visit>, g: Graph)
    ensures CollectOutputs(outputs, a + b, g) == CollectOutputs(CollectOutputs(outputs, a, g), b, g)
    decreases |a|
  {
    if a == [] {
      assert a + b == b;
    } else {
      assert (a + b)[0] == a[0] && (a + b)[1..] == a[1..] + b;
      CollectOutputsSplit(AddOutput(outputs, a[0].task, g), a[1..], b, g);
    }
  }

  /** One visit at the front of the walk, then the walk below it, then the rest. */
  lemma VisitsFront(g: Graph, rank: Ranking, ids: seq<string>, parents: seq<string>, bound: nat)
    requires Walkable(g, rank, ids, bound) && ids != []
    ensures Walkable(g, rank, Sorted(g[ids[0]]), rank[ids[0]]) && Walkable(g, rank, ids[1..], bound)
    ensures Visits(g, rank, ids, parents, bound) ==
            [Visit(ids[0], parents)]
            + (Visits(g, rank, Sorted(g[ids[0]]), [ids[0]], rank[ids[0]]) + Visits(g, rank, ids[1..], parents, bound))
  {
    WalkableBelow(g, rank, ids, bound);
  }

  /** The arrays that generateNodesAndEdges fills while it recurses. */
  class Drawing {
    var nodes: seq<string>
    var edges: seq<Edge>

    constructor ()
      ensures nodes == [] && edges == []
    {
      nodes := [];
      edges := [];
    }

    /** A task's own node and the edges from the task it was reached from. */
    method Draw(task: string, parents: seq<string>, redundant: set<string>)
      modifies this
      ensures nodes == AddNode(old(nodes), task, redundant)
      ensures edges == AddEdges(old(edges), parents, task)
    {
      if task !in nodes && task !in redundant {
        nodes := nodes + [task];
      }
      for i := 0 to |parents|
        invariant edges == AddEdges(old(edges), parents[..i], task)
        invariant nodes == AddNode(old(nodes), task, redundant)
      {
        assert parents[..i + 1][..i] == parents[..i];
        if !HasEdge(edges, EdgeId(parents[i], task)) {
          edges := edges + [Edge(EdgeId(parents[i], task), parents[i], task)];
        }
      }
      assert parents[..|parents|] == parents;
    }

    method Traverse(g: Graph, tasks: seq<string>, parents: seq<string>, redundant: set<string>,
                    ghost rank: Ranking, ghost bound: nat)
      requires Walkable(g, rank, Sorted(tasks), bound)
      modifies this
      ensures nodes == DrawNodes(old(nodes), Visits(g, rank, Sorted(tasks), parents, bound), redundant)
      ensures edges == DrawEdges(old(edges), Visits(g, rank, Sorted(tasks), parents, bound))
      decreases bound
    {
      var sortedTasks := Sorted(tasks);
      ghost var all := Visits(g, rank, sortedTasks, parents, bound);
      for i := 0 to |sortedTasks|
        invariant Walkable(g, rank, sortedTasks[i..], bound)
        invariant DrawNodes(nodes, Visits(g, rank, sortedTasks[i..], parents, bound), redundant)
               == DrawNodes(old(nodes), all, redundant)
        invariant DrawEdges(edges, Visits(g, rank, sortedTasks[i..], parents, bound)) == DrawEdges(old(edges), all)
      {
        var task := sortedTasks[i];
        ghost var rest := sortedTasks[i..];
        assert rest[0] == task && rest[1..] == sortedTasks[i + 1..];
        VisitsFront(g, rank, rest, parents, bound);
        ghost var below := Visits(g, rank, Sorted(g[task]), [task], rank[task]);
        ghost var after := Visits(g, rank, sortedTasks[i + 1..], parents, bound);
        DrawNodesSplit(AddNode(nodes, task, redundant), below, after, redundant);
        DrawEdgesSplit(AddEdges(edges, parents, task), below, after);
        Draw(task, parents, redundant);
        if g[task] != [] {
          Traverse(g, g[task], [task], redundant, rank, rank[task]);
        }
      }
    }
  }

  /** The array that the search for outputs fills. */
  class Outputs {
    var ids: seq<string>

    constructor ()
      ensures ids == []
    {
      ids := [];
    }

    method Traverse(g: Graph, tasks: seq<string>, ghost parents: seq<string>, ghost rank: Ranking, ghost bound: nat)
      requires Walkable(g, rank, Sorted(tasks), bound)
      modifies this
      ensures ids == CollectOutputs(old(ids), Visits(g, rank, Sorted(tasks), parents, bound), g)
      decreases bound
    {
      var sortedTasks := Sorted(tasks);
      ghost var all := Visits(g, rank, sortedTasks, parents, bound);
      for i := 0 to |sortedTasks|
        invariant Walkable(g, rank, sortedTasks[i..], bound)
        invariant CollectOutputs(ids, Visits(g, rank, sortedTasks[i..], parents, bound), g)
               == CollectOutputs(old(ids), all, g)
      {
        var task := sortedTasks[i];
        ghost var rest := sortedTasks[i..];
        assert rest[0] == task && rest[1..] == sortedTasks[i + 1..];
        VisitsFront(g, rank, rest, parents, bound);
        ghost var below := Visits(g, rank, Sorted(g[task]), [task], rank[task]);
        ghost var after := Visits(g, rank, sortedTasks[i + 1..], parents, bound);
        CollectOutputsSplit(AddOutput(ids, task, g), below, after, g);
        if g[task] == [] && task !in ids {
          ids := ids + [task];
        } else if g[task] != [] {
          Traverse(g, g[task], [task], rank, rank[task]);
        }
      }
    }
  }

  // ---------------------------------------------------------------- what the walk visits

  ghost predicate IsVisited(visits: seq<Visit>, x: string) {
    exists i :: 0 <= i < |visits| && visits[i].task == x
  }

  /** Some visit came to the child from that parent. */
  ghost predicate Connects(visits: seq<Visit>, parent: string, child: string) {
    exists i :: 0 <= i < |visits| && visits[i].task == child && parent in visits[i].parents
  }

  lemma {:induction false} VisitsOfStarts(g: Graph, rank: Ranking, ids: seq<string>, parents: seq<string>, bound: nat,
                                          x: string)
    requires Walkable(g, rank, ids, bound) && x in ids
    ensures Visit(x, parents) in Visits(g, rank, ids, parents, bound)
    decreases |ids|
  {
    VisitsFront(g, rank, ids, parents, bound);
    if x != ids[0] { VisitsOfStarts(g, rank, ids[1..], parents, bound, x); }
  }

  lemma FewerStartsReachLess(g: Graph, ids: seq<string>, x: string)
    requires ids != [] && Reachable(g, ids[1..], x)
    ensures Reachable(g, ids, x)
  {
    var p :| IsPath(g, p) && p[0] in ids[1..] && p[|p| - 1] == x;
    assert p[0] in ids;
  }

  /** Every visit is of a reachable task; it comes from outside the walk or along an edge. */
  lemma {:induction false} VisitsAreReachable(g: Graph, rank: Ranking, ids: seq<string>, parents: seq<string>,
                                              bound: nat, v: Visit)
    requires Walkable(g, rank, ids, bound) && v in Visits(g, rank, ids, parents, bound)
    ensures Reachable(g, ids, v.task)
    ensures (v.task in ids && v.parents == parents)
            || (|v.parents| == 1 && Reachable(g, ids, v.parents[0]) && IsEdge(g, v.parents[0], v.task))
    decreases bound, |ids|
  {
    VisitsFront(g, rank, ids, parents, bound);
    var n := ids[0];
    var below := Sorted(g[n]);
    ReachStart(g, ids, n);
    if v != Visit(n, parents) {
      if v in Visits(g, rank, below, [n], rank[n]) {
        VisitsAreReachable(g, rank, below, [n], rank[n], v);
        SortedKeepsReach(g, g[n]);
        SortedKeepsMembers(g[n]);
        ReachThrough(g, ids, n, v.task);
        if v.task !in below || v.parents != [n] { ReachThrough(g, ids, n, v.parents[0]); }
      } else {
        VisitsAreReachable(g, rank, ids[1..], parents, bound, v);
        FewerStartsReachLess(g, ids, v.task);
        if v.task !in ids[1..] || v.parents != parents { FewerStartsReachLess(g, ids, v.parents[0]); }
      }
    }
  }

  /** Every edge below a start is walked. */
  lemma {:induction false} EdgesAreVisited(g: Graph, rank: Ranking, ids: seq<string>, parents: seq<string>, bound: nat,
                                           n: string, c: string)
    requires Walkable(g, rank, ids, bound) && Reachable(g, ids, n) && IsEdge(g, n, c)
    ensures Visit(c, [n]) in Visits(g, rank, ids, parents, bound)
    decreases bound, |ids|
  {
    var p :| IsPath(g, p) && p[0] in ids && p[|p| - 1] == n;
    VisitsFront(g, rank, ids, parents, bound);
    var first := ids[0];
    if Reachable(g, ids[1..], n) {
      EdgesAreVisited(g, rank, ids[1..], parents, bound, n, c);
    } else {
      ReachSplit(g, ids, n);
      SortedKeepsMembers(g[first]);
      if n in ids {
        if n in ids[1..] { ReachStart(g, ids[1..], n); }
        VisitsOfStarts(g, rank, Sorted(g[first]), [first], rank[first], c);
      } else {
        var m :| m in ids && m in g && Reachable(g, g[m], n);
        if m in ids[1..] { ReachThrough(g, ids[1..], m, n); }
        SortedKeepsReach(g, g[first]);
        EdgesAreVisited(g, rank, Sorted(g[first]), [first], rank[first], n, c);
      }
    }
  }

  lemma {:induction false} VisitedExactly(g: Graph, rank: Ranking, ids: seq<string>, bound: nat, x: string)
    requires Walkable(g, rank, ids, bound)
    ensures IsVisited(Visits(g, rank, ids, [], bound), x) <==> Reachable(g, ids, x)
  {
    var visits := Visits(g, rank, ids, [], bound);
    if IsVisited(visits, x) {
      var i :| 0 <= i < |visits| && visits[i].task == x;
      VisitsAreReachable(g, rank, ids, [], bound, visits[i]);
    }
    if Reachable(g, ids, x) { ReachedIsVisited(g, rank, ids, bound, x); }
  }

  lemma {:induction false} ConnectionIsEdge(g: Graph, rank: Ranking, ids: seq<string>, bound: nat, n: string, c: string)
    requires Walkable(g, rank, ids, bound) && Connects(Visits(g, rank, ids, [], bound), n, c)
    ensures Reachable(g, ids, n) && IsEdge(g, n, c)
  {
    var visits := Visits(g, rank, ids, [], bound);
    var i :| 0 <= i < |visits| && visits[i].task == c && n in visits[i].parents;
    var v := visits[i];
    VisitsAreReachable(g, rank, ids, [], bound, v);
    assert v.parents == [v.parents[0]];
  }

  lemma {:induction false} EdgeIsConnection(g: Graph, rank: Ranking, ids: seq<string>, bound: nat, n: string, c: string)
    requires Walkable(g, rank, ids, bound) && Reachable(g, ids, n) && IsEdge(g, n, c)
    ensures Connects(Visits(g, rank, ids, [], bound), n, c)
  {
    var visits := Visits(g, rank, ids, [], bound);
    EdgesAreVisited(g, rank, ids, [], bound, n, c);
    var i :| 0 <= i < |visits| && visits[i] == Visit(c, [n]);
  }

  /** From the roots, the walk visits exactly the reachable tasks, along exactly the reachable edges. */
  lemma {:induction false} WalkIsExact(g: Graph, rank: Ranking, roots: seq<string>, bound: nat)
    requires Walkable(g, rank, Sorted(roots), bound)
    ensures var visits := Visits(g, rank, Sorted(roots), [], bound);
            && (forall x :: IsVisited(visits, x) <==> Reachable(g, roots, x))
            && (forall n, c :: Connects(visits, n, c) <==> Reachable(g, roots, n) && IsEdge(g, n, c))
  {
    var visits := Visits(g, rank, Sorted(roots), [], bound);
    SortedKeepsReach(g, roots);
    forall x
      ensures IsVisited(visits, x) <==> Reachable(g, roots, x)
    {
      VisitedExactly(g, rank, Sorted(roots), bound, x);
    }
    forall n, c
      ensures Connects(visits, n, c) <==> Reachable(g, roots, n) && IsEdge(g, n, c)
    {
      if Connects(visits, n, c) { ConnectionIsEdge(g, rank, Sorted(roots), bound, n, c); }
      if Reachable(g, Sorted(roots), n) && IsEdge(g, n, c) { EdgeIsConnection(g, rank, Sorted(roots), bound, n, c); }
    }
  }

  lemma {:induction false} StartIsVisited(g: Graph, rank: Ranking, ids: seq<string>, bound: nat, x: string)
    requires Walkable(g, rank, ids, bound) && x in ids
    ensures IsVisited(Visits(g, rank, ids, [], bound), x)
  {
    var visits := Visits(g, rank, ids, [], bound);
    VisitsOfStarts(g, rank, ids, [], bound, x);
    var i :| 0 <= i < |visits| && visits[i] == Visit(x, []);
  }

  lemma {:induction false} ChildIsVisited(g: Graph, rank: Ranking, ids: seq<string>, bound: nat, n: string, x: string)
    requires Walkable(g, rank, ids, bound) && Reachable(g, ids, n) && IsEdge(g, n, x)
    ensures IsVisited(Visits(g, rank, ids, [], bound), x)
  {
    var visits := Visits(g, rank, ids, [], bound);
    EdgesAreVisited(g, rank, ids, [], bound, n, x);
    var i :| 0 <= i < |visits| && visits[i] == Visit(x, [n]);
  }

  lemma {:induction false} ReachedIsVisited(g: Graph, rank: Ranking, ids: seq<string>, bound: nat, x: string)
    requires Walkable(g, rank, ids, bound) && Reachable(g, ids, x)
    ensures IsVisited(Visits(g, rank, ids, [], bound), x)
  {
    ReachLast(g, ids, x);
    if x in ids {
      StartIsVisited(g, rank, ids, bound, x);
    } else {
      var n :| Reachable(g, ids, n) && IsEdge(g, n, x);
      ChildIsVisited(g, rank, ids, bound, n, x);
    }
  }

  // ---------------------------------------------------------------- what the de-duplication keeps

  ghost predicate EachOnce(ids: seq<string>) {
    forall i, j :: 0 <= i < j < |ids| ==> ids[i] != ids[j]
  }

  ghost predicate EdgesOnce(edges: seq<Edge>) {
    forall i, j :: 0 <= i < j < |edges| ==> edges[i].id != edges[j].id
  }

  lemma VisitedSplit(visits: seq<Visit>, x: string)
    requires visits != []
    ensures IsVisited(visits, x) <==> visits[0].task == x || IsVisited(visits[1..], x)
  {
    if IsVisited(visits, x) && visits[0].task != x {
      var i :| 0 <= i < |visits| && visits[i].task == x;
      assert visits[1..][i - 1].task == x;
    }
    if IsVisited(visits[1..], x) {
      var i :| 0 <= i < |visits[1..]| && visits[1..][i].task == x;
      assert visits[i + 1].task == x;
    }
  }

  lemma ConnectsSplit(visits: seq<Visit>, n: string, c: string)
    requires visits != []
    ensures Connects(visits, n, c) <==> (visits[0].task == c && n in visits[0].parents) || Connects(visits[1..], n, c)
  {
    if Connects(visits, n, c) && !(visits[0].task == c && n in visits[0].parents) {
      var i :| 0 <= i < |visits| && visits[i].task == c && n in visits[i].parents;
      assert visits[1..][i - 1].task == c;
    }
    if Connects(visits[1..], n, c) {
      var i :| 0 <= i < |visits[1..]| && visits[1..][i].task == c && n in visits[1..][i].parents;
      assert visits[i + 1].task == c;
    }
  }

  lemma {:induction false} NodesAreExact(nodes: seq<string>, visits: seq<Visit>, redundant: set<string>)
    requires EachOnce(nodes)
    ensures EachOnce(DrawNodes(nodes, visits, redundant))
    ensures forall x :: x in DrawNodes(nodes, visits, redundant) <==>
                          x in nodes || (x !in redundant && IsVisited(visits, x))
    decreases |visits|
  {
    if visits != [] {
      NodesAreExact(AddNode(nodes, visits[0].task, redundant), visits[1..], redundant);
      forall x { VisitedSplit(visits, x); }
    }
  }

  lemma {:induction false} OutputsAreExact(outputs: seq<string>, visits: seq<Visit>, g: Graph)
    requires EachOnce(outputs)
    ensures EachOnce(CollectOutputs(outputs, visits, g))
    ensures forall x :: x in CollectOutputs(outputs, visits, g) <==>
                          x in outputs || (x in g && g[x] == [] && IsVisited(visits, x))
    decreases |visits|
  {
    if visits != [] {
      OutputsAreExact(AddOutput(outputs, visits[0].task, g), visits[1..], g);
      forall x { VisitedSplit(visits, x); }
    }
  }

  /** Edges carry the id of their ends. */
  ghost predicate Labelled(edges: seq<Edge>) {
    forall i :: 0 <= i < |edges| ==> edges[i].id == "e" + edges[i].source + "-" + edges[i].target
  }

  ghost predicate HasEnds(edges: seq<Edge>, n: string, c: string) {
    exists i :: 0 <= i < |edges| && edges[i].source == n && edges[i].target == c
  }

  lemma {:induction false} AddEdgeExact(edges: seq<Edge>, n: string, c: string)
    requires EdgesOnce(edges) && Labelled(edges)
    ensures var more := AddEdge(edges, n, c);
            && EdgesOnce(more) && Labelled(more) && edges <= more
            && HasEdge(more, "e" + n + "-" + c)
            && forall m, d :: HasEnds(more, m, d) ==> HasEnds(edges, m, d) || (m == n && d == c)
  {
    var more := AddEdge(edges, n, c);
    if more != edges {
      assert more[|edges|].id == EdgeId(n, c);
      forall m, d | HasEnds(more, m, d)
        ensures HasEnds(edges, m, d) || (m == n && d == c)
      {
        var i :| 0 <= i < |more| && more[i].source == m && more[i].target == d;
        if i < |edges| { assert edges[i] == more[i]; }
      }
    }
  }

  lemma HasEdgeGrows(edges: seq<Edge>, more: seq<Edge>, id: string)
    requires edges <= more && HasEdge(edges, id)
    ensures HasEdge(more, id)
  {
    var i :| 0 <= i < |edges| && edges[i].id == id;
    assert more[i].id == id;
  }

  lemma {:induction false} AddEdgesExact(edges: seq<Edge>, parents: seq<string>, c: string)
    requires EdgesOnce(edges) && Labelled(edges)
    ensures var more := AddEdges(edges, parents, c);
            && EdgesOnce(more) && Labelled(more) && edges <= more
            && (forall n :: n in parents ==> HasEdge(more, "e" + n + "-" + c))
            && forall m, d :: HasEnds(more, m, d) ==> HasEnds(edges, m, d) || (m in parents && d == c)
    decreases |parents|
  {
    if parents != [] {
      var front, last := parents[..|parents| - 1], parents[|parents| - 1];
      AddEdgesExact(edges, front, c);
      var some := AddEdges(edges, front, c);
      AddEdgeExact(some, last, c);
      forall n | n in parents
        ensures HasEdge(AddEdge(some, last, c), "e" + n + "-" + c)
      {
        if n != last { HasEdgeGrows(some, AddEdge(some, last, c), "e" + n + "-" + c); }
      }
    }
  }

  /** Every connection has an edge of its id; every edge is one of the connections; no id occurs twice. */
  lemma {:induction false} EdgesAreExact(edges: seq<Edge>, visits: seq<Visit>)
    requires EdgesOnce(edges) && Labelled(edges)
    ensures var drawn := DrawEdges(edges, visits);
            && EdgesOnce(drawn) && Labelled(drawn) && edges <= drawn
            && (forall n, c :: Connects(visits, n, c) ==> HasEdge(drawn, "e" + n + "-" + c))
            && forall n, c :: HasEnds(drawn, n, c) ==> HasEnds(edges, n, c) || Connects(visits, n, c)
    decreases |visits|
  {
    if visits != [] {
      var some := AddEdges(edges, visits[0].parents, visits[0].task);
      var drawn := DrawEdges(some, visits[1..]);
      AddEdgesExact(edges, visits[0].parents, visits[0].task);
      EdgesAreExact(some, visits[1..]);
      forall n, c | Connects(visits, n, c)
        ensures HasEdge(drawn, "e" + n + "-" + c)
      {
        ConnectsSplit(visits, n, c);
        if !Connects(visits[1..], n, c) { HasEdgeGrows(some, drawn, "e" + n + "-" + c); }
      }
      forall n, c | HasEnds(drawn, n, c)
        ensures HasEnds(edges, n, c) || Connects(visits, n, c)
      {
        ConnectsSplit(visits, n, c);
      }
    }
  }

  /** Edges share an id exactly if they read the same with a hyphen between their ends. */
  lemma EdgeIdsExactly(n: string, c: string, m: string, d: string)
    ensures EdgeId(n, c) == EdgeId(m, d) <==> n + "-" + c == m + "-" + d
    ensures "e" + n + "-" + c == "e" + m + "-" + d <==> n + "-" + c == m + "-" + d
  {
    assert "e" + n + "-" + c == "e" + (n + "-" + c);
    assert "e" + m + "-" + d == "e" + (m + "-" + d);
    assert ("e" + (n + "-" + c))[1..] == n + "-" + c;
    assert ("e" + (m + "-" + d))[1..] == m + "-" + d;
  }

  /** Two connections that read the same with a hyphen between their ends. */
  ghost predicate IdsCollide(visits: seq<Visit>) {
    exists n, c, m, d :: Connects(visits, n, c) && Connects(visits, m, d)
                         && n + "-" + c == m + "-" + d && (n != m || c != d)
  }

  lemma {:induction false} DrawnUnlessIdsCollide(visits: seq<Visit>, n: string, c: string)
    requires !IdsCollide(visits) && Connects(visits, n, c)
    ensures HasEnds(DrawEdges([], visits), n, c)
  {
    var drawn := DrawEdges([], visits);
    EdgesAreExact([], visits);
    var i :| 0 <= i < |drawn| && drawn[i].id == "e" + n + "-" + c;
    var m, d := drawn[i].source, drawn[i].target;
    assert HasEnds(drawn, m, d);
    EdgeIdsExactly(n, c, m, d);
  }

  lemma {:induction false} BothDrawnNeverCollide(visits: seq<Visit>, n: string, c: string, m: string, d: string)
    requires HasEnds(DrawEdges([], visits), n, c) && HasEnds(DrawEdges([], visits), m, d)
    requires n + "-" + c == m + "-" + d
    ensures n == m && c == d
  {
    var drawn := DrawEdges([], visits);
    EdgesAreExact([], visits);
    EdgeIdsExactly(n, c, m, d);
    var i :| 0 <= i < |drawn| && drawn[i].source == n && drawn[i].target == c;
    var j :| 0 <= j < |drawn| && drawn[j].source == m && drawn[j].target == d;
    assert drawn[i].id == drawn[j].id;
  }

  /** Every connection is drawn exactly when no two connections read the same. */
  lemma {:induction false} AllDrawnUnlessIdsCollide(visits: seq<Visit>)
    ensures (forall n, c :: Connects(visits, n, c) ==> HasEnds(DrawEdges([], visits), n, c)) <==> !IdsCollide(visits)
  {
    if !IdsCollide(visits) {
      forall n, c | Connects(visits, n, c) { DrawnUnlessIdsCollide(visits, n, c); }
    } else {
      var n, c, m, d :| Connects(visits, n, c) && Connects(visits, m, d)
                        && n + "-" + c == m + "-" + d && (n != m || c != d);
      if HasEnds(DrawEdges([], visits), n, c) && HasEnds(DrawEdges([], visits), m, d) {
        BothDrawnNeverCollide(visits, n, c, m, d);
      }
    }
  }
}
