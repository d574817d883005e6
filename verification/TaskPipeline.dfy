/** From the nodes Argo reports to what is drawn: service, tree and walk together. */
module TaskPipeline {
  import opened TaskFlow
  import opened TaskGraphs
  import opened TaskMaps

  /** The node lists that child, and the child is a node. */
  ghost predicate Lists(nodes: map<string, NodeStatus>, n: string, c: string) {
    n in nodes && c in nodes && c in nodes[n].children
  }

  function KnownOf(children: seq<string>, known: set<string>): seq<string> {
    if children == [] then []
    else (if children[0] in known then [children[0]] else []) + KnownOf(children[1..], known)
  }

  lemma {:induction false} KnownOfExactly(children: seq<string>, known: set<string>)
    ensures forall c :: c in KnownOf(children, known) <==> c in children && c in known
  {
    if children != [] {
      assert children == [children[0]] + children[1..];
      KnownOfExactly(children[1..], known);
    }
  }

  /** The nodes' own graph: listed children that are nodes. */
  function GraphOf(nodes: map<string, NodeStatus>): Graph {
    map id | id in nodes :: KnownOf(nodes[id].children, nodes.Keys)
  }

  ghost predicate IsGraphOf(g: Graph, nodes: map<string, NodeStatus>) {
    g.Keys == nodes.Keys && forall n, c :: IsEdge(g, n, c) <==> Lists(nodes, n, c)
  }

  lemma {:induction false} GraphOfIsGraph(nodes: map<string, NodeStatus>)
    ensures IsGraphOf(GraphOf(nodes), nodes)
  {
    forall n, c
      ensures IsEdge(GraphOf(nodes), n, c) <==> Lists(nodes, n, c)
    {
      if n in nodes { KnownOfExactly(nodes[n].children, nodes.Keys); }
    }
  }

  ghost predicate HasNoCycle(nodes: map<string, NodeStatus>) {
    Acyclic(GraphOf(nodes))
  }

  ghost predicate IsParentless(nodes: map<string, NodeStatus>, id: string) {
    id in nodes && forall p :: !Lists(nodes, p, id)
  }

  /** The node can be reached from a node that no node lists. */
  ghost predicate Reached(nodes: map<string, NodeStatus>, id: string) {
    exists p :: IsPath(GraphOf(nodes), p) && IsParentless(nodes, p[0]) && p[|p| - 1] == id
  }

  /** No cycle can be reached from a node that no node lists. */
  ghost predicate NoCycleReached(nodes: map<string, NodeStatus>) {
    forall p :: IsPath(GraphOf(nodes), p) && |p| > 1 && Reached(nodes, p[0]) ==> p[0] != p[|p| - 1]
  }

  lemma {:induction false} SamePaths(g: Graph, nodes: map<string, NodeStatus>, p: seq<string>)
    requires IsGraphOf(g, nodes)
    ensures IsPath(g, p) <==> IsPath(GraphOf(nodes), p)
  {
    var h := GraphOf(nodes);
    GraphOfIsGraph(nodes);
    forall i | 0 <= i < |p| - 1
      ensures IsStep(g, p, i) <==> IsStep(h, p, i)
    {
      assert IsEdge(g, p[i], p[i + 1]) <==> Lists(nodes, p[i], p[i + 1]);
      assert IsEdge(h, p[i], p[i + 1]) <==> Lists(nodes, p[i], p[i + 1]);
    }
  }

  // ---------------------------------------------------------------- the tree is the nodes' own graph

  ghost predicate IsTreeOf(g: Graph, tasks: seq<Task>) {
    SameIds(g, tasks) && Linked(g, tasks)
  }

  /** The dependencies of a task are its parents in the graph. */
  ghost predicate DependsOnParents(g: Graph, task: Task) {
    forall p :: p in task.depends <==> IsEdge(g, p, task.id)
  }

  /** The tasks are the nodes, with their parents in the graph. */
  ghost predicate Agree(nodes: map<string, NodeStatus>, tasks: seq<Task>, g: Graph) {
    && SameIds(g, tasks) && IsGraphOf(g, nodes)
    && forall i :: 0 <= i < |tasks| ==>
                     tasks[i].id in nodes && tasks[i].node == nodes[tasks[i].id] && DependsOnParents(g, tasks[i])
  }

  lemma {:induction false} TreeChild(nodes: map<string, NodeStatus>, tasks: seq<Task>, n: string, c: string)
    requires TasksOf(nodes, tasks) && n in nodes
    ensures c in ChildrenOf(tasks, n) <==> c in nodes && c in nodes[n].children
  {
    InvertingTwice(nodes, tasks);
    var children := ChildrenOf(tasks, n);
    assert multiset(children)[c] == if c in nodes then multiset(nodes[n].children)[c] else 0;
    assert c in children <==> c in multiset(children);
    assert c in nodes[n].children <==> c in multiset(nodes[n].children);
  }

  lemma {:induction false} TreeEdge(nodes: map<string, NodeStatus>, tasks: seq<Task>, g: Graph, n: string, c: string)
    requires TasksOf(nodes, tasks) && IsTreeOf(g, tasks)
    ensures IsEdge(g, n, c) <==> Lists(nodes, n, c)
  {
    assert n in nodes <==> HasId(tasks, n);
    assert n in g <==> HasId(tasks, n);
    if n in nodes {
      TreeChild(nodes, tasks, n, c);
    }
  }

  lemma {:induction false} TreeIsTheirGraph(nodes: map<string, NodeStatus>, tasks: seq<Task>, g: Graph)
    requires TasksOf(nodes, tasks) && IsTreeOf(g, tasks)
    ensures IsGraphOf(g, nodes)
  {
    assert forall id :: id in g <==> HasId(tasks, id);
    forall n, c
      ensures IsEdge(g, n, c) <==> Lists(nodes, n, c)
    {
      TreeEdge(nodes, tasks, g, n, c);
    }
  }

  lemma {:induction false} DescribedDepends(nodes: map<string, NodeStatus>, task: Task, g: Graph)
    requires Describes(nodes, task) && IsGraphOf(g, nodes)
    ensures DependsOnParents(g, task)
  {
    forall p
      ensures p in task.depends <==> IsEdge(g, p, task.id)
    {
      assert multiset(task.depends)[p] == if p in nodes then multiset(nodes[p].children)[task.id] else 0;
      assert IsEdge(g, p, task.id) <==> Lists(nodes, p, task.id);
    }
  }

  lemma {:induction false} TreeAgrees(nodes: map<string, NodeStatus>, tasks: seq<Task>, g: Graph)
    requires TasksOf(nodes, tasks) && IsTreeOf(g, tasks)
    ensures Agree(nodes, tasks, g)
  {
    TreeIsTheirGraph(nodes, tasks, g);
    forall i | 0 <= i < |tasks|
      ensures DependsOnParents(g, tasks[i])
    {
      assert Describes(nodes, tasks[i]);
      DescribedDepends(nodes, tasks[i], g);
    }
  }

  // ---------------------------------------------------------------- every task is reached

  ghost predicate IsRoot(tasks: seq<Task>, id: string) {
    exists i :: 0 <= i < |tasks| && tasks[i].id == id && tasks[i].depends == []
  }

  lemma {:induction false} RootsAreParentless(tasks: seq<Task>)
    ensures forall id :: id in RootsOf(tasks) <==> IsRoot(tasks, id)
  {
    if tasks != [] {
      var front, last := tasks[..|tasks| - 1], tasks[|tasks| - 1];
      RootsAreParentless(front);
      forall id
        ensures IsRoot(tasks, id) <==> IsRoot(front, id) || (last.id == id && last.depends == [])
      {
        if IsRoot(front, id) {
          var i :| 0 <= i < |front| && front[i].id == id && front[i].depends == [];
          assert tasks[i] == front[i];
        }
        if IsRoot(tasks, id) && !(last.id == id && last.depends == []) {
          var i :| 0 <= i < |tasks| && tasks[i].id == id && tasks[i].depends == [];
          assert front[i] == tasks[i];
        }
      }
    }
  }

  lemma {:induction false} RootsExactly(nodes: map<string, NodeStatus>, tasks: seq<Task>, g: Graph, id: string)
    requires Agree(nodes, tasks, g)
    ensures id in RootsOf(tasks) <==> IsParentless(nodes, id)
  {
    RootsAreParentless(tasks);
    if IsRoot(tasks, id) {
      var i :| 0 <= i < |tasks| && tasks[i].id == id && tasks[i].depends == [];
      NoParentsNoDepends(nodes, g, tasks[i]);
    }
    if IsParentless(nodes, id) {
      assert HasId(tasks, id);
      var i :| 0 <= i < |tasks| && tasks[i].id == id;
      NoParentsNoDepends(nodes, g, tasks[i]);
    }
  }

  lemma {:induction false} ReachedExactly(nodes: map<string, NodeStatus>, tasks: seq<Task>, g: Graph, id: string)
    requires Agree(nodes, tasks, g)
    ensures Reachable(g, RootsOf(tasks), id) <==> Reached(nodes, id)
  {
    forall p
      ensures IsPath(g, p) <==> IsPath(GraphOf(nodes), p)
      ensures p != [] ==> (p[0] in RootsOf(tasks) <==> IsParentless(nodes, p[0]))
    {
      SamePaths(g, nodes, p);
      if p != [] { RootsExactly(nodes, tasks, g, p[0]); }
    }
  }

  /** The browser's walk meets a cycle exactly if the nodes have one that is reached. */
  lemma {:induction false} CyclesExactly(nodes: map<string, NodeStatus>, tasks: seq<Task>, g: Graph)
    requires Agree(nodes, tasks, g)
    ensures NoCycleFrom(g, RootsOf(tasks)) <==> NoCycleReached(nodes)
  {
    forall p
      ensures IsPath(g, p) <==> IsPath(GraphOf(nodes), p)
      ensures p != [] ==> (Reachable(g, RootsOf(tasks), p[0]) <==> Reached(nodes, p[0]))
    {
      SamePaths(g, nodes, p);
      if p != [] { ReachedExactly(nodes, tasks, g, p[0]); }
    }
  }

  lemma {:induction false} TreeIsClosed(nodes: map<string, NodeStatus>, tasks: seq<Task>, g: Graph)
    requires Agree(nodes, tasks, g)
    ensures Closed(g) && forall id :: id in RootsOf(tasks) ==> id in g
  {
    forall n, c | IsEdge(g, n, c)
      ensures c in g
    {
      assert Lists(nodes, n, c);
    }
    forall id | id in RootsOf(tasks)
      ensures id in g
    {
      RootsExactly(nodes, tasks, g, id);
    }
  }

  /** The browser's walk ends exactly if no cycle can be reached from a node that no node lists. */
  lemma {:induction false} WalkEndsExactly(nodes: map<string, NodeStatus>, tasks: seq<Task>, g: Graph)
    requires Agree(nodes, tasks, g)
    ensures (exists depth :: !Nests(g, RootsOf(tasks), depth)) <==> NoCycleReached(nodes)
  {
    TreeIsClosed(nodes, tasks, g);
    WalkEndsExactlyWithoutCycle(g, RootsOf(tasks));
    CyclesExactly(nodes, tasks, g);
  }

  // ---------------------------------------------------------------- without cycles every node is reached

  /** Going up from parent to parent ends at a node that no node lists. */
  lemma {:induction false} ReachedFromAbove(nodes: map<string, NodeStatus>, rank: Ranking, bound: nat, id: string)
    requires Ranks(rank, GraphOf(nodes)) && rank.Keys == nodes.Keys && id in nodes
    requires forall n :: n in rank ==> rank[n] < bound
    ensures Reached(nodes, id)
    decreases bound - (if id in rank then rank[id] else 0)
  {
    var g := GraphOf(nodes);
    GraphOfIsGraph(nodes);
    if IsParentless(nodes, id) {
      assert IsPath(g, [id]);
    } else {
      var parent :| Lists(nodes, parent, id);
      assert IsEdge(g, parent, id);
      ReachedFromAbove(nodes, rank, bound, parent);
      var p :| IsPath(g, p) && IsParentless(nodes, p[0]) && p[|p| - 1] == parent;
      ExtendPath(g, p, id);
      assert (p + [id])[0] == p[0];
    }
  }

  /** In an acyclic workflow every node is reached, and no cycle is. */
  lemma {:induction false} ReachedFromRoots(nodes: map<string, NodeStatus>)
    requires HasNoCycle(nodes)
    ensures NoCycleReached(nodes) && forall id :: id in nodes <==> Reached(nodes, id)
  {
    var g := GraphOf(nodes);
    GraphOfIsGraph(nodes);
    assert forall n, c :: IsEdge(g, n, c) ==> Lists(nodes, n, c);
    AcyclicExactlyRanked(g);
    var rank :| Ranks(rank, g) && rank.Keys == g.Keys;
    var bound := SomeBound(rank);
    forall id | id in nodes
      ensures Reached(nodes, id)
    {
      ReachedFromAbove(nodes, rank, bound, id);
    }
    forall id | Reached(nodes, id)
      ensures id in nodes
    {
      ReachedIsNode(nodes, id);
    }
  }

  lemma {:induction false} ReachedIsNode(nodes: map<string, NodeStatus>, id: string)
    requires Reached(nodes, id)
    ensures id in nodes
  {
    var g := GraphOf(nodes);
    var p :| IsPath(g, p) && IsParentless(nodes, p[0]) && p[|p| - 1] == id;
    GraphOfIsGraph(nodes);
    if |p| > 1 {
      PathFront(g, p);
      assert Lists(nodes, p[|p| - 2], id);
    }
  }

  /** Two nodes that list each other: a cycle that is not reached, and nothing is drawn. */
  lemma {:induction false} CycleOutOfReach(a: NodeStatus, b: NodeStatus, id: string)
    requires a.children == ["b"] && b.children == ["a"]
    ensures !HasNoCycle(map["a" := a, "b" := b]) && NoCycleReached(map["a" := a, "b" := b])
    ensures !Reached(map["a" := a, "b" := b], id)
  {
    var nodes := map["a" := a, "b" := b];
    var g := GraphOf(nodes);
    GraphOfIsGraph(nodes);
    assert Lists(nodes, "a", "b") && Lists(nodes, "b", "a");
    assert IsStep(g, ["a", "b", "a"], 0) && IsStep(g, ["a", "b", "a"], 1);
    assert IsPath(g, ["a", "b", "a"]);
    assert forall x :: !IsParentless(nodes, x);
  }

  // ---------------------------------------------------------------- what the walk covers

  /** What the walk visits, in terms of the nodes. */
  ghost predicate WalksNodes(visits: seq<Visit>, nodes: map<string, NodeStatus>) {
    && (forall id :: IsVisited(visits, id) <==> Reached(nodes, id))
    && (forall n, c :: Connects(visits, n, c) <==> Reached(nodes, n) && Lists(nodes, n, c))
  }

  lemma {:induction false} WalkCoversNodes(nodes: map<string, NodeStatus>, tasks: seq<Task>, g: Graph,
                                           rank: Ranking, bound: nat)
    requires Agree(nodes, tasks, g) && Walkable(g, rank, Sorted(RootsOf(tasks)), bound)
    ensures WalksNodes(Visits(g, rank, Sorted(RootsOf(tasks)), [], bound), nodes)
  {
    WalkIsExact(g, rank, RootsOf(tasks), bound);
    forall id { ReachedExactly(nodes, tasks, g, id); }
    assert forall n, c :: IsEdge(g, n, c) <==> Lists(nodes, n, c);
  }

  lemma {:induction false} StartWalk(nodes: map<string, NodeStatus>, tasks: seq<Task>, g: Graph)
    returns (rank: Ranking, bound: nat)
    requires NoCycleReached(nodes) && Agree(nodes, tasks, g)
    ensures Walkable(g, rank, Sorted(RootsOf(tasks)), bound)
    ensures WalksNodes(Visits(g, rank, Sorted(RootsOf(tasks)), [], bound), nodes)
  {
    TreeIsClosed(nodes, tasks, g);
    CyclesExactly(nodes, tasks, g);
    rank := RankThePart(g, RootsOf(tasks));
    bound := SomeBound(rank);
    SortedKeepsMembers(RootsOf(tasks));
    forall i | 0 <= i < |Sorted(RootsOf(tasks))|
      ensures Sorted(RootsOf(tasks))[i] in rank
    {
      assert Sorted(RootsOf(tasks))[i] in RootsOf(tasks);
    }
    WalkCoversNodes(nodes, tasks, g, rank, bound);
  }

  // ---------------------------------------------------------------- what is drawn

  /** A node that only wraps others and that no node lists. */
  ghost predicate IsRedundant(nodes: map<string, NodeStatus>, id: string) {
    IsParentless(nodes, id) && (nodes[id].stepType == "DAG" || nodes[id].stepType == "Steps")
  }

  function RedundantIds(tasks: seq<Task>): set<string> {
    set i | 0 <= i < |tasks| && IsRedundantStep(tasks[i].node.stepType, tasks[i].depends) :: tasks[i].id
  }

  lemma {:induction false} NoParentsNoDepends(nodes: map<string, NodeStatus>, g: Graph, task: Task)
    requires IsGraphOf(g, nodes) && DependsOnParents(g, task)
    ensures task.depends == [] <==> forall p :: !Lists(nodes, p, task.id)
  {
    forall p
      ensures p in task.depends <==> Lists(nodes, p, task.id)
    {
      assert IsEdge(g, p, task.id) <==> Lists(nodes, p, task.id);
    }
    assert task.depends != [] ==> task.depends[0] in task.depends;
  }

  lemma {:induction false} RedundantExactly(nodes: map<string, NodeStatus>, tasks: seq<Task>, g: Graph, id: string)
    requires Agree(nodes, tasks, g)
    ensures id in RedundantIds(tasks) <==> IsRedundant(nodes, id)
  {
    if id in RedundantIds(tasks) {
      var i :| 0 <= i < |tasks| && IsRedundantStep(tasks[i].node.stepType, tasks[i].depends) && tasks[i].id == id;
      NoParentsNoDepends(nodes, g, tasks[i]);
    }
    if IsRedundant(nodes, id) {
      assert HasId(tasks, id);
      var i :| 0 <= i < |tasks| && tasks[i].id == id;
      NoParentsNoDepends(nodes, g, tasks[i]);
    }
  }

  /** All reached nodes but the redundant ones, once each. */
  ghost predicate NodesDrawn(drawn: seq<string>, nodes: map<string, NodeStatus>) {
    EachOnce(drawn) && forall id :: id in drawn <==> Reached(nodes, id) && !IsRedundant(nodes, id)
  }

  /** The reached node lists the child. */
  ghost predicate ReachedLists(nodes: map<string, NodeStatus>, n: string, c: string) {
    Reached(nodes, n) && Lists(nodes, n, c)
  }

  /** Every drawn edge leads from a reached node to one of its listed children, which is drawn too; no id twice. */
  ghost predicate EdgesDrawn(edges: seq<Edge>, drawn: seq<string>, nodes: map<string, NodeStatus>) {
    && EdgesOnce(edges) && Labelled(edges)
    && forall n, c :: HasEnds(edges, n, c) ==> ReachedLists(nodes, n, c) && c in drawn
  }

  ghost predicate AllEdgesDrawn(edges: seq<Edge>, nodes: map<string, NodeStatus>) {
    forall n, c :: ReachedLists(nodes, n, c) ==> HasEnds(edges, n, c)
  }

  /** Two listed children whose edges read the same with a hyphen between their ends. */
  ghost predicate EdgeIdsCollide(nodes: map<string, NodeStatus>) {
    exists n, c, m, d ::
      && ReachedLists(nodes, n, c) && ReachedLists(nodes, m, d)
      && n + "-" + c == m + "-" + d && (n != m || c != d)
  }

  /** The reached nodes without children, once each. */
  ghost predicate OutputsFound(outputs: seq<string>, nodes: map<string, NodeStatus>) {
    EachOnce(outputs) && forall id :: id in outputs <==> Reached(nodes, id) && forall c :: !Lists(nodes, id, c)
  }

  lemma {:induction false} NodesAreRight(nodes: map<string, NodeStatus>, tasks: seq<Task>, g: Graph, visits: seq<Visit>)
    requires Agree(nodes, tasks, g) && WalksNodes(visits, nodes)
    ensures NodesDrawn(DrawNodes([], visits, RedundantIds(tasks)), nodes)
  {
    NodesAreExact([], visits, RedundantIds(tasks));
    forall id { RedundantExactly(nodes, tasks, g, id); }
  }

  lemma {:induction false} EdgesAreRight(nodes: map<string, NodeStatus>, drawn: seq<string>, visits: seq<Visit>)
    requires WalksNodes(visits, nodes) && NodesDrawn(drawn, nodes)
    ensures EdgesDrawn(DrawEdges([], visits), drawn, nodes)
    ensures AllEdgesDrawn(DrawEdges([], visits), nodes) <==> !EdgeIdsCollide(nodes)
  {
    var edges := DrawEdges([], visits);
    EdgesAreExact([], visits);
    AllDrawnUnlessIdsCollide(visits);
    assert forall n, c :: Connects(visits, n, c) <==> ReachedLists(nodes, n, c);
    assert IdsCollide(visits) <==> EdgeIdsCollide(nodes);
    forall n, c | HasEnds(edges, n, c)
      ensures ReachedLists(nodes, n, c) && c in drawn
    {
      assert Connects(visits, n, c);
      ConnectedIsVisited(visits, n, c);
      assert !IsParentless(nodes, c);
    }
  }

  lemma ConnectedIsVisited(visits: seq<Visit>, n: string, c: string)
    requires Connects(visits, n, c)
    ensures IsVisited(visits, c)
  {
  }

  lemma {:induction false} Childless(nodes: map<string, NodeStatus>, g: Graph, id: string)
    requires IsGraphOf(g, nodes) && id in nodes
    ensures g[id] == [] <==> forall c :: !Lists(nodes, id, c)
  {
    forall c
      ensures c in g[id] <==> Lists(nodes, id, c)
    {
      assert IsEdge(g, id, c) <==> Lists(nodes, id, c);
    }
    assert g[id] != [] ==> g[id][0] in g[id];
  }

  lemma {:induction false} OutputsAreRight(nodes: map<string, NodeStatus>, g: Graph, visits: seq<Visit>)
    requires IsGraphOf(g, nodes) && WalksNodes(visits, nodes)
    ensures OutputsFound(CollectOutputs([], visits, g), nodes)
  {
    OutputsAreExact([], visits, g);
    forall id | id in nodes { Childless(nodes, g, id); }
    forall id | Reached(nodes, id) { ReachedIsNode(nodes, id); }
  }

  /**
   The nodes of a workflow, sent and drawn, when no cycle is reached: every reached node but the redundant roots is
   drawn once; the edges are the listed children of the reached nodes, all of them exactly if no two of them read the
   same, written with a hyphen between parent and child; the outputs are the reached nodes without children. In an
   acyclic workflow every node is reached.
   */
  method DrawWorkflow(nodes: map<string, NodeStatus>)
    returns (drawn: seq<string>, edges: seq<Edge>, outputs: seq<string>)
    requires NoCycleReached(nodes)
    ensures NodesDrawn(drawn, nodes)
    ensures EdgesDrawn(edges, drawn, nodes) && (AllEdgesDrawn(edges, nodes) <==> !EdgeIdsCollide(nodes))
    ensures OutputsFound(outputs, nodes)
    ensures HasNoCycle(nodes) ==> forall id :: id in nodes <==> Reached(nodes, id)
  {
    if HasNoCycle(nodes) { ReachedFromRoots(nodes); }
    var tasks := IntoTasks(nodes);
    var tree := BuildTree(nodes, tasks);
    var redundant := RedundantIds(tasks);
    ghost var rank, bound := StartWalk(nodes, tasks, tree.children);
    ghost var visits := Visits(tree.children, rank, Sorted(tree.roots), [], bound);
    NodesAreRight(nodes, tasks, tree.children, visits);
    EdgesAreRight(nodes, DrawNodes([], visits, redundant), visits);
    OutputsAreRight(nodes, tree.children, visits);
    drawn, edges, outputs := WalkTree(tree, redundant, rank, bound);
  }

  method BuildTree(nodes: map<string, NodeStatus>, tasks: seq<Task>) returns (tree: Tree)
    requires TasksOf(nodes, tasks)
    ensures Agree(nodes, tasks, tree.children) && tree.roots == RootsOf(tasks)
  {
    InvertingTwice(nodes, tasks);
    var built := BuildTaskTree(tasks);
    tree := built.value;
    TreeAgrees(nodes, tasks, tree.children);
  }

  method WalkTree(tree: Tree, redundant: set<string>, ghost rank: Ranking, ghost bound: nat)
    returns (drawn: seq<string>, edges: seq<Edge>, outputs: seq<string>)
    requires Walkable(tree.children, rank, Sorted(tree.roots), bound)
    ensures var visits := Visits(tree.children, rank, Sorted(tree.roots), [], bound);
            drawn == DrawNodes([], visits, redundant) && edges == DrawEdges([], visits)
            && outputs == CollectOutputs([], visits, tree.children)
  {
    var drawing := new Drawing();
    drawing.Traverse(tree.children, tree.roots, [], redundant, rank, bound);
    var found := new Outputs();
    found.Traverse(tree.children, tree.roots, [], rank, bound);
    drawn, edges, outputs := drawing.nodes, drawing.edges, found.ids;
  }

  // ---------------------------------------------------------------- an edge that is lost

  /** A workflow of four nodes: "a-b" lists "c", and "a" lists "b-c". */
  function HyphenatedNodes(): map<string, NodeStatus> {
    map["a-b" := NodeStatus("", "Pod", ["c"]), "a" := NodeStatus("", "Pod", ["b-c"]),
        "c" := NodeStatus("", "Pod", []), "b-c" := NodeStatus("", "Pod", [])]
  }

  lemma HyphenatedLists(n: string, c: string)
    ensures Lists(HyphenatedNodes(), n, c) <==> (n, c) in {("a-b", "c"), ("a", "b-c")}
  {
  }

  lemma HyphenatedReached(id: string)
    requires id in {"a-b", "a"}
    ensures Reached(HyphenatedNodes(), id)
  {
    var nodes := HyphenatedNodes();
    forall p ensures !Lists(nodes, p, id) { HyphenatedLists(p, id); }
    assert IsPath(GraphOf(nodes), [id]);
  }

  lemma {:induction false} HyphenatedHasNoCycle()
    ensures HasNoCycle(HyphenatedNodes()) && NoCycleReached(HyphenatedNodes())
  {
    var nodes := HyphenatedNodes();
    var g, rank := GraphOf(nodes), map["a-b" := 1, "a" := 1, "c" := 0, "b-c" := 0];
    GraphOfIsGraph(nodes);
    forall n, c | IsEdge(g, n, c)
      ensures c in g && c in rank && n in rank && rank[c] < rank[n]
    {
      HyphenatedLists(n, c);
    }
    assert Ranks(rank, g) && rank.Keys == g.Keys;
    AcyclicExactlyRanked(g);
    ReachedFromRoots(nodes);
  }

  /** It is acyclic, and however it is walked, one of its two listed children is left without an edge. */
  lemma {:induction false} AnEdgeIsLost(visits: seq<Visit>)
    requires WalksNodes(visits, HyphenatedNodes())
    ensures HasNoCycle(HyphenatedNodes()) && EdgeIdsCollide(HyphenatedNodes())
    ensures !AllEdgesDrawn(DrawEdges([], visits), HyphenatedNodes())
  {
    var nodes := HyphenatedNodes();
    HyphenatedHasNoCycle();
    assert "a-b" + "-" + "c" == "a-b-c" == "a" + "-" + "b-c";
    HyphenatedLists("a-b", "c");
    HyphenatedLists("a", "b-c");
    HyphenatedReached("a-b");
    HyphenatedReached("a");
    assert ReachedLists(nodes, "a-b", "c") && ReachedLists(nodes, "a", "b-c");
    AllDrawnUnlessIdsCollide(visits);
    assert Connects(visits, "a-b", "c") && Connects(visits, "a", "b-c");
    assert IdsCollide(visits);
    var n, c :| Connects(visits, n, c) && !HasEnds(DrawEdges([], visits), n, c);
    assert ReachedLists(nodes, n, c);
  }
}
