/** Directed graphs given by lists of children: paths, cycles, ranks, and how deep a walk goes. */
module TaskGraphs {

  type Graph = map<string, seq<string>>

  ghost predicate IsEdge(g: Graph, n: string, c: string) {
    n in g && c in g[n]
  }

  ghost predicate Closed(g: Graph) {
    forall n, c :: IsEdge(g, n, c) ==> c in g
  }

  ghost predicate IsStep(g: Graph, p: seq<string>, i: int)
    requires 0 <= i < |p| - 1
  {
    IsEdge(g, p[i], p[i + 1])
  }

  ghost predicate IsPath(g: Graph, p: seq<string>) {
    p != [] && p[0] in g && forall i :: 0 <= i < |p| - 1 ==> IsStep(g, p, i)
  }

  /** Some path leads there from one of the starting points. */
  ghost predicate Reachable(g: Graph, starts: seq<string>, x: string) {
    exists p :: IsPath(g, p) && p[0] in starts && p[|p| - 1] == x
  }

  ghost predicate Acyclic(g: Graph) {
    forall p :: IsPath(g, p) && |p| > 1 ==> p[0] != p[|p| - 1]
  }

  type Ranking = map<string, nat>

  /** Some nodes are ranked; with a node its children are, and below it. */
  ghost predicate Ranks(rank: Ranking, g: Graph) {
    rank.Keys <= g.Keys && forall n, c :: n in rank && IsEdge(g, n, c) ==> c in rank && rank[c] < rank[n]
  }

  lemma {:induction false} RankFallsAlongPaths(rank: Ranking, g: Graph, p: seq<string>)
    requires Ranks(rank, g) && IsPath(g, p) && p[0] in rank
    ensures p[|p| - 1] in rank && (|p| > 1 ==> rank[p[|p| - 1]] < rank[p[0]])
    decreases |p|
  {
    if |p| > 1 {
      assert IsStep(g, p, 0);
      TailIsPath(g, p, 1);
      RankFallsAlongPaths(rank, g, p[1..]);
    }
  }

  // ---------------------------------------------------------------- an acyclic graph has a sink

  ghost predicate Distinct(p: seq<string>) {
    forall i, j :: 0 <= i < j < |p| ==> p[i] != p[j]
  }

  ghost predicate Within(p: seq<string>, nodes: set<string>) {
    forall i :: 0 <= i < |p| ==> p[i] in nodes
  }

  lemma {:induction false} DistinctFit(p: seq<string>, nodes: set<string>)
    requires Distinct(p) && Within(p, nodes)
    ensures |p| <= |nodes|
  {
    if p != [] {
      DistinctFit(p[1..], nodes - {p[0]});
    }
  }

  ghost predicate IsSink(g: Graph, nodes: set<string>, n: string) {
    n in nodes && n in g && forall c :: c in g[n] ==> c !in nodes
  }

  lemma {:induction false} TailIsPath(g: Graph, p: seq<string>, i: int)
    requires IsPath(g, p) && 0 <= i < |p| && p[i] in g
    ensures IsPath(g, p[i..])
  {
    var tail := p[i..];
    forall k | 0 <= k < |tail| - 1
      ensures IsStep(g, tail, k)
    {
      assert IsStep(g, p, i + k);
    }
  }

  lemma {:induction false} ExtendPath(g: Graph, p: seq<string>, c: string)
    requires IsPath(g, p) && IsEdge(g, p[|p| - 1], c)
    ensures IsPath(g, p + [c])
  {
    var longer := p + [c];
    forall i | 0 <= i < |longer| - 1
      ensures IsStep(g, longer, i)
    {
      if i < |p| - 1 { assert IsStep(g, p, i); }
    }
  }

  /** A path that comes back to one of its nodes holds a cycle. */
  lemma {:induction false} BackToTheStart(g: Graph, p: seq<string>, c: string)
    requires IsPath(g, p) && |p| > 1 && p[|p| - 1] == c && c in p[..|p| - 1] && c in g
    ensures !Acyclic(g)
  {
    var i :| 0 <= i < |p| - 1 && p[i] == c;
    TailIsPath(g, p, i);
    var cycle := p[i..];
    assert |cycle| > 1 && cycle[0] == cycle[|cycle| - 1];
  }

  /** Walking on from a path of distinct nodes ends at a node with no child among the nodes. */
  lemma {:induction false} WalkToSink(g: Graph, nodes: set<string>, p: seq<string>) returns (sink: string)
    requires Acyclic(g) && nodes <= g.Keys
    requires IsPath(g, p) && Distinct(p) && Within(p, nodes)
    ensures IsSink(g, nodes, sink)
    decreases |nodes| - |p|
  {
    DistinctFit(p, nodes);
    sink := p[|p| - 1];
    if !IsSink(g, nodes, sink) {
      var c :| c in g[sink] && c in nodes;
      ExtendPath(g, p, c);
      var longer := p + [c];
      assert c !in p by {
        if c in p { BackToTheStart(g, longer, c); }
      }
      DistinctFit(longer, nodes);
      sink := WalkToSink(g, nodes, longer);
    }
  }

  lemma {:induction false} HasSink(g: Graph, nodes: set<string>) returns (sink: string)
    requires Acyclic(g) && nodes <= g.Keys && nodes != {}
    ensures IsSink(g, nodes, sink)
  {
    var n :| n in nodes;
    sink := WalkToSink(g, nodes, [n]);
  }

  /** Taking away sinks one by one ranks the nodes. */
  lemma {:induction false} RankNodes(g: Graph, nodes: set<string>) returns (rank: Ranking)
    requires Acyclic(g) && nodes <= g.Keys
    ensures rank.Keys == nodes
    ensures forall n, c :: n in nodes && c in nodes && IsEdge(g, n, c) ==> rank[c] < rank[n]
    decreases |nodes|
  {
    if nodes == {} {
      rank := map[];
    } else {
      var sink := HasSink(g, nodes);
      var lower := RankNodes(g, nodes - {sink});
      rank := map n | n in nodes :: if n == sink then 0 else lower[n] + 1;
    }
  }

  /** A closed graph has no cycle exactly if all its nodes can be ranked so that every edge goes down. */
  lemma AcyclicExactlyRanked(g: Graph)
    requires Closed(g)
    ensures Acyclic(g) <==> exists rank :: Ranks(rank, g) && rank.Keys == g.Keys
  {
    if Acyclic(g) {
      var rank := RankNodes(g, g.Keys);
      assert Ranks(rank, g);
    }
    if exists rank :: Ranks(rank, g) && rank.Keys == g.Keys {
      var rank :| Ranks(rank, g) && rank.Keys == g.Keys;
      forall p | IsPath(g, p) && |p| > 1
        ensures p[0] != p[|p| - 1]
      {
        RankFallsAlongPaths(rank, g, p);
      }
    }
  }

  // ---------------------------------------------------------------- reachability

  lemma ReachStart(g: Graph, starts: seq<string>, x: string)
    requires x in starts && x in g
    ensures Reachable(g, starts, x)
  {
    assert IsPath(g, [x]);
  }

  lemma {:induction false} ReachChild(g: Graph, starts: seq<string>, n: string, c: string)
    requires Reachable(g, starts, n) && IsEdge(g, n, c)
    ensures Reachable(g, starts, c)
  {
    var p :| IsPath(g, p) && p[0] in starts && p[|p| - 1] == n;
    ExtendPath(g, p, c);
    assert (p + [c])[0] == p[0];
  }

  /** What is reachable from a child is reachable from the parent. */
  lemma {:induction false} ReachThrough(g: Graph, starts: seq<string>, n: string, x: string)
    requires n in starts && n in g && Reachable(g, g[n], x)
    ensures Reachable(g, starts, x)
  {
    var p :| IsPath(g, p) && p[0] in g[n] && p[|p| - 1] == x;
    var longer := [n] + p;
    forall i | 0 <= i < |longer| - 1
      ensures IsStep(g, longer, i)
    {
      if i > 0 { assert IsStep(g, p, i - 1); }
    }
    assert IsPath(g, longer) && longer[|longer| - 1] == x;
  }

  /** The other way: a reachable node is a starting point or reachable from a starting point's children. */
  lemma {:induction false} ReachSplit(g: Graph, starts: seq<string>, x: string)
    requires Reachable(g, starts, x) && x in g
    ensures x in starts || exists n :: n in starts && n in g && Reachable(g, g[n], x)
  {
    var p :| IsPath(g, p) && p[0] in starts && p[|p| - 1] == x;
    if |p| > 1 {
      assert IsStep(g, p, 0);
      assert |p| > 2 ==> IsStep(g, p, 1);
      TailIsPath(g, p, 1);
      assert Reachable(g, g[p[0]], x);
    }
  }

  lemma {:induction false} PathFront(g: Graph, p: seq<string>)
    requires IsPath(g, p) && |p| >= 2
    ensures IsPath(g, p[..|p| - 1]) && IsEdge(g, p[|p| - 2], p[|p| - 1])
  {
    var front := p[..|p| - 1];
    assert IsStep(g, p, |p| - 2);
    forall i | 0 <= i < |front| - 1
      ensures IsStep(g, front, i)
    {
      assert IsStep(g, p, i);
    }
  }

  /** From the end: a reachable node is a starting point or a child of a reachable node. */
  lemma {:induction false} ReachLast(g: Graph, starts: seq<string>, x: string)
    requires Reachable(g, starts, x)
    ensures (x in starts && x in g) || exists n :: Reachable(g, starts, n) && IsEdge(g, n, x)
  {
    var p :| IsPath(g, p) && p[0] in starts && p[|p| - 1] == x;
    if |p| > 1 {
      PathFront(g, p);
      var front := p[..|p| - 1];
      assert front[0] in starts && front[|front| - 1] == p[|p| - 2];
      assert Reachable(g, starts, p[|p| - 2]);
    }
  }

  // ---------------------------------------------------------------- cycles that are reached

  /** No cycle can be reached from the starting points. */
  ghost predicate NoCycleFrom(g: Graph, starts: seq<string>) {
    forall p :: IsPath(g, p) && |p| > 1 && Reachable(g, starts, p[0]) ==> p[0] != p[|p| - 1]
  }

  ghost predicate AllRanked(rank: Ranking, g: Graph, starts: seq<string>) {
    Ranks(rank, g) && forall x :: x in starts ==> x in rank
  }

  /** The part of the graph that is reachable. */
  ghost function ReachedPart(g: Graph, starts: seq<string>): Graph {
    map n | n in g && Reachable(g, starts, n) :: g[n]
  }

  lemma {:induction false} PartIsAcyclic(g: Graph, starts: seq<string>)
    requires NoCycleFrom(g, starts)
    ensures Acyclic(ReachedPart(g, starts))
  {
    var part := ReachedPart(g, starts);
    forall p | IsPath(part, p) && |p| > 1
      ensures p[0] != p[|p| - 1]
    {
      forall i | 0 <= i < |p| - 1
        ensures IsStep(g, p, i)
      {
        assert IsStep(part, p, i);
      }
      assert IsPath(g, p);
    }
  }

  lemma {:induction false} RankThePart(g: Graph, starts: seq<string>) returns (rank: Ranking)
    requires Closed(g) && NoCycleFrom(g, starts) && forall x :: x in starts ==> x in g
    ensures AllRanked(rank, g, starts)
  {
    var part := ReachedPart(g, starts);
    PartIsAcyclic(g, starts);
    rank := RankNodes(part, part.Keys);
    forall n, c | n in rank && IsEdge(g, n, c)
      ensures c in rank && rank[c] < rank[n]
    {
      ReachChild(g, starts, n, c);
      assert IsEdge(part, n, c);
    }
    forall x | x in starts
      ensures x in rank
    {
      ReachStart(g, starts, x);
    }
  }

  /** The part reachable from the starting points can be ranked exactly if no cycle can be reached from them. */
  lemma {:induction false} RankedExactlyWithoutCycle(g: Graph, starts: seq<string>)
    requires Closed(g) && forall x :: x in starts ==> x in g
    ensures NoCycleFrom(g, starts) <==> exists rank :: AllRanked(rank, g, starts)
  {
    if NoCycleFrom(g, starts) {
      var rank := RankThePart(g, starts);
    }
    if exists rank :: AllRanked(rank, g, starts) {
      var rank :| AllRanked(rank, g, starts);
      forall p | IsPath(g, p) && |p| > 1 && Reachable(g, starts, p[0])
        ensures p[0] != p[|p| - 1]
      {
        var q :| IsPath(g, q) && q[0] in starts && q[|q| - 1] == p[0];
        RankFallsAlongPaths(rank, g, q);
        RankFallsAlongPaths(rank, g, p);
      }
    }
  }

  // ---------------------------------------------------------------- how deep a walk goes

  /** A walk that calls itself on the children of each node it comes to makes so many nested calls. */
  ghost predicate Nests(g: Graph, ids: seq<string>, depth: nat)
    decreases depth
  {
    depth == 0 || exists n :: n in ids && n in g && g[n] != [] && Nests(g, g[n], depth - 1)
  }

  lemma {:induction false} PathNests(g: Graph, ids: seq<string>, p: seq<string>, depth: nat)
    requires IsPath(g, p) && p[0] in ids && |p| > depth
    ensures Nests(g, ids, depth)
    decreases depth
  {
    if depth > 0 {
      assert IsStep(g, p, 0);
      if depth > 1 {
        assert IsStep(g, p, 1);
        TailIsPath(g, p, 1);
        PathNests(g, g[p[0]], p[1..], depth - 1);
      }
    }
  }

  lemma {:induction false} JoinPaths(g: Graph, p: seq<string>, q: seq<string>)
    requires IsPath(g, p) && IsPath(g, q) && p[|p| - 1] == q[0]
    ensures IsPath(g, p + q[1..])
  {
    var all := p + q[1..];
    forall i | 0 <= i < |all| - 1
      ensures IsStep(g, all, i)
    {
      if i < |p| - 1 { assert IsStep(g, p, i); } else { assert IsStep(g, q, i - (|p| - 1)); }
    }
  }

  /** Going round a cycle makes a path as long as one likes. */
  lemma {:induction false} RoundAndRound(g: Graph, p: seq<string>, cycle: seq<string>, depth: nat)
    returns (q: seq<string>)
    requires IsPath(g, p) && IsPath(g, cycle) && |cycle| > 1
    requires p[|p| - 1] == cycle[0] == cycle[|cycle| - 1]
    ensures IsPath(g, q) && q[0] == p[0] && |q| > depth
    decreases depth + 1 - |p|
  {
    if |p| > depth {
      q := p;
    } else {
      JoinPaths(g, p, cycle);
      q := RoundAndRound(g, p + cycle[1..], cycle, depth);
    }
  }

  lemma {:induction false} RankBoundsDepth(g: Graph, rank: Ranking, ids: seq<string>, bound: nat)
    requires Ranks(rank, g) && forall x :: x in ids ==> x in rank && rank[x] < bound
    ensures !Nests(g, ids, bound + 1)
    decreases bound
  {
    if Nests(g, ids, bound + 1) {
      var n :| n in ids && n in g && g[n] != [] && Nests(g, g[n], bound);
      assert bound > 0;
      forall c | c in g[n]
        ensures c in rank && rank[c] < bound - 1
      {
        assert IsEdge(g, n, c);
      }
      RankBoundsDepth(g, rank, g[n], bound - 1);
    }
  }

  lemma {:induction false} SomeBound(rank: Ranking) returns (bound: nat)
    ensures forall n :: n in rank ==> rank[n] < bound
    decreases |rank|
  {
    if rank == map[] {
      bound := 0;
    } else {
      var n :| n in rank;
      var rest := rank - {n};
      bound := SomeBound(rest);
      if bound <= rank[n] { bound := rank[n] + 1; }
      assert forall m :: m in rank && m != n ==> m in rest && rest[m] == rank[m];
    }
  }

  /** The walk without visited set nests its calls no deeper than some bound, and so ends, exactly if no cycle can be
      reached from where it starts. */
  lemma {:induction false} WalkEndsExactlyWithoutCycle(g: Graph, starts: seq<string>)
    requires Closed(g) && forall x :: x in starts ==> x in g
    ensures (exists depth :: !Nests(g, starts, depth)) <==> NoCycleFrom(g, starts)
  {
    if NoCycleFrom(g, starts) {
      var rank := RankThePart(g, starts);
      var bound := SomeBound(rank);
      RankBoundsDepth(g, rank, starts, bound);
      assert !Nests(g, starts, bound + 1);
    } else {
      var cycle :| IsPath(g, cycle) && |cycle| > 1 && Reachable(g, starts, cycle[0]) && cycle[0] == cycle[|cycle| - 1];
      var p :| IsPath(g, p) && p[0] in starts && p[|p| - 1] == cycle[0];
      forall depth: nat
        ensures Nests(g, starts, depth)
      {
        var q := RoundAndRound(g, p, cycle, depth);
        PathNests(g, starts, q, depth);
      }
    }
  }

  /** A task that is its own child, below a root: the walk nests without bound. */
  lemma {:induction false} WalkWithoutEnd(depth: nat)
    ensures Nests(map["r" := ["a"], "a" := ["a"]], ["r"], depth)
  {
    var g := map["r" := ["a"], "a" := ["a"]];
    assert IsStep(g, ["r", "a"], 0) && IsStep(g, ["a", "a"], 0);
    var q := RoundAndRound(g, ["r", "a"], ["a", "a"], depth);
    PathNests(g, ["r"], q, depth);
  }
}
