// The bounded walk over one L3 hypergraph: internal/graph/query.go and QueryL3Subgraph of internal/l3query.go.
module GraphWalks {
  import opened Common

  type NodeId = nat

  datatype Edge = Edge(id: nat, kind: nat, nodes: seq<NodeId>)

  type Adjacency = map<NodeId, set<NodeId>>

  function Nbrs(adj: Adjacency, a: NodeId): set<NodeId> { if a in adj then adj[a] else {} }

  predicate Kept(kinds: seq<nat>, e: Edge) { kinds == [] || e.kind in kinds }

  /** Two different nodes of one hyperedge that passes the kind filter. */
  ghost predicate Adjacent(edges: seq<Edge>, kinds: seq<nat>, a: NodeId, b: NodeId)
  {
    a != b && exists e :: e in edges && (kinds == [] || e.kind in kinds) && a in e.nodes && b in e.nodes
  }

  // ---- Adjacency ----

  ghost predicate PairBefore(nodes: seq<NodeId>, i: nat, j: nat, a: NodeId, b: NodeId)
  {
    exists k: nat, l: nat :: k < l < |nodes| && (k < i || (k == i && l < j)) && ((nodes[k] == a && nodes[l] == b) || (nodes[k] == b && nodes[l] == a))
  }

  function Link(adj: Adjacency, a: NodeId, b: NodeId): Adjacency { adj[a := Nbrs(adj, a) + {b}] }

  /** connectNodes: the members of a hyperedge fully connected, both ways, nobody to itself. */
  method ConnectNodes(adj0: Adjacency, nodes: seq<NodeId>) returns (adj: Adjacency)
    ensures forall a: NodeId, b: NodeId {:trigger b in Nbrs(adj, a)} ::
              b in Nbrs(adj, a) <==> b in Nbrs(adj0, a) || (a != b && a in nodes && b in nodes)
  {
    adj := adj0;
    for i := 0 to |nodes|
      invariant forall a: NodeId, b: NodeId :: b in Nbrs(adj, a) <==> b in Nbrs(adj0, a) || (a != b && PairBefore(nodes, i, 0, a, b))
    {
      RowStarts(nodes, i);
      for j := i + 1 to |nodes|
        invariant forall a: NodeId, b: NodeId :: b in Nbrs(adj, a) <==> b in Nbrs(adj0, a) || (a != b && PairBefore(nodes, i, j, a, b))
      {
        PairNext(nodes, i, j);
        hide PairBefore;
        LinkBoth(adj, nodes[i], nodes[j]);
        if nodes[i] != nodes[j] {
          adj := Link(Link(adj, nodes[i], nodes[j]), nodes[j], nodes[i]);
        }
      }
      RowEnds(nodes, i);
    }
    AllPairs(nodes);
  }

  lemma {:induction false} LinkBoth(adj: Adjacency, x: NodeId, y: NodeId)
    ensures forall a: NodeId, b: NodeId :: b in Nbrs(Link(Link(adj, x, y), y, x), a) <==> b in Nbrs(adj, a) || (a == x && b == y) || (a == y && b == x)
  {
  }

  lemma {:induction false} RowStarts(nodes: seq<NodeId>, i: nat)
    ensures forall a: NodeId, b: NodeId :: PairBefore(nodes, i, i + 1, a, b) <==> PairBefore(nodes, i, 0, a, b)
  {
    forall a: NodeId, b: NodeId
      ensures PairBefore(nodes, i, i + 1, a, b) <==> PairBefore(nodes, i, 0, a, b)
    {
    }
  }

  lemma {:induction false} PairNext(nodes: seq<NodeId>, i: nat, j: nat)
    requires i < j < |nodes|
    ensures forall a: NodeId, b: NodeId :: PairBefore(nodes, i, j + 1, a, b) <==>
              PairBefore(nodes, i, j, a, b) || (nodes[i] == a && nodes[j] == b) || (nodes[i] == b && nodes[j] == a)
  {
    forall a: NodeId, b: NodeId
      ensures PairBefore(nodes, i, j + 1, a, b) <==>
              PairBefore(nodes, i, j, a, b) || (nodes[i] == a && nodes[j] == b) || (nodes[i] == b && nodes[j] == a)
    {
    }
  }

  lemma {:induction false} RowEnds(nodes: seq<NodeId>, i: nat)
    requires i < |nodes|
    ensures forall a: NodeId, b: NodeId :: PairBefore(nodes, i, |nodes|, a, b) <==> PairBefore(nodes, i + 1, 0, a, b)
  {
    forall a: NodeId, b: NodeId
      ensures PairBefore(nodes, i, |nodes|, a, b) <==> PairBefore(nodes, i + 1, 0, a, b)
    {
    }
  }

  lemma {:induction false} AllPairs(nodes: seq<NodeId>)
    ensures forall a: NodeId, b: NodeId :: a != b ==> (PairBefore(nodes, |nodes|, 0, a, b) <==> a in nodes && b in nodes)
  {
    forall a: NodeId, b: NodeId | a != b && a in nodes && b in nodes
      ensures PairBefore(nodes, |nodes|, 0, a, b)
    {
      var k: nat :| k < |nodes| && nodes[k] == a;
      var l: nat :| l < |nodes| && nodes[l] == b;
      if l < k {
        assert nodes[l] == b && nodes[k] == a;
      }
    }
  }

  /** SubgraphAdjacency: the edges the filter keeps, and exactly the neighbours they make. */
  method SubgraphAdjacency(edges: seq<Edge>, kinds: seq<nat>) returns (adj: Adjacency, kept: seq<Edge>)
    ensures forall e :: e in kept <==> e in edges && Kept(kinds, e)
    ensures forall a: NodeId, b: NodeId :: b in Nbrs(adj, a) <==> Adjacent(edges, kinds, a, b)
  {
    adj, kept := map[], [];
    for i := 0 to |edges|
      invariant forall e :: e in kept <==> e in edges[..i] && Kept(kinds, e)
      invariant forall a: NodeId, b: NodeId :: b in Nbrs(adj, a) <==> Adjacent(edges[..i], kinds, a, b)
    {
      hide Adjacent;
      assert edges[..i + 1] == edges[..i] + [edges[i]];
      ghost var was := adj;
      if Kept(kinds, edges[i]) {
        kept := kept + [edges[i]];
        adj := ConnectNodes(adj, edges[i].nodes);
      }
      forall a: NodeId, b: NodeId
        ensures b in Nbrs(adj, a) <==> Adjacent(edges[..i + 1], kinds, a, b)
      {
        OneEdgeMore(edges, kinds, i, a, b);
        assert b in Nbrs(was, a) <==> Adjacent(edges[..i], kinds, a, b);
      }
    }
    assert edges[..|edges|] == edges;
  }

  lemma {:induction false} OneEdgeMore(edges: seq<Edge>, kinds: seq<nat>, i: nat, a: NodeId, b: NodeId)
    requires i < |edges|
    ensures Adjacent(edges[..i + 1], kinds, a, b) <==>
            Adjacent(edges[..i], kinds, a, b) || (Kept(kinds, edges[i]) && a != b && a in edges[i].nodes && b in edges[i].nodes)
  {
    assert edges[..i + 1] == edges[..i] + [edges[i]];
    assert edges[i] in edges[..i + 1];
    if Adjacent(edges[..i], kinds, a, b) {
      var e :| e in edges[..i] && Kept(kinds, e) && a in e.nodes && b in e.nodes;
      assert e in edges[..i + 1];
    }
  }

  // ---- The walk ----

  /** x is at most n hops from start. */
  ghost predicate Within(adj: Adjacency, start: NodeId, n: nat, x: NodeId)
    decreases n
  {
    if n == 0 then x == start
    else Within(adj, start, n - 1, x) || exists y: NodeId :: Within(adj, start, n - 1, y) && x in Nbrs(adj, y)
  }

  ghost predicate Reaches(adj: Adjacency, start: NodeId, x: NodeId) { exists n: nat :: Within(adj, start, n, x) }

  ghost function Known(adj: Adjacency, start: NodeId): set<NodeId> { {start} + (set a, b | a in adj && b in adj[a] :: b) }

  /** One round: every unvisited neighbour of the queue is visited and queued for the next round. */
  method Expand(adj: Adjacency, queue: seq<NodeId>, seen: set<NodeId>) returns (visited: set<NodeId>, next: seq<NodeId>)
    ensures forall x :: x in visited <==> x in seen || exists y :: y in queue && x in Nbrs(adj, y)
    ensures forall x :: x in next <==> x in visited && x !in seen
  {
    visited, next := seen, [];
    for i := 0 to |queue|
      invariant forall x :: x in visited <==> x in seen || exists y :: y in queue[..i] && x in Nbrs(adj, y)
      invariant forall x :: x in next <==> x in visited && x !in seen
    {
      assert queue[..i + 1] == queue[..i] + [queue[i]];
      var todo := Nbrs(adj, queue[i]);
      ghost var was := visited;
      while todo != {}
        invariant todo <= Nbrs(adj, queue[i])
        invariant forall x :: x in visited <==> x in was || (x in Nbrs(adj, queue[i]) && x !in todo)
        invariant forall x :: x in next <==> x in visited && x !in seen
        decreases |todo|
      {
        var nb :| nb in todo;
        if nb !in visited {
          visited, next := visited + {nb}, next + [nb];
        }
        todo := todo - {nb};
      }
      assert queue[i] in queue[..i + 1];
    }
    assert queue[..|queue|] == queue;
  }

  /** visited is what lies within depth hops, queue what lies exactly that far. */
  ghost predicate Level(adj: Adjacency, start: NodeId, depth: nat, visited: set<NodeId>, queue: seq<NodeId>)
  {
    && (forall x: NodeId :: x in visited <==> Within(adj, start, depth, x))
    && (forall x: NodeId :: x in queue <==> Within(adj, start, depth, x) && (depth == 0 || !Within(adj, start, depth - 1, x)))
  }

  lemma {:induction false} NextLevel(adj: Adjacency, start: NodeId, depth: nat, seen: set<NodeId>, queue: seq<NodeId>, visited: set<NodeId>, next: seq<NodeId>)
    requires Level(adj, start, depth, seen, queue)
    requires forall x :: x in visited <==> x in seen || exists y :: y in queue && x in Nbrs(adj, y)
    requires forall x :: x in next <==> x in visited && x !in seen
    ensures Level(adj, start, depth + 1, visited, next)
  {
    forall x: NodeId
      ensures x in visited <==> Within(adj, start, depth + 1, x)
    {
      if Within(adj, start, depth + 1, x) && x !in seen {
        var y: NodeId :| Within(adj, start, depth, y) && x in Nbrs(adj, y);
        assert depth > 0 && Within(adj, start, depth - 1, y) ==> Within(adj, start, depth, x);
      }
      if x in visited && x !in seen {
        var y :| y in queue && x in Nbrs(adj, y);
        assert Within(adj, start, depth, y);
      }
    }
  }

  /** An empty level is the end: nothing further away exists. */
  lemma {:induction false} Exhausted(adj: Adjacency, start: NodeId, depth: nat, n: nat, x: NodeId)
    requires depth > 0 && (forall y: NodeId :: Within(adj, start, depth, y) ==> Within(adj, start, depth - 1, y)) && Within(adj, start, n, x)
    ensures Within(adj, start, depth, x)
    decreases n
  {
    if n > 0 {
      if Within(adj, start, n - 1, x) {
        Exhausted(adj, start, depth, n - 1, x);
      } else {
        var y: NodeId :| Within(adj, start, n - 1, y) && x in Nbrs(adj, y);
        Exhausted(adj, start, depth, n - 1, y);
        assert Within(adj, start, depth - 1, y);
      }
    } else {
      StartWithin(adj, start, depth);
    }
  }

  lemma {:induction false} StartWithin(adj: Adjacency, start: NodeId, n: nat)
    ensures Within(adj, start, n, start)
  {
    if n > 0 {
      StartWithin(adj, start, n - 1);
    }
  }

  lemma {:induction false} WithinMore(adj: Adjacency, start: NodeId, n: nat, m: nat, x: NodeId)
    requires n <= m && Within(adj, start, n, x)
    ensures Within(adj, start, m, x)
    decreases m
  {
    if n < m {
      WithinMore(adj, start, n, m - 1, x);
    }
  }

  lemma {:induction false} WithinKnown(adj: Adjacency, start: NodeId, n: nat, x: NodeId)
    requires Within(adj, start, n, x)
    ensures x in Known(adj, start)
    decreases n
  {
    if n > 0 && !Within(adj, start, n - 1, x) {
      var y: NodeId :| Within(adj, start, n - 1, y) && x in Nbrs(adj, y);
    } else if n > 0 {
      WithinKnown(adj, start, n - 1, x);
    }
  }

  /**
   * BfsWithinDepth: exactly the nodes within that many hops, or the whole component when the depth is not
   * positive. It stops on cycles too: every round but the last visits somebody new.
   */
  method BfsWithinDepth(start: NodeId, adj: Adjacency, maxDepth: int) returns (visited: set<NodeId>)
    ensures maxDepth > 0 ==> forall x: NodeId :: x in visited <==> Within(adj, start, maxDepth, x)
    ensures maxDepth <= 0 ==> forall x: NodeId :: x in visited <==> Reaches(adj, start, x)
  {
    visited := {start};
    var queue, depth: nat := [start], 0;
    assert Level(adj, start, 0, visited, queue);
    while (maxDepth <= 0 || depth < maxDepth) && queue != []
      invariant Level(adj, start, depth, visited, queue) && (maxDepth > 0 ==> depth <= maxDepth)
      decreases |Known(adj, start) - visited|, if queue == [] then 0 else 1
    {
      ghost var seen := visited;
      var next;
      visited, next := Expand(adj, queue, visited);
      NextLevel(adj, start, depth, seen, queue, visited, next);
      hide Within;
      Progress(adj, start, depth + 1, seen, visited, next);
      queue, depth := next, depth + 1;
    }
    Finished(adj, start, depth, visited, queue, maxDepth);
  }

  lemma {:induction false} Progress(adj: Adjacency, start: NodeId, depth: nat, seen: set<NodeId>, visited: set<NodeId>, next: seq<NodeId>)
    requires seen <= visited && Level(adj, start, depth, visited, next) && forall x :: x in next <==> x in visited && x !in seen
    ensures next != [] ==> |Known(adj, start) - visited| < |Known(adj, start) - seen|
    ensures next == [] ==> visited == seen
  {
    if next != [] {
      var x := next[0];
      assert x in next;
      WithinKnown(adj, start, depth, x);
      assert x in Known(adj, start) - seen && x !in Known(adj, start) - visited;
      Fewer(Known(adj, start) - visited, Known(adj, start) - seen, x);
    } else {
      assert forall x :: x in visited ==> x in seen;
    }
  }

  lemma {:induction false} Fewer(a: set<NodeId>, b: set<NodeId>, x: NodeId)
    requires a <= b && x in b && x !in a
    ensures |a| < |b|
  {
    assert a <= b - {x};
    Subset(a, b - {x});
  }

  lemma {:induction false} Subset(a: set<NodeId>, b: set<NodeId>)
    requires a <= b
    ensures |a| <= |b|
    decreases |a|
  {
    if a != {} {
      var x :| x in a;
      Subset(a - {x}, b - {x});
    }
  }

  lemma {:induction false} Finished(adj: Adjacency, start: NodeId, depth: nat, visited: set<NodeId>, queue: seq<NodeId>, maxDepth: int)
    requires Level(adj, start, depth, visited, queue) && (maxDepth > 0 ==> depth <= maxDepth)
    requires !((maxDepth <= 0 || depth < maxDepth) && queue != [])
    ensures maxDepth > 0 ==> forall x: NodeId :: x in visited <==> Within(adj, start, maxDepth, x)
    ensures maxDepth <= 0 ==> forall x: NodeId :: x in visited <==> Reaches(adj, start, x)
  {
    StartWithin(adj, start, 0);
    assert depth == 0 ==> start in queue;
    if queue == [] {
      forall n: nat, x: NodeId | Within(adj, start, n, x)
        ensures x in visited
      {
        Exhausted(adj, start, depth, n, x);
      }
      if maxDepth > 0 {
        forall x: NodeId | x in visited
          ensures Within(adj, start, maxDepth, x)
        {
          WithinMore(adj, start, depth, maxDepth, x);
        }
      }
    }
  }

  method AllNodesVisited(nodes: seq<NodeId>, visited: set<NodeId>) returns (all: bool)
    ensures all <==> forall n :: n in nodes ==> n in visited
  {
    for i := 0 to |nodes|
      invariant forall j :: 0 <= j < i ==> nodes[j] in visited
    {
      if nodes[i] !in visited {
        return false;
      }
    }
    return true;
  }

  /** Hops over the kept edges themselves, without any adjacency in between. */
  ghost predicate Hops(edges: seq<Edge>, kinds: seq<nat>, start: NodeId, n: nat, x: NodeId)
    decreases n
  {
    if n == 0 then x == start
    else Hops(edges, kinds, start, n - 1, x) || exists y: NodeId :: Hops(edges, kinds, start, n - 1, y) && Adjacent(edges, kinds, y, x)
  }

  ghost predicate Connected(edges: seq<Edge>, kinds: seq<nat>, start: NodeId, x: NodeId) { exists n: nat :: Hops(edges, kinds, start, n, x) }

  lemma {:induction false} HopsAreWithin(edges: seq<Edge>, kinds: seq<nat>, adj: Adjacency, start: NodeId, n: nat)
    requires forall a: NodeId, b: NodeId :: b in Nbrs(adj, a) <==> Adjacent(edges, kinds, a, b)
    ensures forall x: NodeId :: Within(adj, start, n, x) <==> Hops(edges, kinds, start, n, x)
  {
    if n > 0 {
      HopsAreWithin(edges, kinds, adj, start, n - 1);
      hide Adjacent;
      hide Nbrs;
      forall x: NodeId
        ensures Within(adj, start, n, x) <==> Hops(edges, kinds, start, n, x)
      {
      }
    }
  }

  lemma {:induction false} ReachIsHops(edges: seq<Edge>, kinds: seq<nat>, adj: Adjacency, start: NodeId, x: NodeId)
    requires forall a: NodeId, b: NodeId :: b in Nbrs(adj, a) <==> Adjacent(edges, kinds, a, b)
    ensures Reaches(adj, start, x) <==> Connected(edges, kinds, start, x)
  {
    hide Within;
    hide Hops;
    hide Adjacent;
    if Reaches(adj, start, x) {
      var n: nat :| Within(adj, start, n, x);
      HopsAreWithin(edges, kinds, adj, start, n);
      assert Hops(edges, kinds, start, n, x);
    }
    if n: nat :| Hops(edges, kinds, start, n, x) {
      HopsAreWithin(edges, kinds, adj, start, n);
      assert Within(adj, start, n, x);
    }
  }

  /**
   * QueryL3Subgraph: the nodes are exactly those within maxDepth hops of start over edges of the wanted kinds (any
   * number of hops when maxDepth is not positive); the edges are the wanted ones that name only such nodes.
   */
  method QuerySubgraph(edges: seq<Edge>, kinds: seq<nat>, start: NodeId, maxDepth: int) returns (nodes: set<NodeId>, sub: seq<Edge>)
    ensures maxDepth > 0 ==> forall x: NodeId :: x in nodes <==> Hops(edges, kinds, start, maxDepth, x)
    ensures maxDepth <= 0 ==> forall x: NodeId :: x in nodes <==> Connected(edges, kinds, start, x)
    ensures forall e :: e in sub <==> e in edges && (kinds == [] || e.kind in kinds) && forall n :: n in e.nodes ==> n in nodes
  {
    var adj, kept := SubgraphAdjacency(edges, kinds);
    nodes := BfsWithinDepth(start, adj, maxDepth);
    hide Within;
    hide Hops;
    hide Adjacent;
    hide Reaches;
    hide Connected;
    forall x: NodeId
      ensures Reaches(adj, start, x) <==> Connected(edges, kinds, start, x)
      ensures maxDepth > 0 ==> (Within(adj, start, maxDepth, x) <==> Hops(edges, kinds, start, maxDepth, x))
    {
      ReachIsHops(edges, kinds, adj, start, x);
      if maxDepth > 0 {
        HopsAreWithin(edges, kinds, adj, start, maxDepth);
      }
    }
    sub := [];
    for i := 0 to |kept|
      invariant forall e :: e in sub <==> e in kept[..i] && forall n :: n in e.nodes ==> n in nodes
    {
      assert kept[..i + 1] == kept[..i] + [kept[i]];
      var all := AllNodesVisited(kept[i].nodes, nodes);
      if all {
        sub := sub + [kept[i]];
      }
    }
    assert kept[..|kept|] == kept;
  }
}
