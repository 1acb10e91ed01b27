// The L1 network of scene nodes and co-occurrence edges: internal/cap/engram/decay.go, hyperedge.go and the node sync
// of internal/repo/l1layer_sync.go. Nodes and edges name each other, and every pass must keep the two sides in step.
module Engrams {
  import opened Common

  /** Scene and edge id hashes are taken as injective: a node is its scene, an edge its ordered pair of nodes. */
  type NodeId = nat
  type EdgeId = (NodeId, NodeId)

  datatype Node = Node(topics: seq<nat>, edges: seq<EdgeId>, importance: real, valence: real, arousal: real, updatedAt: int)
  datatype Edge = Edge(members: seq<NodeId>, weight: real, createdAt: int, lastDecayAt: int)

  type Nodes = map<NodeId, Node>
  type Edges = map<EdgeId, Edge>

  const MIN_EDGE_NODES: nat := 2
  const LAMBDA_NODE: real := 0.01
  const LAMBDA_EDGE: real := 0.02
  const NODE_REMOVE: real := 0.05
  const NODE_PRUNE: real := 0.15
  const EDGE_REMOVE: real := 0.05

  // ---- Lists ----

  /** slices.DeleteFunc: every occurrence of a member of gone, out. */
  function Minus<T(==)>(xs: seq<T>, gone: set<T>): (r: seq<T>)
    ensures |r| <= |xs|
  {
    if xs == [] then [] else if xs[0] in gone then Minus(xs[1..], gone) else [xs[0]] + Minus(xs[1..], gone)
  }

  lemma {:induction false} MinusIn<T>(xs: seq<T>, gone: set<T>, x: T)
    ensures x in Minus(xs, gone) <==> x in xs && x !in gone
  {
    if xs != [] {
      MinusIn(xs[1..], gone, x);
      assert x in xs <==> x == xs[0] || x in xs[1..];
    }
  }

  lemma {:induction false} MinusTwice<T>(xs: seq<T>, a: set<T>, b: set<T>)
    ensures Minus(Minus(xs, a), b) == Minus(xs, a + b)
  {
    if xs != [] {
      MinusTwice(xs[1..], a, b);
      if xs[0] !in a {
        assert ([xs[0]] + Minus(xs[1..], a))[1..] == Minus(xs[1..], a);
      }
    }
  }

  /** Only what is in the list matters of what is taken out. */
  lemma {:induction false} MinusSame<T>(xs: seq<T>, a: set<T>, b: set<T>)
    requires forall x :: x in xs ==> (x in a <==> x in b)
    ensures Minus(xs, a) == Minus(xs, b)
  {
    if xs != [] {
      assert xs[0] in xs && forall x :: x in xs[1..] ==> x in xs;
      MinusSame(xs[1..], a, b);
    }
  }

  lemma {:induction false} MinusNothing<T>(xs: seq<T>, gone: set<T>)
    ensures |Minus(xs, gone)| == |xs| <==> forall x :: x in xs ==> x !in gone
    ensures |Minus(xs, gone)| == |xs| ==> Minus(xs, gone) == xs
  {
    if xs != [] {
      MinusNothing(xs[1..], gone);
      assert xs[0] in xs && forall x :: x in xs <==> x == xs[0] || x in xs[1..];
    }
  }

  lemma {:induction false} MinusDistinct<T>(xs: seq<T>, gone: set<T>)
    requires Distinct(xs)
    ensures Distinct(Minus(xs, gone))
  {
    if xs != [] {
      MinusDistinct(xs[1..], gone);
      MinusIn(xs[1..], gone, xs[0]);
      assert xs[0] !in xs[1..];
    }
  }

  // ---- The two sides ----

  /** A node lists only edges that list it. */
  ghost predicate NodesLinked(ns: Nodes, es: Edges)
  {
    forall n, e :: n in ns && e in ns[n].edges ==> e in es && n in es[e].members
  }

  ghost predicate Paired(es: Edges)
  {
    forall e :: e in es ==> e.0 != e.1 && es[e].members == [e.0, e.1]
  }

  /** What every operation keeps. An edge may still name a deleted node, or one that does not know of it. */
  ghost predicate Sound(ns: Nodes, es: Edges) { NodesLinked(ns, es) && Paired(es) }

  /** The live members that do not list the edge naming them. */
  ghost function Deaf(ns: Nodes, es: Edges): set<(EdgeId, NodeId)>
  {
    set e, n | e in es && n in es[e].members && n in ns && e !in ns[n].edges :: (e, n)
  }

  /** The members that are no nodes. */
  ghost function Dead(ns: Nodes, es: Edges): set<(EdgeId, NodeId)>
  {
    set e, n | e in es && n in es[e].members && n !in ns :: (e, n)
  }

  /** Exact agreement: every edge has at least two members, all live, and each side lists the other. */
  ghost predicate Exact(ns: Nodes, es: Edges)
  {
    && (forall e :: e in es ==> |es[e].members| >= MIN_EDGE_NODES && Distinct(es[e].members))
    && (forall e, n :: e in es && n in es[e].members ==> n in ns)
    && (forall n, e :: n in ns ==> (e in ns[n].edges <==> e in es && n in es[e].members))
  }

  // ---- What a removal leaves ----

  function Lost(c: map<EdgeId, set<NodeId>>, e: EdgeId): set<NodeId> { if e in c then c[e] else {} }

  /** The edges once each has lost the members c names for it; one left with fewer than two is deleted. */
  ghost function Cut(es: Edges, c: map<EdgeId, set<NodeId>>): Edges
  {
    map e | e in es && |Minus(es[e].members, Lost(c, e))| >= MIN_EDGE_NODES ::
      es[e].(members := Minus(es[e].members, Lost(c, e)))
  }

  /** The nodes without any mention of the edges in gone. */
  ghost function Trimmed(ns: Nodes, gone: set<EdgeId>): Nodes
  {
    map n | n in ns :: ns[n].(edges := Minus(ns[n].edges, gone))
  }

  ghost function DropEdge(ns: Nodes, members: seq<NodeId>, e: EdgeId): Nodes
  {
    map n | n in ns :: if n in members then ns[n].(edges := Minus(ns[n].edges, {e})) else ns[n]
  }

  /** Taking a deleted edge off its members takes it off every node, when only members list it. */
  lemma {:induction false} DropIsTrim(ns: Nodes, gone: set<EdgeId>, members: seq<NodeId>, e: EdgeId)
    requires forall n :: n in ns && e in ns[n].edges ==> n in members
    ensures DropEdge(Trimmed(ns, gone), members, e) == Trimmed(ns, gone + {e})
  {
    forall n | n in ns
      ensures DropEdge(Trimmed(ns, gone), members, e)[n] == Trimmed(ns, gone + {e})[n]
    {
      MinusTwice(ns[n].edges, gone, {e});
      if n !in members {
        MinusSame(ns[n].edges, gone, gone + {e});
      }
    }
  }

  lemma {:induction false} CutAt(es: Edges, c: map<EdgeId, set<NodeId>>, e: EdgeId)
    ensures e in Cut(es, c) <==> e in es && |Minus(es[e].members, Lost(c, e))| >= MIN_EDGE_NODES
    ensures e in Cut(es, c) ==> Cut(es, c)[e] == es[e].(members := Minus(es[e].members, Lost(c, e)))
  {
  }

  /** removeNodeFromEdge on one edge. */
  ghost function CutOne(es: Edges, e: EdgeId, n: NodeId): Edges
  {
    if e !in es then es
    else if |Minus(es[e].members, {n})| < MIN_EDGE_NODES then es - {e}
    else es[e := es[e].(members := Minus(es[e].members, {n}))]
  }

  /** Removals one at a time, in any order, add up to removing together. */
  lemma {:induction false} CutMore(es: Edges, c: map<EdgeId, set<NodeId>>, e: EdgeId, n: NodeId)
    ensures Cut(es, c[e := Lost(c, e) + {n}]) == CutOne(Cut(es, c), e, n)
  {
    var c', was := c[e := Lost(c, e) + {n}], Cut(es, c);
    forall f
      ensures f in Cut(es, c') <==> f in CutOne(was, e, n)
      ensures f in Cut(es, c') ==> f in CutOne(was, e, n) && Cut(es, c')[f] == CutOne(was, e, n)[f]
    {
      CutAt(es, c, f);
      CutAt(es, c', f);
      if f == e && e in es {
        MinusTwice(es[e].members, Lost(c, e), {n});
      }
      hide Cut;
    }
    hide Cut;
    hide CutOne;
  }

  lemma {:induction false} DropNext(ns: Nodes, members: seq<NodeId>, m: NodeId, e: EdgeId)
    ensures DropEdge(ns, members + [m], e) ==
            var was := DropEdge(ns, members, e);
            if m in was then was[m := was[m].(edges := Minus(was[m].edges, {e}))] else was
  {
    forall n | n in ns
      ensures n in members + [m] <==> n in members || n == m
    {
    }
    if m in ns {
      MinusTwice(ns[m].edges, {e}, {e});
      assert {e} + {e} == {e};
    }
  }

  // ---- Fading ----

  function Clamp(x: real): real { if x < 0.0 then 0.0 else if x > 1.0 then 1.0 else x }

  function Abs(x: real): real { if x < 0.0 then -x else x }

  /** applyEmotionalBoost: the further from neutral and the more aroused, the slower; never slower than a tenth. */
  function DecayRate(base: real, valence: real, arousal: real): (lambda: real)
    ensures base > 0.0 ==> 0.1 * base <= lambda <= base
  {
    var strength := Clamp(Abs(valence - 0.5) * 2.0);
    var slow := strength * Clamp(arousal);
    assert 0.0 <= slow <= 1.0 by { UnitProduct(strength, Clamp(arousal)); }
    var factor := 1.0 - 0.9 * slow;
    assert base > 0.0 ==> 0.1 * base <= base * factor <= base by {
      if base > 0.0 {
        ScaleMonotone(base, 0.1, factor);
        ScaleMonotone(base, factor, 1.0);
      }
    }
    base * factor
  }

  lemma {:induction false} UnitProduct(a: real, b: real)
    requires 0.0 <= a <= 1.0 && 0.0 <= b <= 1.0
    ensures 0.0 <= a * b <= 1.0
  {
    assert a * b <= 1.0 * b by { ScaleMonotone(b, a, 1.0); }
  }

  lemma {:induction false} ScaleMonotone(k: real, a: real, b: real)
    requires k >= 0.0 && a <= b
    ensures k * a <= k * b
  {
    assert k * (b - a) >= 0.0;
  }

  function ElapsedHours(now: int, since: int): real
  {
    (if now > since then now - since else 0) as real / 3600000.0
  }

  /** What is left of an amount that decays at a rate for so many hours. */
  function Remains(exp: real -> real, amount: real, rate: real, hours: real): real { amount * exp(-(rate * hours)) }

  /** What a pass works with: the exponential, which nodes compression manages instead, and the clock. */
  datatype Pass = Pass(exp: real -> real, deep: Node -> bool, now: int)
  {
    function Importance(node: Node): real {
      Remains(exp, node.importance, DecayRate(LAMBDA_NODE, node.valence, node.arousal), ElapsedHours(now, node.updatedAt))
    }

    predicate Removes(node: Node) { !deep(node) && Importance(node) < NODE_REMOVE }

    predicate Prunes(node: Node) { !deep(node) && NODE_REMOVE <= Importance(node) < NODE_PRUNE }

    function Fade(node: Node): Node {
      if deep(node) then node
      else node.(importance := Importance(node), edges := if Prunes(node) then [] else node.edges, updatedAt := now)
    }

    function Weight(edge: Edge): real {
      Remains(exp, edge.weight, LAMBDA_EDGE, ElapsedHours(now, if edge.lastDecayAt == 0 then edge.createdAt else edge.lastDecayAt))
    }
  }

  ghost function Faded(p: Pass, ns: Nodes): Nodes
  {
    map n | n in ns && !p.Removes(ns[n]) :: p.Fade(ns[n])
  }

  /** cleared names, for each edge, the stripped nodes that listed it. */
  ghost predicate ClearedBy(p: Pass, ns: Nodes, cleared: map<EdgeId, set<NodeId>>)
  {
    forall e, n :: n in Lost(cleared, e) <==> n in ns && p.Prunes(ns[n]) && e in ns[n].edges
  }

  /** With any decreasing exponential no pass raises an importance, and every importance it keeps is above the floor. */
  lemma {:induction false} FadingOnlyFades(p: Pass, ns: Nodes, n: NodeId)
    requires forall x: real :: x <= 0.0 ==> 0.0 < p.exp(x) <= 1.0
    requires n in ns && ns[n].importance >= 0.0 && !p.deep(ns[n])
    ensures n in Faded(p, ns) ==> NODE_REMOVE <= Faded(p, ns)[n].importance <= ns[n].importance
    ensures n !in Faded(p, ns) <==> p.Importance(ns[n]) < NODE_REMOVE
  {
    ImportanceFalls(p, ns[n]);
    hide Pass.Importance;
  }

  lemma {:induction false} ImportanceFalls(p: Pass, node: Node)
    requires forall x: real :: x <= 0.0 ==> 0.0 < p.exp(x) <= 1.0
    requires node.importance >= 0.0
    ensures p.Importance(node) <= node.importance
  {
    var rate, dt := DecayRate(LAMBDA_NODE, node.valence, node.arousal), ElapsedHours(p.now, node.updatedAt);
    assert rate >= 0.0;
    hide DecayRate;
    ScaleMonotone(dt, 0.0, rate);
    assert dt * 0.0 == 0.0 && dt * rate == rate * dt;
    var x := -(rate * dt);
    assert x <= 0.0;
    ScaleMonotone(node.importance, p.exp(x), 1.0);
  }

  // ---- The passes ----

  class Network {
    var nodes: Nodes
    var edges: Edges

    ghost predicate Valid()
      reads this
    {
      Sound(nodes, edges)
    }

    constructor ()
      ensures Valid() && nodes == map[] && edges == map[]
    {
      nodes, edges := map[], map[];
    }

    method RemoveEdgeFromNode(n: NodeId, e: EdgeId)
      modifies this`nodes
      ensures nodes == if n in old(nodes) then old(nodes)[n := old(nodes)[n].(edges := Minus(old(nodes)[n].edges, {e}))] else old(nodes)
    {
      if n in nodes {
        var kept := Minus(nodes[n].edges, {e});
        MinusNothing(nodes[n].edges, {e});
        if |kept| != |nodes[n].edges| {
          nodes := nodes[n := nodes[n].(edges := kept)];
        } else {
          assert nodes[n].(edges := kept) == nodes[n];
        }
      }
    }

    method DropFromMembers(members: seq<NodeId>, e: EdgeId)
      modifies this`nodes
      ensures nodes == DropEdge(old(nodes), members, e)
    {
      assert DropEdge(nodes, members[..0], e) == nodes;
      for i := 0 to |members|
        invariant nodes == DropEdge(old(nodes), members[..i], e)
      {
        DropNext(old(nodes), members[..i], members[i], e);
        assert members[..i + 1] == members[..i] + [members[i]];
        RemoveEdgeFromNode(members[i], e);
      }
      assert members[..|members|] == members;
    }

    /** removeNodeFromEdge; an edge left with fewer than two members goes, and its other members forget it. */
    method RemoveNodeFromEdge(e: EdgeId, n: NodeId) returns (gone: bool)
      requires e in edges ==> |edges[e].members| >= MIN_EDGE_NODES
      modifies this`nodes, this`edges
      ensures edges == CutOne(old(edges), e, n) && (gone <==> e in old(edges) && e !in edges)
      ensures Size(edges) + (if gone then 1 else 0) == Size(old(edges))
      ensures nodes == if gone then DropEdge(old(nodes), Minus(old(edges)[e].members, {n}), e) else old(nodes)
    {
      if e !in edges {
        return false;
      }
      var kept := Minus(edges[e].members, {n});
      MinusNothing(edges[e].members, {n});
      if |kept| == |edges[e].members| {
        assert edges[e].(members := kept) == edges[e];
        return false;
      }
      if |kept| < MIN_EDGE_NODES {
        DropFromMembers(kept, e);
        OneLess(edges, e);
        edges := edges - {e};
        return true;
      }
      SameKeys(edges, e, edges[e].(members := kept));
      edges := edges[e := edges[e].(members := kept)];
      return false;
    }

    /** decayOneNode: dropped, stripped of its edges, or only faded. */
    method DecayOneNode(p: Pass, n: NodeId, removed: set<NodeId>, cleared: map<EdgeId, set<NodeId>>)
      returns (removed': set<NodeId>, cleared': map<EdgeId, set<NodeId>>)
      requires n in nodes && !p.deep(nodes[n])
      modifies this`nodes
      ensures nodes == if p.Removes(old(nodes)[n]) then old(nodes) - {n} else old(nodes)[n := p.Fade(old(nodes)[n])]
      ensures removed' == if p.Removes(old(nodes)[n]) then removed + {n} else removed
      ensures forall e, m :: m in Lost(cleared', e) <==>
                m in Lost(cleared, e) || (m == n && p.Prunes(old(nodes)[n]) && e in old(nodes)[n].edges)
    {
      removed', cleared' := removed, cleared;
      var node := nodes[n];
      var importance := p.Importance(node);
      if importance < NODE_REMOVE {
        nodes, removed' := nodes - {n}, removed + {n};
        return;
      }
      if importance < NODE_PRUNE {
        cleared' := Clear(cleared, n, node.edges);
        node := node.(edges := []);
      }
      nodes := nodes[n := node.(importance := importance, updatedAt := p.now)];
    }

    /** decayNodes: every node faded, dropped or stripped of its edges, and who has to hear of it. */
    method DecayNodes(p: Pass) returns (removed: set<NodeId>, cleared: map<EdgeId, set<NodeId>>)
      modifies this`nodes
      ensures nodes == Faded(p, old(nodes))
      ensures removed !! nodes.Keys && (forall n :: n in removed <==> n in old(nodes) && p.Removes(old(nodes)[n]))
      ensures ClearedBy(p, old(nodes), cleared)
    {
      hide DecayRate;
      hide ElapsedHours;
      removed, cleared := {}, map[];
      ghost var ns := nodes;
      var todo := nodes.Keys;
      while todo != {}
        invariant todo <= ns.Keys
        invariant forall n :: n in nodes <==> n in ns && (n in todo || !p.Removes(ns[n]))
        invariant forall n :: n in nodes ==> nodes[n] == if n in todo then ns[n] else p.Fade(ns[n])
        invariant forall n :: n in removed <==> n in ns && n !in todo && p.Removes(ns[n])
        invariant forall e, n :: n in Lost(cleared, e) <==> n in ns && n !in todo && p.Prunes(ns[n]) && e in ns[n].edges
        decreases |todo|
      {
        var n :| n in todo;
        if !p.deep(nodes[n]) {
          removed, cleared := DecayOneNode(p, n, removed, cleared);
        }
        todo := todo - {n};
      }
    }

    static method Clear(cleared: map<EdgeId, set<NodeId>>, n: NodeId, es: seq<EdgeId>) returns (r: map<EdgeId, set<NodeId>>)
      ensures forall e, m :: m in Lost(r, e) <==> m in Lost(cleared, e) || (m == n && e in es)
    {
      r := cleared;
      for i := 0 to |es|
        invariant forall e, m :: m in Lost(r, e) <==> m in Lost(cleared, e) || (m == n && e in es[..i])
      {
        assert es[..i + 1] == es[..i] + [es[i]];
        r := r[es[i] := Lost(r, es[i]) + {n}];
      }
      assert es[..|es|] == es;
    }

    /** One removal, after others: the edges are those cut of all of them, the nodes trimmed of the edges gone. */
    method ClearMember(e: EdgeId, n: NodeId, ghost ns: Nodes, ghost es: Edges, ghost was: map<EdgeId, set<NodeId>>, ghost done: set<NodeId>)
      requires NodesLinked(ns, es) && edges == Cut(es, was[e := done]) && nodes == Trimmed(ns, es.Keys - edges.Keys)
      requires forall m :: m in ns && (m in done || m == n) ==> e !in ns[m].edges
      modifies this`nodes, this`edges
      ensures edges == Cut(es, was[e := done + {n}]) && nodes == Trimmed(ns, es.Keys - edges.Keys)
    {
      hide Trimmed;
      hide CutOne;
      hide DropEdge;
      hide Minus;
      hide Cut;
      hide NodesLinked;
      CutMore(es, was[e := done], e, n);
      assert was[e := done][e := done + {n}] == was[e := done + {n}];
      RemovalTrims(ns, es, was[e := done], edges, e, n);
      var gone := RemoveNodeFromEdge(e, n);
    }

    /** The removals of one edge. */
    method ClearEdge(e: EdgeId, ids: set<NodeId>, ghost ns: Nodes, ghost es: Edges, ghost was: map<EdgeId, set<NodeId>>)
      requires NodesLinked(ns, es) && edges == Cut(es, was) && nodes == Trimmed(ns, es.Keys - edges.Keys)
      requires Lost(was, e) == {} && forall n :: n in ns && n in ids ==> e !in ns[n].edges
      modifies this`nodes, this`edges
      ensures edges == Cut(es, was[e := ids]) && nodes == Trimmed(ns, es.Keys - edges.Keys)
    {
      hide Trimmed;
      hide Minus;
      CutSame(es, was, was[e := {}]);
      hide Cut;
      hide NodesLinked;
      var left := ids;
      ghost var done: set<NodeId> := {};
      while left != {}
        invariant left <= ids && done == ids - left
        invariant edges == Cut(es, was[e := done]) && nodes == Trimmed(ns, es.Keys - edges.Keys)
        decreases |left|
      {
        var n :| n in left;
        ClearMember(e, n, ns, es, was, done);
        done := done + {n};
        left := left - {n};
      }
      assert done == ids;
    }

    /** propagateClearedEdges: one removal at a time; the outcome is that of removing them all at once. */
    method PropagateClearedEdges(cleared: map<EdgeId, set<NodeId>>)
      requires forall e :: e in edges ==> |edges[e].members| >= MIN_EDGE_NODES
      requires NodesLinked(nodes, edges)
      requires forall e, n :: n in nodes && n in Lost(cleared, e) ==> e !in nodes[n].edges
      modifies this`nodes, this`edges
      ensures edges == Cut(old(edges), cleared) && nodes == Trimmed(old(nodes), old(edges).Keys - edges.Keys)
    {
      hide Cut;
      hide Trimmed;
      hide Minus;
      hide NodesLinked;
      ghost var ns, es := nodes, edges;
      NothingCut(ns, es);
      var todo := cleared.Keys;
      assert cleared - todo == map[];
      while todo != {}
        invariant todo <= cleared.Keys
        invariant edges == Cut(es, cleared - todo) && nodes == Trimmed(ns, es.Keys - edges.Keys)
        decreases |todo|
      {
        var e :| e in todo;
        assert Lost(cleared - todo, e) == {} && Lost(cleared, e) == cleared[e];
        ClearEdge(e, cleared[e], ns, es, cleared - todo);
        assert (cleared - todo)[e := cleared[e]] == cleared - (todo - {e});
        todo := todo - {e};
      }
      assert cleared - {} == cleared;
    }

    /** decayOneEdge: the weight faded, the members that are no longer nodes dropped, the edge kept or deleted. */
    method DecayOneEdge(p: Pass, e: EdgeId, removed: set<NodeId>)
      requires e in edges && removed !! nodes.Keys
      modifies this`nodes, this`edges
      ensures var was, live := old(edges)[e], old(nodes).Keys;
              if Survives(p, live, was) then edges == old(edges)[e := AgedEdge(p, live, was)] && nodes == old(nodes)
              else edges == old(edges) - {e} && nodes == DropEdge(old(nodes), Minus(was.members, Gone(was.members, live)), e)
    {
      var edge := edges[e];
      var weight := p.Weight(edge);
      var gone := set m | m in edge.members && (m in removed || m !in nodes);
      assert gone == Gone(edge.members, nodes.Keys);
      var kept := Minus(edge.members, gone);
      if |kept| < MIN_EDGE_NODES || weight < EDGE_REMOVE {
        DropFromMembers(kept, e);
        edges := edges - {e};
        return;
      }
      edges := edges[e := edge.(members := kept, weight := weight, lastDecayAt := p.now)];
    }

    /** decayRemainingEdges over every edge still there, in any order. */
    method DecayRemainingEdges(p: Pass, removed: set<NodeId>)
      requires NodesLinked(nodes, edges) && removed !! nodes.Keys
      modifies this`nodes, this`edges
      ensures edges == Aged(p, old(nodes).Keys, old(edges), {})
      ensures nodes == Trimmed(old(nodes), old(edges).Keys - edges.Keys)
    {
      hide Trimmed;
      hide Minus;
      hide NodesLinked;
      hide DropEdge;
      hide Survives;
      hide AgedEdge;
      ghost var ns, es := nodes, edges;
      var todo := edges.Keys;
      NothingAged(p, ns, es);
      hide Aged;
      while todo != {}
        invariant todo <= es.Keys && todo <= edges.Keys
        invariant edges == Aged(p, ns.Keys, es, todo) && nodes == Trimmed(ns, es.Keys - edges.Keys)
        decreases |todo|
      {
        var e :| e in todo;
        AgeMore(p, ns, es, todo, e);
        DecayOneEdge(p, e, removed);
        todo := todo - {e};
      }
    }

    /**
     * DecayNetwork. Who survives depends on the network before the pass alone, not on the order nodes, cleared edges
     * or remaining edges are taken in. The result is exact exactly when no edge that survives had a deaf member.
     */
    method DecayNetwork(p: Pass)
      requires Valid()
      modifies this`nodes, this`edges
      ensures nodes == DecayedNodes(p, old(nodes), old(edges)) && edges == DecayedEdges(p, old(nodes), old(edges))
      ensures Valid() && Dead(nodes, edges) == {}
      ensures Exact(nodes, edges) <==> forall d :: d in Deaf(old(nodes), old(edges)) ==> d.0 !in edges
    {
      ghost var ns, es := nodes, edges;
      var removed, cleared := DecayNodes(p);
      hide ClearedBy;
      hide Exact;
      hide Faded;
      hide DecayedNodes;
      hide DecayedEdges;
      hide Cut;
      hide Aged;
      hide Trimmed;
      PairsAreWide(es);
      FadedLinked(p, ns, es, cleared);
      DecayIsExact(p, ns, es);
      hide Deaf;
      hide Dead;
      PassesCompose(p, ns, es, cleared);
      hide Sound;
      hide NodesLinked;
      PropagateClearedEdges(cleared);
      DecayRemainingEdges(p, removed);
    }

    /** DeleteSceneNodeL1: the record alone goes; the edges that name it keep a dead member until a decay pass. */
    method DeleteSceneNode(n: NodeId)
      requires Valid()
      modifies this`nodes
      ensures Valid() && nodes == old(nodes) - {n}
    {
      nodes := nodes - {n};
    }

    /** syncOneSceneNode: a new node starts without edges; an existing one keeps its own. */
    method SyncOneSceneNode(n: NodeId, ids: seq<nat>, now: int) returns (changed: bool)
      requires Valid()
      modifies this`nodes
      ensures Valid() && nodes == old(nodes)[n := Synced(old(nodes), n, ids, now)]
      ensures changed <==> n !in old(nodes) || old(nodes)[n].topics != ids
    {
      if n in nodes && nodes[n].topics == ids {
        return false;
      }
      var node := if n in nodes then nodes[n] else Node([], [], 1.0, 0.0, 0.0, 0);
      nodes := nodes[n := node.(topics := ids, updatedAt := now)];
      return true;
    }

    /**
     * SyncL1NodesFromL2: one node per scene that has topics; the scenes whose topic list changed are reported. A node
     * that is written anew knows no edge, so it is deaf to exactly the edges that still name it.
     */
    method SyncNodes(byScene: map<NodeId, seq<nat>>, now: int) returns (touched: set<NodeId>)
      requires Valid()
      modifies this`nodes
      ensures Valid() && nodes == SyncedAll(old(nodes), byScene, now)
      ensures touched == Changed(old(nodes), byScene)
      ensures Deaf(nodes, edges) == Deaf(old(nodes), edges) + Revived(old(nodes), edges, byScene.Keys)
    {
      hide Sound;
      hide Synced;
      hide Deaf;
      hide Revived;
      hide SyncedAll;
      hide Changed;
      ghost var ns := nodes;
      touched := {};
      var todo := byScene.Keys;
      SyncedNone(ns, byScene, now);
      while todo != {}
        invariant todo <= byScene.Keys && Valid()
        invariant nodes == SyncedAll(ns, byScene - todo, now) && touched == Changed(ns, byScene - todo)
        decreases |todo|
      {
        var n :| n in todo;
        SyncedNext(ns, byScene, todo, n, now);
        var changed := SyncOneSceneNode(n, byScene[n], now);
        if changed {
          touched := touched + {n};
        }
        todo := todo - {n};
      }
      assert byScene - {} == byScene;
      SyncDeafens(ns, edges, byScene, now);
    }

    /** upsertSceneEdge: a new edge is written on both sides; an existing one only rises, over changed evidence. */
    method UpsertSceneEdge(a: NodeId, b: NodeId, weight: real, now: int, evidenceChanged: bool) returns (written: bool)
      requires Valid() && a != b && a in nodes && b in nodes
      modifies this`nodes, this`edges
      ensures Valid() && nodes.Keys == old(nodes).Keys && EdgeOf(a, b) in edges
      ensures written <==> EdgeOf(a, b) !in old(edges) || (weight > old(edges)[EdgeOf(a, b)].weight && evidenceChanged)
      ensures edges == if written then old(edges)[EdgeOf(a, b) := edges[EdgeOf(a, b)]] else old(edges)
      ensures written ==> edges[EdgeOf(a, b)].weight == weight
      ensures EdgeOf(a, b) in old(edges) ==> edges[EdgeOf(a, b)].(weight := 0.0) == old(edges)[EdgeOf(a, b)].(weight := 0.0)
      ensures forall d :: d in Deaf(nodes, edges) <==> d in Deaf(old(nodes), old(edges)) && !(written && d.0 == EdgeOf(a, b))
      ensures Drew(old(nodes), old(edges), nodes, edges, EdgeOf(a, b), weight, now, written)
    {
      var e := EdgeOf(a, b);
      var edge := if e in edges then edges[e] else Edge([e.0, e.1], weight, now, 0);
      if e in edges && (weight <= edge.weight || !evidenceChanged) {
        hide Sound;
        return false;
      }
      edges := edges[e := edge.(weight := weight)];
      AttachEdge(e.0, e);
      AttachEdge(e.1, e);
      UpsertSound(old(nodes), old(edges), e, edges[e]);
      AttachedBoth(old(nodes), e);
      hide Attached;
      hide Sound;
      hide Deaf;
      return true;
    }

    method AttachEdge(n: NodeId, e: EdgeId)
      modifies this`nodes
      ensures nodes == Attached(old(nodes), n, e)
    {
      if n in nodes && e !in nodes[n].edges {
        nodes := nodes[n := nodes[n].(edges := nodes[n].edges + [e])];
      }
    }

    /** One of the edges of a stale node. */
    method DetachOne(n: NodeId, list: seq<EdgeId>, i: nat, ghost ns: Nodes, ghost es: Edges, ghost dead: set<NodeId>)
      returns (gone: bool)
      requires NodesLinked(ns, es) && Paired(es) && n in ns && n !in dead && list == ns[n].edges && i < |list|
      requires edges == Apart(Bereft(ns, es, dead), list[..i])
      requires nodes - {n} == Trimmed(ns - (dead + {n}), es.Keys - edges.Keys)
      modifies this`nodes, this`edges
      ensures edges == Apart(Bereft(ns, es, dead), list[..i + 1])
      ensures nodes - {n} == Trimmed(ns - (dead + {n}), es.Keys - edges.Keys)
      ensures Size(edges) + (if gone then 1 else 0) == Size(old(edges))
    {
      hide Trimmed;
      hide NodesLinked;
      hide Paired;
      hide Apart;
      hide Bereft;
      hide CutOne;
      hide DropEdge;
      hide Minus;
      hide Size;
      DetachStep(ns, es, dead, n, list, i, edges, nodes);
      gone := RemoveNodeFromEdge(list[i], n);
    }

    /** The edges of a stale node, taken off it one by one. */
    method DetachNode(n: NodeId, list: seq<EdgeId>, ghost ns: Nodes, ghost es: Edges, ghost dead: set<NodeId>)
      returns (gone: nat)
      requires NodesLinked(ns, es) && Paired(es) && n in ns && n !in dead && list == ns[n].edges
      requires edges == Bereft(ns, es, dead) && nodes == Trimmed(ns - dead, es.Keys - edges.Keys)
      modifies this`nodes, this`edges
      ensures edges == Bereft(ns, es, dead + {n}) && nodes - {n} == Trimmed(ns - (dead + {n}), es.Keys - edges.Keys)
      ensures gone + Size(edges) == Size(old(edges))
    {
      gone := 0;
      ghost var start := edges;
      NoneDetached(ns, es, dead, n);
      hide Trimmed;
      hide NodesLinked;
      hide Paired;
      hide Apart;
      hide Bereft;
      hide Sound;
      hide Size;
      for i := 0 to |list|
        invariant edges == Apart(Bereft(ns, es, dead), list[..i])
        invariant nodes - {n} == Trimmed(ns - (dead + {n}), es.Keys - edges.Keys)
        invariant gone + Size(edges) == Size(start)
      {
        var deleted := DetachOne(n, list, i, ns, es, dead);
        if deleted {
          gone := gone + 1;
        }
      }
      assert list[..|list|] == list;
      AllDetached(ns, es, dead, n);
    }

    /**
     * RebuildFromL2: every stale node goes, and with it every edge it listed; the rest is untouched.
     * stale stands for isNodeStale, which reads the node's topics against the records.
     */
    method RebuildFromL2(stale: Node -> bool) returns (updated: set<NodeId>, edgesRemoved: nat)
      requires Valid()
      modifies this`nodes, this`edges
      ensures forall n :: n in updated <==> n in old(nodes) && stale(old(nodes)[n])
      ensures edges == Bereft(old(nodes), old(edges), updated) && nodes == Trimmed(old(nodes) - updated, old(edges).Keys - edges.Keys)
      ensures edgesRemoved == Size(old(edges)) - Size(edges)
      ensures Valid() && forall d :: d in Deaf(nodes, edges) <==> d in Deaf(old(nodes), old(edges)) && d.0 in edges && d.1 !in updated
    {
      ghost var ns, es := nodes, edges;
      var snapshot, todo := nodes, nodes.Keys;
      updated, edgesRemoved := {}, 0;
      NothingBereft(ns, es);
      hide NodesLinked;
      hide Paired;
      hide Bereft;
      hide Trimmed;
      hide Deaf;
      hide Size;
      while todo != {}
        invariant todo <= ns.Keys && snapshot == ns
        invariant forall n :: n in updated <==> n in ns && n !in todo && stale(ns[n])
        invariant edges == Bereft(ns, es, updated) && nodes == Trimmed(ns - updated, es.Keys - edges.Keys)
        invariant edgesRemoved + Size(edges) == Size(es)
        decreases |todo|
      {
        var n :| n in todo;
        if stale(snapshot[n]) {
          var gone := DetachNode(n, snapshot[n].edges, ns, es, updated);
          edgesRemoved := edgesRemoved + gone;
          nodes := nodes - {n};
          updated := updated + {n};
        }
        todo := todo - {n};
      }
      RebuiltSound(ns, es, updated);
    }

    /** One pair of BuildHyperedges: it has its edge afterwards when the keyword sets are close enough. */
    method ConsiderPair(kw: Keywords, e: EdgeId, minSim: real, touched: set<NodeId>, now: int,
                        ghost ns: Nodes, ghost es: Edges, ghost met: set<EdgeId>) returns (changed: bool)
      requires Valid() && IsPair(kw, e) && kw.Keys <= nodes.Keys
      requires e !in met && Built(kw, minSim, touched, ns, es, nodes, edges, met) && Drawn(kw, minSim, touched, now, ns, es, nodes, edges, met)
      modifies this`nodes, this`edges
      ensures Valid() && nodes.Keys == old(nodes).Keys && Built(kw, minSim, touched, ns, es, nodes, edges, met + {e})
      ensures Drawn(kw, minSim, touched, now, ns, es, nodes, edges, met + {e})
      ensures changed <==> Writes(kw, minSim, touched, es, e)
    {
      hide Sound;
      hide Deaf;
      var sim, ok := Jaccard(kw[e.0], kw[e.1]);
      if !ok || sim < minSim {
        NotClose(kw, minSim, touched, ns, es, nodes, edges, met, e);
        NotDrawn(kw, minSim, touched, now, ns, es, nodes, edges, met, e);
        return false;
      }
      hide Similarity;
      hide Drawn;
      hide Drew;
      ghost var ns1, es1 := nodes, edges;
      changed := UpsertSceneEdge(e.0, e.1, sim, now, e.0 in touched || e.1 in touched);
      BuildOne(kw, minSim, touched, ns, es, ns1, es1, nodes, edges, met, e, changed);
      DrawOne(kw, minSim, touched, now, ns, es, ns1, es1, nodes, edges, met, e, changed);
    }

    /** The pairs of one keyword's nodes, each unordered pair once over all keywords. */
    method PairUp(kw: Keywords, list: seq<NodeId>, seen0: set<EdgeId>, minSim: real, touched: set<NodeId>, now: int,
                  ghost ns: Nodes, ghost es: Edges)
      returns (seen: set<EdgeId>, changed: nat)
      requires Valid() && Distinct(list) && kw.Keys <= nodes.Keys && (forall n :: n in list ==> n in kw)
      requires Built(kw, minSim, touched, ns, es, nodes, edges, seen0) && Drawn(kw, minSim, touched, now, ns, es, nodes, edges, seen0)
      modifies this`nodes, this`edges
      ensures Valid() && nodes.Keys == old(nodes).Keys && Built(kw, minSim, touched, ns, es, nodes, edges, seen)
      ensures Drawn(kw, minSim, touched, now, ns, es, nodes, edges, seen)
      ensures changed + |Lines(kw, minSim, touched, es, seen0)| == |Lines(kw, minSim, touched, es, seen)|
      ensures forall e :: e in seen <==> e in seen0 || InList(list, e)
    {
      hide Drawn;
      hide Lines;
      hide Sound;
      hide Built;
      hide Writes;
      hide Taken;
      seen, changed := seen0, 0;
      NoneTaken(list);
      for i := 0 to |list|
        invariant Valid() && nodes.Keys == old(nodes).Keys && Built(kw, minSim, touched, ns, es, nodes, edges, seen)
        invariant Drawn(kw, minSim, touched, now, ns, es, nodes, edges, seen)
        invariant changed + |Lines(kw, minSim, touched, es, seen0)| == |Lines(kw, minSim, touched, es, seen)|
        invariant forall e :: e in seen <==> e in seen0 || Taken(list, i, 0, e)
      {
        RowStart(list, i);
        for j := i + 1 to |list|
          invariant Valid() && nodes.Keys == old(nodes).Keys && Built(kw, minSim, touched, ns, es, nodes, edges, seen)
          invariant Drawn(kw, minSim, touched, now, ns, es, nodes, edges, seen)
          invariant changed + |Lines(kw, minSim, touched, es, seen0)| == |Lines(kw, minSim, touched, es, seen)|
          invariant forall e :: e in seen <==> e in seen0 || Taken(list, i, j, e)
        {
          TakeOne(list, i, j);
          var pair := EdgeOf(list[i], list[j]);
          if pair !in seen {
            assert list[i] in list && list[j] in list;
            var wrote := ConsiderPair(kw, pair, minSim, touched, now, ns, es, seen);
            OneLineMore(kw, minSim, touched, es, seen, pair);
            seen := seen + {pair};
            if wrote {
              changed := changed + 1;
            }
          }
        }
        RowEnd(list, i);
      }
      AllTaken(list);
    }

    /**
     * BuildHyperedges: exactly the pairs of nodes that share a keyword and are similar enough have an edge afterwards,
     * besides the old ones; an old one only rises, over changed evidence; and a deaf member hears its edge again
     * exactly when that edge is written.
     */
    method BuildHyperedges(kw: Keywords, inverted: map<string, seq<NodeId>>, minSim: real, touched: set<NodeId>, now: int)
      returns (changed: nat)
      requires Valid() && kw.Keys <= nodes.Keys && Inverts(kw, inverted)
      modifies this`nodes, this`edges
      ensures Valid() && nodes.Keys == old(nodes).Keys
      ensures exists met :: (forall e :: e in met <==> exists k :: Shares(kw, k, e)) &&
                            Built(kw, minSim, touched, old(nodes), old(edges), nodes, edges, met) &&
                            Drawn(kw, minSim, touched, now, old(nodes), old(edges), nodes, edges, met) &&
                            changed == |Lines(kw, minSim, touched, old(edges), met)|
    {
      hide Sound;
      hide Shares;
      hide Writes;
      changed := 0;
      var seen: set<EdgeId>, todo := {}, inverted.Keys;
      ghost var ns, es := nodes, edges;
      NothingBuilt(kw, minSim, touched, ns, es);
      NothingDrawn(kw, minSim, touched, now, ns, es);
      hide Drawn;
      hide Lines;
      NothingMet(kw, inverted);
      hide Built;
      hide Met;
      while todo != {}
        invariant todo <= inverted.Keys && Valid() && nodes.Keys == old(nodes).Keys
        invariant Met(kw, todo, seen) && Built(kw, minSim, touched, ns, es, nodes, edges, seen)
        invariant Drawn(kw, minSim, touched, now, ns, es, nodes, edges, seen) && changed == |Lines(kw, minSim, touched, es, seen)|
        decreases |todo|
      {
        var k :| k in todo;
        ghost var was := seen;
        var more;
        seen, more := PairUp(kw, inverted[k], seen, minSim, touched, now, ns, es);
        changed := changed + more;
        SharedNext(kw, inverted, todo, k, was, seen);
        todo := todo - {k};
      }
      AllMet(kw, seen);
    }
  }

  lemma {:induction false} PairsAreWide(es: Edges)
    requires Paired(es)
    ensures forall e :: e in es ==> |es[e].members| >= MIN_EDGE_NODES
  {
  }

  // ---- Building edges ----

  type Keywords = map<NodeId, set<string>>

  predicate IsPair(kw: Keywords, e: EdgeId) { e.0 < e.1 && e.0 in kw && e.1 in kw }

  ghost predicate Close(kw: Keywords, minSim: real, e: EdgeId)
  {
    IsPair(kw, e) && kw[e.0] + kw[e.1] != {} && Similarity(kw[e.0], kw[e.1]) >= minSim
  }

  /** A pair whose edge upsertSceneEdge writes: new, or risen over changed evidence. */
  ghost predicate Writes(kw: Keywords, minSim: real, touched: set<NodeId>, es: Edges, e: EdgeId)
  {
    Close(kw, minSim, e) &&
    (e !in es || (Similarity(kw[e.0], kw[e.1]) > es[e].weight && (e.0 in touched || e.1 in touched)))
  }

  /** What considering the pairs in met has made of the network (ns0, es0). */
  ghost predicate Built(kw: Keywords, minSim: real, touched: set<NodeId>, ns0: Nodes, es0: Edges, ns: Nodes, es: Edges, met: set<EdgeId>)
  {
    && (forall e :: e in es <==> e in es0 || (e in met && Close(kw, minSim, e)))
    && (forall e :: e in es0 ==>
          (es[e] == if e in met && Writes(kw, minSim, touched, es0, e) then es0[e].(weight := Similarity(kw[e.0], kw[e.1])) else es0[e]))
    && (forall d :: d in Deaf(ns, es) <==> d in Deaf(ns0, es0) && !(d.0 in met && Writes(kw, minSim, touched, es0, d.0)))
  }

  /** What one write of an edge leaves besides its weight: a new edge whole, and the nodes with nothing but that edge added. */
  ghost predicate Drew(ns: Nodes, es: Edges, ns': Nodes, es': Edges, e: EdgeId, weight: real, now: int, written: bool)
  {
    && (written && e !in es ==> e in es' && es'[e] == Edge([e.0, e.1], weight, now, 0))
    && NodesKept(ns, ns')
    && (forall n, f :: n in ns && n in ns' ==>
          (f in ns'[n].edges <==> f in ns[n].edges || (written && f == e && (n == e.0 || n == e.1))))
  }

  /** No node comes, goes or changes but in the edges it lists, behind those it listed. */
  ghost predicate NodesKept(ns: Nodes, ns': Nodes)
  {
    && ns'.Keys == ns.Keys
    && (forall n :: n in ns && n in ns' ==> ns'[n] == ns[n].(edges := ns'[n].edges))
    && (forall n :: n in ns && n in ns' ==> ns[n].edges <= ns'[n].edges && (Distinct(ns[n].edges) ==> Distinct(ns'[n].edges)))
  }

  /** The same of all the pairs in met: every new edge whole, every node with just the edges written on it added. */
  ghost predicate Drawn(kw: Keywords, minSim: real, touched: set<NodeId>, now: int, ns0: Nodes, es0: Edges, ns: Nodes, es: Edges,
                        met: set<EdgeId>)
  {
    && (forall e :: e in es && e !in es0 ==>
          IsPair(kw, e) && kw[e.0] + kw[e.1] != {} && es[e] == Edge([e.0, e.1], Similarity(kw[e.0], kw[e.1]), now, 0))
    && NodesKept(ns0, ns)
    && (forall n, f :: n in ns0 && n in ns ==>
          (f in ns[n].edges <==> f in ns0[n].edges || (f in met && Writes(kw, minSim, touched, es0, f) && (n == f.0 || n == f.1))))
  }

  /** The pairs in met whose edge is written. */
  ghost function Lines(kw: Keywords, minSim: real, touched: set<NodeId>, es: Edges, met: set<EdgeId>): set<EdgeId>
  {
    set e | e in met && Writes(kw, minSim, touched, es, e)
  }

  lemma {:induction false} OneLineMore(kw: Keywords, minSim: real, touched: set<NodeId>, es: Edges, met: set<EdgeId>, e: EdgeId)
    requires e !in met
    ensures |Lines(kw, minSim, touched, es, met + {e})| ==
            |Lines(kw, minSim, touched, es, met)| + if Writes(kw, minSim, touched, es, e) then 1 else 0
  {
    hide Writes;
    var was := Lines(kw, minSim, touched, es, met);
    assert Lines(kw, minSim, touched, es, met + {e}) == if Writes(kw, minSim, touched, es, e) then was + {e} else was;
  }

  lemma {:induction false} AttachedOne(ns: Nodes, n: NodeId, e: EdgeId)
    requires n in ns
    ensures NodesKept(ns, Attached(ns, n, e))
    ensures forall m, f :: m in ns ==> (f in Attached(ns, n, e)[m].edges <==> f in ns[m].edges || (f == e && m == n))
  {
    if e !in ns[n].edges && Distinct(ns[n].edges) {
      JoinDistinct(ns[n].edges, [e]);
    }
    hide Distinct;
  }

  lemma {:induction false} AttachedBoth(ns: Nodes, e: EdgeId)
    requires e.0 in ns && e.1 in ns
    ensures var ns' := Attached(Attached(ns, e.0, e), e.1, e);
            NodesKept(ns, ns') &&
            forall n, f :: n in ns && n in ns' ==> (f in ns'[n].edges <==> f in ns[n].edges || (f == e && (n == e.0 || n == e.1)))
  {
    var one := Attached(ns, e.0, e);
    AttachedOne(ns, e.0, e);
    assert one.Keys == ns.Keys;
    hide Attached;
    AttachedOne(one, e.1, e);
    KeptTwice(ns, one, Attached(one, e.1, e));
    hide NodesKept;
  }

  lemma {:induction false} NothingDrawn(kw: Keywords, minSim: real, touched: set<NodeId>, now: int, ns: Nodes, es: Edges)
    ensures Drawn(kw, minSim, touched, now, ns, es, ns, es, {}) && Lines(kw, minSim, touched, es, {}) == {}
  {
  }

  lemma {:induction false} NotDrawn(kw: Keywords, minSim: real, touched: set<NodeId>, now: int, ns0: Nodes, es0: Edges, ns: Nodes, es: Edges,
                                    met: set<EdgeId>, e: EdgeId)
    requires Drawn(kw, minSim, touched, now, ns0, es0, ns, es, met) && !Writes(kw, minSim, touched, es0, e)
    ensures Drawn(kw, minSim, touched, now, ns0, es0, ns, es, met + {e})
  {
    hide Writes;
    hide Similarity;
    hide NodesKept;
  }

  lemma {:induction false} DrawOne(kw: Keywords, minSim: real, touched: set<NodeId>, now: int, ns0: Nodes, es0: Edges, ns: Nodes, es: Edges,
                                   ns': Nodes, es': Edges, met: set<EdgeId>, e: EdgeId, written: bool)
    requires Drawn(kw, minSim, touched, now, ns0, es0, ns, es, met) && Close(kw, minSim, e)
    requires Drew(ns, es, ns', es', e, Similarity(kw[e.0], kw[e.1]), now, written) && (written <==> Writes(kw, minSim, touched, es0, e))
    requires (e in es <==> e in es0) && es' == if written && e in es' then es[e := es'[e]] else es
    ensures Drawn(kw, minSim, touched, now, ns0, es0, ns', es', met + {e})
  {
    KeptTwice(ns0, ns, ns');
    hide NodesKept;
    hide Writes;
    hide Similarity;
  }

  lemma {:induction false} KeptTwice(ns0: Nodes, ns: Nodes, ns': Nodes)
    requires NodesKept(ns0, ns) && NodesKept(ns, ns')
    ensures NodesKept(ns0, ns')
  {
  }

  ghost function Size(es: Edges): nat { |es| }

  lemma {:induction false} OneLess(es: Edges, e: EdgeId)
    requires e in es
    ensures |es - {e}| + 1 == |es|
  {
    assert (es - {e}).Keys == es.Keys - {e};
  }

  lemma {:induction false} SameKeys(es: Edges, e: EdgeId, edge: Edge)
    requires e in es
    ensures |es[e := edge]| == |es|
  {
    assert es[e := edge].Keys == es.Keys;
  }

  lemma {:induction false} NothingBuilt(kw: Keywords, minSim: real, touched: set<NodeId>, ns: Nodes, es: Edges)
    ensures Built(kw, minSim, touched, ns, es, ns, es, {})
  {
  }

  lemma {:induction false} NotClose(kw: Keywords, minSim: real, touched: set<NodeId>, ns0: Nodes, es0: Edges, ns: Nodes, es: Edges,
                                    met: set<EdgeId>, e: EdgeId)
    requires Built(kw, minSim, touched, ns0, es0, ns, es, met) && !Close(kw, minSim, e)
    ensures Built(kw, minSim, touched, ns0, es0, ns, es, met + {e}) && !Writes(kw, minSim, touched, es0, e)
  {
    hide Deaf;
  }

  lemma {:induction false} BuildOne(kw: Keywords, minSim: real, touched: set<NodeId>, ns0: Nodes, es0: Edges, ns: Nodes, es: Edges,
                                    ns': Nodes, es': Edges, met: set<EdgeId>, e: EdgeId, written: bool)
    requires Built(kw, minSim, touched, ns0, es0, ns, es, met) && e !in met && Close(kw, minSim, e) && e in es'
    requires written <==> e !in es || (Similarity(kw[e.0], kw[e.1]) > es[e].weight && (e.0 in touched || e.1 in touched))
    requires es' == if written then es[e := es'[e]] else es
    requires written ==> es'[e].weight == Similarity(kw[e.0], kw[e.1])
    requires e in es ==> es'[e].(weight := 0.0) == es[e].(weight := 0.0)
    requires forall d :: d in Deaf(ns', es') <==> d in Deaf(ns, es) && !(written && d.0 == e)
    ensures Built(kw, minSim, touched, ns0, es0, ns', es', met + {e}) && (written <==> Writes(kw, minSim, touched, es0, e))
  {
    hide Deaf;
    hide Similarity;
    assert written <==> Writes(kw, minSim, touched, es0, e);
    assert e in es0 && written ==> es'[e] == es0[e].(weight := Similarity(kw[e.0], kw[e.1]));
    hide Close;
    hide Writes;
  }

  ghost predicate Shares(kw: Keywords, k: string, e: EdgeId) { IsPair(kw, e) && k in kw[e.0] && k in kw[e.1] }

  /** The keyword -> nodes index: exactly the nodes whose set holds the keyword, each once. */
  ghost predicate Inverts(kw: Keywords, inverted: map<string, seq<NodeId>>)
  {
    && (forall k :: k in inverted ==> Distinct(inverted[k]))
    && (forall k, n :: (k in inverted && n in inverted[k]) <==> (n in kw && k in kw[n]))
  }

  ghost function Similarity(a: set<string>, b: set<string>): real
    requires a + b != {}
  {
    |a * b| as real / |a + b| as real
  }

  lemma {:induction false} CountNext(a: set<string>, b: set<string>, todo: set<string>, k: string)
    requires k in todo && todo <= b
    ensures |a * (b - (todo - {k}))| == |a * (b - todo)| + (if k in a then 1 else 0)
    ensures |a + (b - (todo - {k}))| == |a + (b - todo)| + (if k in a then 0 else 1)
  {
    var done, next := b - todo, b - (todo - {k});
    assert next == done + {k} && k !in done;
    if k in a {
      assert a * next == (a * done) + {k};
      assert a + next == a + done;
    } else {
      assert a * next == a * done;
      assert a + next == (a + done) + {k};
    }
  }

  /** jaccard: shared over all, counted in one scan of the second set. */
  method Jaccard(a: set<string>, b: set<string>) returns (sim: real, ok: bool)
    ensures ok <==> a + b != {}
    ensures ok ==> sim == Similarity(a, b)
  {
    var inter, union := 0, |a|;
    var todo := b;
    assert a * (b - todo) == {} && a + (b - todo) == a;
    while todo != {}
      invariant todo <= b && inter == |a * (b - todo)| && union == |a + (b - todo)|
      decreases |todo|
    {
      var k :| k in todo;
      CountNext(a, b, todo, k);
      if k in a {
        inter := inter + 1;
      } else {
        union := union + 1;
      }
      todo := todo - {k};
    }
    assert b - {} == b;
    if union == 0 {
      return 0.0, false;
    }
    return inter as real / union as real, true;
  }

  predicate InList(list: seq<NodeId>, e: EdgeId) { e.0 < e.1 && e.0 in list && e.1 in list }

  /** The pairs a double loop has met on reaching (i, j). */
  ghost predicate Taken(list: seq<NodeId>, i: nat, j: nat, e: EdgeId)
  {
    exists k: nat, l: nat :: k < l < |list| && (k < i || (k == i && l < j)) && EdgeOf(list[k], list[l]) == e
  }

  lemma {:induction false} NoneTaken(list: seq<NodeId>)
    ensures forall e :: !Taken(list, 0, 0, e)
  {
  }

  lemma {:induction false} RowStart(list: seq<NodeId>, i: nat)
    ensures forall e :: Taken(list, i, i + 1, e) <==> Taken(list, i, 0, e)
  {
    forall e
      ensures Taken(list, i, i + 1, e) <==> Taken(list, i, 0, e)
    {
    }
  }

  lemma {:induction false} TakeOne(list: seq<NodeId>, i: nat, j: nat)
    requires i < j < |list|
    ensures forall e :: Taken(list, i, j + 1, e) <==> Taken(list, i, j, e) || e == EdgeOf(list[i], list[j])
  {
    forall e
      ensures Taken(list, i, j + 1, e) <==> Taken(list, i, j, e) || e == EdgeOf(list[i], list[j])
    {
    }
  }

  lemma {:induction false} RowEnd(list: seq<NodeId>, i: nat)
    requires i < |list|
    ensures forall e :: Taken(list, i, |list|, e) <==> Taken(list, i + 1, 0, e)
  {
    forall e
      ensures Taken(list, i, |list|, e) <==> Taken(list, i + 1, 0, e)
    {
    }
  }

  lemma {:induction false} AllTaken(list: seq<NodeId>)
    requires Distinct(list)
    ensures forall e :: Taken(list, |list|, 0, e) <==> InList(list, e)
  {
    forall e
      ensures Taken(list, |list|, 0, e) <==> InList(list, e)
    {
      if InList(list, e) {
        var k: nat :| k < |list| && list[k] == e.0;
        var l: nat :| l < |list| && list[l] == e.1;
        assert EdgeOf(list[k], list[l]) == e && EdgeOf(list[l], list[k]) == e;
      }
    }
  }

  /** seen holds the pairs that share a keyword already taken, and no others. */
  ghost predicate Met(kw: Keywords, todo: set<string>, seen: set<EdgeId>)
  {
    forall e :: e in seen <==> exists k :: k !in todo && Shares(kw, k, e)
  }

  lemma {:induction false} NothingMet(kw: Keywords, inverted: map<string, seq<NodeId>>)
    requires Inverts(kw, inverted)
    ensures Met(kw, inverted.Keys, {})
  {
  }

  lemma {:induction false} AllMet(kw: Keywords, seen: set<EdgeId>)
    requires Met(kw, {}, seen)
    ensures forall e :: e in seen <==> exists k :: Shares(kw, k, e)
  {
  }

  lemma {:induction false} SharedNext(kw: Keywords, inverted: map<string, seq<NodeId>>, todo: set<string>, k: string,
                                      was: set<EdgeId>, seen: set<EdgeId>)
    requires Inverts(kw, inverted) && k in todo && k in inverted
    requires Met(kw, todo, was)
    requires forall e :: e in seen <==> e in was || InList(inverted[k], e)
    ensures Met(kw, todo - {k}, seen)
  {
    forall e
      ensures e in seen <==> exists l :: l !in todo - {k} && Shares(kw, l, e)
    {
      assert InList(inverted[k], e) <==> Shares(kw, k, e);
    }
  }

  /** The edges that no node in dead lists. */
  ghost function Bereft(ns: Nodes, es: Edges, dead: set<NodeId>): Edges
  {
    map e | e in es && (forall n :: n in dead && n in ns ==> e !in ns[n].edges) :: es[e]
  }

  ghost function Apart(es: Edges, list: seq<EdgeId>): Edges { map e | e in es && e !in list :: es[e] }

  lemma {:induction false} NothingBereft(ns: Nodes, es: Edges)
    ensures Bereft(ns, es, {}) == es && Trimmed(ns - {}, es.Keys - es.Keys) == ns
  {
    forall n | n in ns
      ensures Minus(ns[n].edges, es.Keys - es.Keys) == ns[n].edges
    {
      MinusNothing(ns[n].edges, es.Keys - es.Keys);
    }
  }

  lemma {:induction false} OthersTrimmed(ns: Nodes, dead: set<NodeId>, n: NodeId, gone: set<EdgeId>)
    ensures Trimmed(ns - dead, gone) - {n} == Trimmed(ns - (dead + {n}), gone)
  {
    hide Minus;
  }

  lemma {:induction false} NoneDetached(ns: Nodes, es: Edges, dead: set<NodeId>, n: NodeId)
    requires n in ns
    ensures var now := Bereft(ns, es, dead);
            && Apart(now, ns[n].edges[..0]) == now
            && Trimmed(ns - dead, es.Keys - now.Keys) - {n} == Trimmed(ns - (dead + {n}), es.Keys - now.Keys)
  {
    hide Bereft;
    OthersTrimmed(ns, dead, n, es.Keys - Bereft(ns, es, dead).Keys);
  }

  lemma {:induction false} AllDetached(ns: Nodes, es: Edges, dead: set<NodeId>, n: NodeId)
    requires n in ns
    ensures Apart(Bereft(ns, es, dead), ns[n].edges) == Bereft(ns, es, dead + {n})
  {
  }

  /** One edge off a stale node: it is a pair, so it goes, and the other member forgets it. */
  lemma {:induction false} DetachStep(ns: Nodes, es: Edges, dead: set<NodeId>, n: NodeId, list: seq<EdgeId>, i: nat, now: Edges, cur: Nodes)
    requires NodesLinked(ns, es) && Paired(es) && n in ns && n !in dead && list == ns[n].edges && i < |list|
    requires now == Apart(Bereft(ns, es, dead), list[..i]) && cur - {n} == Trimmed(ns - (dead + {n}), es.Keys - now.Keys)
    ensures var e, after := list[i], Apart(Bereft(ns, es, dead), list[..i + 1]);
            && (e in now ==> |now[e].members| >= MIN_EDGE_NODES) && CutOne(now, e, n) == after
            && e !in after && (e !in now ==> after == now)
            && (e in now ==> DropEdge(cur, Minus(now[e].members, {n}), e) - {n} == Trimmed(ns - (dead + {n}), es.Keys - after.Keys))
  {
    var e, after := list[i], Apart(Bereft(ns, es, dead), list[..i + 1]);
    assert list[..i + 1] == list[..i] + [e];
    assert e in list;
    if e in now {
      assert now[e].members == es[e].members == [e.0, e.1] && (n == e.0 || n == e.1) && e.0 != e.1;
      var kept := Minus(now[e].members, {n});
      PairLess(e.0, e.1, n);
      assert CutOne(now, e, n) == now - {e} == after;
      var others := ns - (dead + {n});
      forall m | m in others && e in others[m].edges
        ensures m in kept
      {
        assert m in es[e].members;
        MinusIn(now[e].members, {n}, m);
      }
      DropIsTrim(others, es.Keys - now.Keys, kept, e);
      assert es.Keys - after.Keys == (es.Keys - now.Keys) + {e};
      DropElsewhere(cur, kept, e, n);
    } else {
      assert after == now;
    }
  }

  lemma {:induction false} PairLess(a: NodeId, b: NodeId, n: NodeId)
    requires a != b && (n == a || n == b)
    ensures Minus([a, b], {n}) == [if n == a then b else a]
  {
    assert [a, b][1..] == [b] && [b][1..] == [];
  }

  lemma {:induction false} DropElsewhere(ns: Nodes, members: seq<NodeId>, e: EdgeId, n: NodeId)
    ensures DropEdge(ns, members, e) - {n} == DropEdge(ns - {n}, members, e)
  {
    hide Minus;
  }

  lemma {:induction false} RebuiltSound(ns: Nodes, es: Edges, dead: set<NodeId>)
    requires Sound(ns, es)
    ensures var es' := Bereft(ns, es, dead);
            var ns' := Trimmed(ns - dead, es.Keys - es'.Keys);
            Sound(ns', es') && forall d :: d in Deaf(ns', es') <==> d in Deaf(ns, es) && d.0 in es' && d.1 !in dead
  {
    var es' := Bereft(ns, es, dead);
    var ns' := Trimmed(ns - dead, es.Keys - es'.Keys);
    forall n, e | n in ns'
      ensures e in ns'[n].edges <==> e in ns[n].edges && (e in es' || e !in es)
    {
      MinusIn(ns[n].edges, es.Keys - es'.Keys, e);
    }
    assert ns'.Keys == ns.Keys - dead;
    hide Minus;
    hide Trimmed;
    assert forall e :: e in es' ==> e in es && es'[e] == es[e];
    LessSound(ns, es, ns', es', dead);
  }

  lemma {:induction false} LessSound(ns: Nodes, es: Edges, ns': Nodes, es': Edges, dead: set<NodeId>)
    requires Sound(ns, es) && ns'.Keys == ns.Keys - dead && forall e :: e in es' ==> e in es && es'[e] == es[e]
    requires forall n, e :: n in ns' ==> (e in ns'[n].edges <==> e in ns[n].edges && (e in es' || e !in es))
    ensures Sound(ns', es') && forall d :: d in Deaf(ns', es') <==> d in Deaf(ns, es) && d.0 in es' && d.1 !in dead
  {
  }

  /** A written edge is heard by both its members; nothing else changes for anyone. */
  lemma {:induction false} UpsertSound(ns: Nodes, es: Edges, e: EdgeId, edge: Edge)
    requires Sound(ns, es) && e.0 != e.1 && e.0 in ns && e.1 in ns && edge.members == [e.0, e.1]
    ensures var ns', es' := Attached(Attached(ns, e.0, e), e.1, e), es[e := edge];
            Sound(ns', es') && forall d :: d in Deaf(ns', es') <==> d in Deaf(ns, es) && d.0 != e
  {
    var ns', es' := Attached(Attached(ns, e.0, e), e.1, e), es[e := edge];
    assert ns'.Keys == ns.Keys;
    forall n, f | n in ns'
      ensures f in ns'[n].edges <==> f in ns[n].edges || (f == e && (n == e.0 || n == e.1))
    {
    }
    hide Attached;
    HeardAgain(ns, es, ns', es', e);
  }

  lemma {:induction false} HeardAgain(ns: Nodes, es: Edges, ns': Nodes, es': Edges, e: EdgeId)
    requires ns'.Keys == ns.Keys && e in es' && es'[e].members == [e.0, e.1]
    requires forall n, f :: n in ns' ==> (f in ns'[n].edges <==> f in ns[n].edges || (f == e && (n == e.0 || n == e.1)))
    requires forall f :: f != e ==> (f in es' <==> f in es) && (f in es ==> es'[f] == es[f])
    ensures forall d :: d in Deaf(ns', es') <==> d in Deaf(ns, es) && d.0 != e
  {
  }

  function Attached(ns: Nodes, n: NodeId, e: EdgeId): Nodes
  {
    if n in ns && e !in ns[n].edges then ns[n := ns[n].(edges := ns[n].edges + [e])] else ns
  }

  /** A scene's node after a sync: unchanged with the same topics, else re-stamped; edges and importance its own. */
  function Synced(ns: Nodes, n: NodeId, ids: seq<nat>, now: int): (r: Node)
    ensures r.topics == ids && r.edges == (if n in ns then ns[n].edges else [])
    ensures n in ns ==> r == ns[n].(topics := ids, updatedAt := r.updatedAt) && (r.updatedAt == now || r == ns[n])
    ensures n in ns && ns[n].topics == ids ==> r == ns[n]
    ensures n !in ns || ns[n].topics != ids ==> r.updatedAt == now
    ensures n !in ns ==> r.importance == 1.0 && r.arousal == 0.0 && r.valence == 0.0
  {
    if n in ns then (if ns[n].topics == ids then ns[n] else ns[n].(topics := ids, updatedAt := now))
    else Node(ids, [], 1.0, 0.0, 0.0, now)
  }

  ghost function SyncedAll(ns: Nodes, byScene: map<NodeId, seq<nat>>, now: int): Nodes
  {
    map n | n in ns.Keys + byScene.Keys :: if n in byScene then Synced(ns, n, byScene[n], now) else ns[n]
  }

  /** The scenes whose node a sync writes. */
  function Changed(ns: Nodes, byScene: map<NodeId, seq<nat>>): set<NodeId>
  {
    set n | n in byScene && (n !in ns || ns[n].topics != byScene[n])
  }

  /** The dead members a sync of these scenes gives a new node to. */
  ghost function Revived(ns: Nodes, es: Edges, scenes: set<NodeId>): set<(EdgeId, NodeId)>
  {
    set d | d in Dead(ns, es) && d.1 in scenes
  }

  lemma {:induction false} SyncDeafens(ns: Nodes, es: Edges, byScene: map<NodeId, seq<nat>>, now: int)
    requires Sound(ns, es)
    ensures var ns' := SyncedAll(ns, byScene, now);
            && Sound(ns', es) && Deaf(ns', es) == Deaf(ns, es) + Revived(ns, es, byScene.Keys)
            && Dead(ns', es) == Dead(ns, es) - Revived(ns, es, byScene.Keys)
  {
    var ns' := SyncedAll(ns, byScene, now);
    forall n | n in ns'
      ensures ns'[n].edges == if n in ns then ns[n].edges else []
    {
    }
    hide Synced;
  }

  lemma {:induction false} SyncedNone(ns: Nodes, byScene: map<NodeId, seq<nat>>, now: int)
    ensures SyncedAll(ns, byScene - byScene.Keys, now) == ns && Changed(ns, byScene - byScene.Keys) == {}
  {
    hide Synced;
  }

  /** One more scene synced. */
  lemma {:induction false} SyncedNext(ns: Nodes, byScene: map<NodeId, seq<nat>>, todo: set<NodeId>, n: NodeId, now: int)
    requires n in todo && todo <= byScene.Keys
    ensures var cur := SyncedAll(ns, byScene - todo, now);
            && (n in ns <==> n in cur) && (n in ns ==> cur[n] == ns[n])
            && SyncedAll(ns, byScene - (todo - {n}), now) == cur[n := Synced(cur, n, byScene[n], now)]
            && Changed(ns, byScene - (todo - {n})) ==
               Changed(ns, byScene - todo) + if n !in ns || ns[n].topics != byScene[n] then {n} else {}
  {
    var cur, next := SyncedAll(ns, byScene - todo, now), SyncedAll(ns, byScene - (todo - {n}), now);
    assert Synced(cur, n, byScene[n], now) == Synced(ns, n, byScene[n], now);
    hide Synced;
    assert next.Keys == cur.Keys + {n};
  }

  /** The edge id of a pair, whichever way round it is given. */
  function EdgeOf(a: NodeId, b: NodeId): EdgeId { if a <= b then (a, b) else (b, a) }

  /** Who leaves an edge in a pass: no node any more, faded away, or faded enough to be stripped of it. */
  ghost predicate Leaves(p: Pass, ns: Nodes, e: EdgeId, m: NodeId)
  {
    m !in ns || p.Removes(ns[m]) || (p.Prunes(ns[m]) && e in ns[m].edges)
  }

  ghost function Leavers(p: Pass, ns: Nodes, e: EdgeId, xs: seq<NodeId>): set<NodeId> { set m | m in xs && Leaves(p, ns, e, m) }

  ghost function DecayedEdge(p: Pass, ns: Nodes, e: EdgeId, edge: Edge): Edge
  {
    edge.(members := Minus(edge.members, Leavers(p, ns, e, edge.members)), weight := p.Weight(edge), lastDecayAt := p.now)
  }

  ghost function DecayedEdges(p: Pass, ns: Nodes, es: Edges): Edges
  {
    map e | e in es && |DecayedEdge(p, ns, e, es[e]).members| >= MIN_EDGE_NODES && p.Weight(es[e]) >= EDGE_REMOVE ::
      DecayedEdge(p, ns, e, es[e])
  }

  ghost function DecayedNodes(p: Pass, ns: Nodes, es: Edges): Nodes
  {
    Trimmed(Faded(p, ns), es.Keys - DecayedEdges(p, ns, es).Keys)
  }

  /**
   * After a completed pass every edge has its two members, both live, and the deaf ones are those that were deaf before
   * to an edge that survived; so node and edge lists agree exactly when there were none.
   */
  lemma {:induction false} DecayIsExact(p: Pass, ns: Nodes, es: Edges)
    requires Sound(ns, es)
    ensures var ns', es' := DecayedNodes(p, ns, es), DecayedEdges(p, ns, es);
            && Sound(ns', es') && Dead(ns', es') == {}
            && (forall d :: d in Deaf(ns', es') <==> d in Deaf(ns, es) && d.0 in es')
            && (Exact(ns', es') <==> forall d :: d in Deaf(ns, es) ==> d.0 !in es')
  {
    var ns', es' := DecayedNodes(p, ns, es), DecayedEdges(p, ns, es);
    hide DecayedNodes;
    hide DecayedEdges;
    hide Minus;
    hide Leaves;
    forall e | e in es'
      ensures e in es && es'[e].members == es[e].members == [e.0, e.1] && e.0 != e.1
    {
      DecayedMembers(p, ns, es, e);
    }
    forall e, n | e in es' && n in es'[e].members
      ensures n in ns' && n in ns
    {
      DecayedLive(p, ns, es, e, n);
    }
    forall n | n in ns'
      ensures n in ns
    {
      ListedAfter(p, ns, es, n, (0, 0));
    }
    forall n, e | n in ns'
      ensures e in ns'[n].edges <==> e in es' && n in es'[e].members && e in ns[n].edges
    {
      ListedAfter(p, ns, es, n, e);
    }
    hide NodesLinked;
    AfterDecay(ns, es, ns', es');
  }

  lemma {:induction false} AfterDecay(ns: Nodes, es: Edges, ns': Nodes, es': Edges)
    requires forall e :: e in es' ==> e in es && es'[e].members == es[e].members == [e.0, e.1] && e.0 != e.1
    requires forall e, n :: e in es' && n in es'[e].members ==> n in ns' && n in ns
    requires forall n :: n in ns' ==> n in ns
    requires forall n, e :: n in ns' ==> (e in ns'[n].edges <==> e in es' && n in es'[e].members && e in ns[n].edges)
    ensures Sound(ns', es') && Dead(ns', es') == {}
    ensures forall d :: d in Deaf(ns', es') <==> d in Deaf(ns, es) && d.0 in es'
    ensures Exact(ns', es') <==> forall d :: d in Deaf(ns, es) ==> d.0 !in es'
  {
    assert Dead(ns', es') == {};
    assert Sound(ns', es');
    forall d
      ensures d in Deaf(ns', es') <==> d in Deaf(ns, es) && d.0 in es'
    {
    }
    DeafIsInexact(ns', es');
  }

  lemma {:induction false} DeafIsInexact(ns: Nodes, es: Edges)
    requires Sound(ns, es) && Dead(ns, es) == {}
    ensures Exact(ns, es) <==> Deaf(ns, es) == {}
  {
    forall e | e in es
      ensures Distinct(es[e].members) && |es[e].members| == 2
    {
      assert es[e].members == [e.0, e.1];
    }
    assert forall e, n :: e in es && n in es[e].members && n !in ns ==> (e, n) in Dead(ns, es);
    assert forall e, n :: e in es && n in es[e].members && n in ns && e !in ns[n].edges ==> (e, n) in Deaf(ns, es);
  }

  lemma {:induction false} DecayedLive(p: Pass, ns: Nodes, es: Edges, e: EdgeId, n: NodeId)
    requires e in es && e in DecayedEdges(p, ns, es) && n in DecayedEdges(p, ns, es)[e].members
    ensures n in DecayedNodes(p, ns, es) && n in ns
  {
    MinusIn(es[e].members, Leavers(p, ns, e, es[e].members), n);
    hide Minus;
    hide DecayRate;
  }

  lemma {:induction false} ListedAfter(p: Pass, ns: Nodes, es: Edges, n: NodeId, e: EdgeId)
    requires NodesLinked(ns, es) && Paired(es) && n in DecayedNodes(p, ns, es)
    ensures n in ns && !p.Removes(ns[n])
    ensures e in DecayedNodes(p, ns, es)[n].edges <==>
            e in DecayedEdges(p, ns, es) && n in DecayedEdges(p, ns, es)[e].members && e in ns[n].edges
  {
    var es' := DecayedEdges(p, ns, es);
    assert n in ns && !p.Removes(ns[n]);
    assert DecayedNodes(p, ns, es)[n].edges == Minus(p.Fade(ns[n]).edges, es.Keys - es'.Keys);
    MinusIn(p.Fade(ns[n]).edges, es.Keys - es'.Keys, e);
    if e in es' {
      DecayedMembers(p, ns, es, e);
    }
    assert e in es' ==> e in es;
    assert e in ns[n].edges ==> e in es && n in es[e].members;
    hide DecayedNodes;
    hide DecayedEdges;
    hide Minus;
    hide DecayRate;
    hide NodesLinked;
  }

  lemma {:induction false} DecayedMembers(p: Pass, ns: Nodes, es: Edges, e: EdgeId)
    requires Paired(es) && e in DecayedEdges(p, ns, es)
    ensures var ms := DecayedEdges(p, ns, es)[e].members;
            && e in es && e.0 != e.1 && Distinct(ms) && ms == es[e].members == [e.0, e.1] && |ms| >= MIN_EDGE_NODES
            && (forall n :: n in ms <==> n in es[e].members && !Leaves(p, ns, e, n))
  {
    var xs := es[e].members;
    MinusNothing(xs, Leavers(p, ns, e, xs));
    forall n
      ensures n in Minus(xs, Leavers(p, ns, e, xs)) <==> n in xs && !Leaves(p, ns, e, n)
    {
      MinusIn(xs, Leavers(p, ns, e, xs), n);
    }
  }

  /** What decayNodes leaves is what the other two phases may start from. */
  lemma {:induction false} FadedLinked(p: Pass, ns: Nodes, es: Edges, cleared: map<EdgeId, set<NodeId>>)
    requires NodesLinked(ns, es)
    requires ClearedBy(p, ns, cleared)
    ensures NodesLinked(Faded(p, ns), es)
    ensures forall e, n :: n in Faded(p, ns) && n in Lost(cleared, e) ==> e !in Faded(p, ns)[n].edges
  {
    hide DecayRate;
    hide ElapsedHours;
  }

  lemma {:induction false} PassesCompose(p: Pass, ns: Nodes, es: Edges, cleared: map<EdgeId, set<NodeId>>)
    requires NodesLinked(ns, es) && ClearedBy(p, ns, cleared)
    ensures var faded, es1 := Faded(p, ns), Cut(es, cleared);
            var ns1 := Trimmed(faded, es.Keys - es1.Keys);
            var es2 := Aged(p, ns1.Keys, es1, {});
            && ns1.Keys == faded.Keys && NodesLinked(ns1, es1) && es2 == DecayedEdges(p, ns, es)
            && Trimmed(ns1, es1.Keys - es2.Keys) == DecayedNodes(p, ns, es)
  {
    var faded, es1 := Faded(p, ns), Cut(es, cleared);
    hide Faded;
    hide Cut;
    hide Minus;
    hide ClearedBy;
    hide NodesLinked;
    hide Aged;
    hide DecayedEdges;
    var ns1 := Trimmed(faded, es.Keys - es1.Keys);
    assert ns1.Keys == faded.Keys;
    var es2, goal := Aged(p, faded.Keys, es1, {}), DecayedEdges(p, ns, es);
    forall e
      ensures e in es2 <==> e in goal
      ensures e in es2 ==> e in goal && es2[e] == goal[e]
    {
      EdgeComposes(p, ns, es, cleared, e);
    }
    assert es2 == goal;
    LinkedBetween(p, ns, es, cleared);
    EdgesShrink(p, faded.Keys, es, cleared);
    hide Trimmed;
    TrimTwice(faded, es.Keys, es1.Keys, es2.Keys);
  }

  lemma {:induction false} EdgesShrink(p: Pass, live: set<NodeId>, es: Edges, cleared: map<EdgeId, set<NodeId>>)
    ensures Aged(p, live, Cut(es, cleared), {}).Keys <= Cut(es, cleared).Keys <= es.Keys
  {
  }

  lemma {:induction false} TrimTwice(ns: Nodes, a: set<EdgeId>, b: set<EdgeId>, c: set<EdgeId>)
    requires c <= b <= a
    ensures Trimmed(Trimmed(ns, a - b), b - c) == Trimmed(ns, a - c)
  {
    assert (a - b) + (b - c) == a - c;
    forall n | n in ns
      ensures Minus(Minus(ns[n].edges, a - b), b - c) == Minus(ns[n].edges, a - c)
    {
      MinusTwice(ns[n].edges, a - b, b - c);
    }
  }

  lemma {:induction false} LinkedBetween(p: Pass, ns: Nodes, es: Edges, cleared: map<EdgeId, set<NodeId>>)
    requires NodesLinked(ns, es) && ClearedBy(p, ns, cleared)
    ensures var es1 := Cut(es, cleared); NodesLinked(Trimmed(Faded(p, ns), es.Keys - es1.Keys), es1)
  {
    var es1 := Cut(es, cleared);
    var ns1 := Trimmed(Faded(p, ns), es.Keys - es1.Keys);
    forall n, e | n in ns1 && e in ns1[n].edges
      ensures e in es1 && n in es1[e].members
    {
      MinusIn(p.Fade(ns[n]).edges, es.Keys - es1.Keys, e);
      MinusIn(es[e].members, Lost(cleared, e), n);
      hide Minus;
      hide DecayRate;
    }
  }

  lemma {:induction false} MembersCompose(p: Pass, ns: Nodes, es: Edges, cleared: map<EdgeId, set<NodeId>>, e: EdgeId)
    requires ClearedBy(p, ns, cleared) && e in es
    ensures var xs := es[e].members;
            var rest := Minus(xs, Lost(cleared, e));
            Minus(rest, Gone(rest, Faded(p, ns).Keys)) == Minus(xs, Leavers(p, ns, e, xs))
  {
    var xs, lost, live := es[e].members, Lost(cleared, e), Faded(p, ns).Keys;
    var rest := Minus(xs, lost);
    MinusTwice(xs, lost, Gone(rest, live));
    forall x | x in xs
      ensures x in lost + Gone(rest, live) <==> x in Leavers(p, ns, e, xs)
    {
      MinusIn(xs, lost, x);
      assert x in live <==> x in ns && !p.Removes(ns[x]);
      assert x in lost <==> x in ns && p.Prunes(ns[x]) && e in ns[x].edges;
      hide Minus;
      hide Faded;
      hide DecayRate;
    }
    MinusSame(xs, lost + Gone(rest, live), Leavers(p, ns, e, xs));
  }

  lemma {:induction false} AgedAt(p: Pass, live: set<NodeId>, es: Edges, e: EdgeId)
    ensures e in Aged(p, live, es, {}) <==> e in es && Survives(p, live, es[e])
    ensures e in Aged(p, live, es, {}) ==> Aged(p, live, es, {})[e] == AgedEdge(p, live, es[e])
  {
  }

  lemma {:induction false} DecayedAt(p: Pass, ns: Nodes, es: Edges, e: EdgeId)
    ensures e in DecayedEdges(p, ns, es) <==>
            e in es && |Minus(es[e].members, Leavers(p, ns, e, es[e].members))| >= MIN_EDGE_NODES && p.Weight(es[e]) >= EDGE_REMOVE
    ensures e in DecayedEdges(p, ns, es) ==> DecayedEdges(p, ns, es)[e] == DecayedEdge(p, ns, e, es[e])
  {
  }

  lemma {:induction false} SameWeight(p: Pass, edge: Edge, xs: seq<NodeId>)
    ensures p.Weight(edge.(members := xs)) == p.Weight(edge)
  {
  }

  lemma {:induction false} EdgeComposes(p: Pass, ns: Nodes, es: Edges, cleared: map<EdgeId, set<NodeId>>, e: EdgeId)
    requires ClearedBy(p, ns, cleared)
    ensures var es2, goal := Aged(p, Faded(p, ns).Keys, Cut(es, cleared), {}), DecayedEdges(p, ns, es);
            (e in es2 <==> e in goal) && (e in es2 ==> es2[e] == goal[e])
  {
    hide Cut;
    hide Aged;
    hide DecayedEdges;
    hide Faded;
    hide Leavers;
    hide Gone;
    hide Pass.Weight;
    hide ClearedBy;
    hide Minus;
    CutAt(es, cleared, e);
    AgedAt(p, Faded(p, ns).Keys, Cut(es, cleared), e);
    DecayedAt(p, ns, es, e);
    if e in es {
      MembersCompose(p, ns, es, cleared, e);
      SameWeight(p, es[e], Minus(es[e].members, Lost(cleared, e)));
    }
  }

  ghost function Gone(xs: seq<NodeId>, live: set<NodeId>): set<NodeId> { set m | m in xs && m !in live }

  ghost predicate Survives(p: Pass, live: set<NodeId>, edge: Edge)
  {
    |Minus(edge.members, Gone(edge.members, live))| >= MIN_EDGE_NODES && p.Weight(edge) >= EDGE_REMOVE
  }

  ghost function AgedEdge(p: Pass, live: set<NodeId>, edge: Edge): Edge
  {
    edge.(members := Minus(edge.members, Gone(edge.members, live)), weight := p.Weight(edge), lastDecayAt := p.now)
  }

  /** The edges once all but those in todo have been decayed. */
  ghost function Aged(p: Pass, live: set<NodeId>, es: Edges, todo: set<EdgeId>): Edges
  {
    map e | e in es && (e in todo || Survives(p, live, es[e])) :: if e in todo then es[e] else AgedEdge(p, live, es[e])
  }

  lemma {:induction false} NothingAged(p: Pass, ns: Nodes, es: Edges)
    ensures Aged(p, ns.Keys, es, es.Keys) == es && Trimmed(ns, es.Keys - es.Keys) == ns
  {
    forall n | n in ns
      ensures Minus(ns[n].edges, es.Keys - es.Keys) == ns[n].edges
    {
      MinusNothing(ns[n].edges, es.Keys - es.Keys);
    }
    hide Survives;
    hide AgedEdge;
  }

  lemma {:induction false} AgeMore(p: Pass, ns: Nodes, es: Edges, todo: set<EdgeId>, e: EdgeId)
    requires e in todo && todo <= es.Keys && NodesLinked(ns, es)
    ensures var was, after, live := Aged(p, ns.Keys, es, todo), Aged(p, ns.Keys, es, todo - {e}), ns.Keys;
            var trimmed := Trimmed(ns, es.Keys - was.Keys);
            && e in was && was[e] == es[e] && trimmed.Keys == ns.Keys && todo - {e} <= after.Keys
            && (if Survives(p, live, es[e]) then after == was[e := AgedEdge(p, live, es[e])] && trimmed == Trimmed(ns, es.Keys - after.Keys)
                else after == was - {e} &&
                     DropEdge(trimmed, Minus(es[e].members, Gone(es[e].members, live)), e) == Trimmed(ns, es.Keys - after.Keys))
  {
    var was, after := Aged(p, ns.Keys, es, todo), Aged(p, ns.Keys, es, todo - {e});
    if Survives(p, ns.Keys, es[e]) {
      assert after == was[e := AgedEdge(p, ns.Keys, es[e])];
      assert after.Keys == was.Keys;
    } else {
      assert after == was - {e};
      var kept := Minus(es[e].members, Gone(es[e].members, ns.Keys));
      forall m | m in ns && e in ns[m].edges
        ensures m in kept
      {
        MinusIn(es[e].members, Gone(es[e].members, ns.Keys), m);
      }
      DropIsTrim(ns, es.Keys - was.Keys, kept, e);
      assert es.Keys - after.Keys == (es.Keys - was.Keys) + {e};
    }
  }

  lemma {:induction false} NothingCut(ns: Nodes, es: Edges)
    requires forall e :: e in es ==> |es[e].members| >= MIN_EDGE_NODES
    ensures Cut(es, map[]) == es && Trimmed(ns, es.Keys - es.Keys) == ns
  {
    forall e | e in es
      ensures Minus(es[e].members, {}) == es[e].members
    {
      MinusNothing(es[e].members, {});
    }
    forall n | n in ns
      ensures Minus(ns[n].edges, es.Keys - es.Keys) == ns[n].edges
    {
      MinusNothing(ns[n].edges, es.Keys - es.Keys);
    }
  }

  lemma {:induction false} CutSame(es: Edges, c: map<EdgeId, set<NodeId>>, d: map<EdgeId, set<NodeId>>)
    requires forall e :: Lost(c, e) == Lost(d, e)
    ensures Cut(es, c) == Cut(es, d)
  {
  }

  /** One removal keeps the nodes exactly trimmed of the edges gone so far. */
  lemma {:induction false} RemovalTrims(ns: Nodes, es: Edges, did: map<EdgeId, set<NodeId>>, now: Edges, e: EdgeId, n: NodeId)
    requires now == Cut(es, did) && NodesLinked(ns, es)
    requires forall m :: m in ns && (m in Lost(did, e) || m == n) ==> e !in ns[m].edges
    ensures e in now ==> |now[e].members| >= MIN_EDGE_NODES
    ensures var after := CutOne(now, e, n);
            var trimmed := Trimmed(ns, es.Keys - now.Keys);
            (if e in now && e !in after then DropEdge(trimmed, Minus(now[e].members, {n}), e) else trimmed) ==
            Trimmed(ns, es.Keys - after.Keys)
  {
    var after := CutOne(now, e, n);
    CutAt(es, did, e);
    if e in now && e !in after {
      var kept := Minus(now[e].members, {n});
      forall m | m in ns && e in ns[m].edges
        ensures m in kept
      {
        MinusIn(es[e].members, Lost(did, e), m);
        MinusIn(now[e].members, {n}, m);
      }
      DropIsTrim(ns, es.Keys - now.Keys, kept, e);
      assert es.Keys - after.Keys == (es.Keys - now.Keys) + {e};
    } else {
      assert es.Keys - after.Keys == es.Keys - now.Keys;
    }
  }
}
