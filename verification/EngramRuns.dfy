// The L1 network over whole runs: which sequences of syncs, edge building, stale rebuilds, node deletes and decay passes
// leave nodes and edges that name each other exactly. Each step is what the method of module Engrams promises.
module EngramRuns {
  import opened Common
  import opened Engrams

  datatype Net = Net(nodes: Nodes, edges: Edges)

  datatype Op =
    | DeleteNode(n: NodeId)
    | Sync(byScene: map<NodeId, seq<nat>>, at: int)
    | Build(kw: Keywords, minSim: real, touched: set<NodeId>)
    | Rebuild(stale: Node -> bool)
    | Decay(p: Pass)

  ghost function Stale(s: Net, stale: Node -> bool): set<NodeId> { set n | n in s.nodes && stale(s.nodes[n]) }

  /** The pairs that share a keyword. */
  ghost predicate Pairs(kw: Keywords, met: set<EdgeId>) { forall e :: e in met <==> exists k :: Shares(kw, k, e) }

  ghost predicate Step(s: Net, op: Op, s': Net)
  {
    match op
    case DeleteNode(n) => s' == Net(s.nodes - {n}, s.edges)
    case Sync(byScene, at) => s' == Net(SyncedAll(s.nodes, byScene, at), s.edges)
    case Build(kw, minSim, touched) =>
      && kw.Keys <= s.nodes.Keys && s'.nodes.Keys == s.nodes.Keys && Sound(s'.nodes, s'.edges)
      && exists met :: Pairs(kw, met) && Built(kw, minSim, touched, s.nodes, s.edges, s'.nodes, s'.edges, met)
    case Rebuild(stale) =>
      && s'.edges == Bereft(s.nodes, s.edges, Stale(s, stale))
      && s'.nodes == Trimmed(s.nodes - Stale(s, stale), s.edges.Keys - s'.edges.Keys)
    case Decay(p) => s' == Net(DecayedNodes(p, s.nodes, s.edges), DecayedEdges(p, s.nodes, s.edges))
  }

  ghost predicate Run(states: seq<Net>, ops: seq<Op>)
  {
    && |states| == |ops| + 1 && states[0] == Net(map[], map[])
    && forall i :: 0 <= i < |ops| ==> Step(states[i], ops[i], states[i + 1])
  }

  /** This sync writes a new node for a member that some edge still names. */
  ghost predicate Revives(s: Net, op: Op, d: (EdgeId, NodeId))
  {
    op.Sync? && d in Revived(s.nodes, s.edges, op.byScene.Keys)
  }

  /** This step leaves a deaf member as it is: edge and node stay, and the edge is not written. */
  ghost predicate Unhealed(s: Net, op: Op, s': Net, d: (EdgeId, NodeId))
  {
    match op
    case DeleteNode(n) => d.1 != n
    case Sync(_, _) => true
    case Build(kw, minSim, touched) => !((exists k :: Shares(kw, k, d.0)) && Writes(kw, minSim, touched, s.edges, d.0))
    case Rebuild(_) => d.0 in s'.edges && d.1 in s'.nodes
    case Decay(_) => d.0 in s'.edges
  }

  /** Every step keeps the network sound, and changes who is deaf in exactly these ways. */
  lemma {:induction false} StepSound(s: Net, op: Op, s': Net)
    requires Sound(s.nodes, s.edges) && Step(s, op, s')
    ensures Sound(s'.nodes, s'.edges)
    ensures forall d :: d in Deaf(s'.nodes, s'.edges) <==> (d in Deaf(s.nodes, s.edges) && Unhealed(s, op, s', d)) || Revives(s, op, d)
  {
    match op {
      case DeleteNode(n) => DeleteSound(s, n);
      case Sync(byScene, at) => SyncDeafens(s.nodes, s.edges, byScene, at);
      case Build(kw, minSim, touched) => BuildSound(s, op, s');
      case Rebuild(stale) =>
        RebuiltSound(s.nodes, s.edges, Stale(s, stale));
        RebuildSound(s, op, s');
      case Decay(p) => DecayIsExact(p, s.nodes, s.edges);
    }
  }

  lemma {:induction false} DeleteSound(s: Net, n: NodeId)
    requires Sound(s.nodes, s.edges)
    ensures Sound(s.nodes - {n}, s.edges)
    ensures forall d :: d in Deaf(s.nodes - {n}, s.edges) <==> d in Deaf(s.nodes, s.edges) && d.1 != n
  {
  }

  lemma {:induction false} BuildSound(s: Net, op: Op, s': Net)
    requires op.Build? && Step(s, op, s')
    ensures forall d :: d in Deaf(s'.nodes, s'.edges) <==> d in Deaf(s.nodes, s.edges) && Unhealed(s, op, s', d)
  {
    hide Deaf;
    hide Sound;
    hide Writes;
    hide Shares;
  }

  lemma {:induction false} RebuildSound(s: Net, op: Op, s': Net)
    requires op.Rebuild? && Step(s, op, s')
    requires forall d :: d in Deaf(s'.nodes, s'.edges) <==> d in Deaf(s.nodes, s.edges) && d.0 in s'.edges && d.1 !in Stale(s, op.stale)
    ensures forall d :: d in Deaf(s'.nodes, s'.edges) <==> d in Deaf(s.nodes, s.edges) && Unhealed(s, op, s', d)
  {
    forall d | d in Deaf(s.nodes, s.edges)
      ensures d.1 in s'.nodes <==> d.1 !in Stale(s, op.stale)
    {
    }
  }

  lemma {:induction false} RunSound(states: seq<Net>, ops: seq<Op>, n: nat)
    requires Run(states, ops) && n <= |ops|
    ensures Sound(states[n].nodes, states[n].edges)
  {
    hide Step;
    if n > 0 {
      RunSound(states, ops, n - 1);
      StepSound(states[n - 1], ops[n - 1], states[n]);
      hide Sound;
    }
  }

  /** Step j revived the member, and no later step before n healed or dropped it. */
  ghost predicate DeafSince(states: seq<Net>, ops: seq<Op>, j: nat, n: nat, d: (EdgeId, NodeId))
    requires j < n <= |ops| < |states|
  {
    Revives(states[j], ops[j], d) && forall i :: j < i < n ==> Unhealed(states[i], ops[i], states[i + 1], d)
  }

  /** Who is deaf, from the run alone. */
  lemma {:induction false} DeafByRevival(states: seq<Net>, ops: seq<Op>, n: nat, d: (EdgeId, NodeId))
    requires Run(states, ops) && n <= |ops|
    ensures d in Deaf(states[n].nodes, states[n].edges) <==> exists j :: 0 <= j < n && DeafSince(states, ops, j, n, d)
  {
    hide Step;
    hide Revives;
    hide Unhealed;
    if n > 0 {
      DeafByRevival(states, ops, n - 1, d);
      RunSound(states, ops, n - 1);
      StepSound(states[n - 1], ops[n - 1], states[n]);
      hide Deaf;
      hide Sound;
      if j :| 0 <= j < n && DeafSince(states, ops, j, n, d) {
        assert j < n - 1 ==> DeafSince(states, ops, j, n - 1, d) && Unhealed(states[n - 1], ops[n - 1], states[n], d);
      }
      if d in Deaf(states[n].nodes, states[n].edges) {
        if Revives(states[n - 1], ops[n - 1], d) {
          assert DeafSince(states, ops, n - 1, n, d);
        } else {
          var j :| 0 <= j < n - 1 && DeafSince(states, ops, j, n - 1, d);
          assert DeafSince(states, ops, j, n, d);
        }
      }
    }
  }

  /**
   * L1 reference consistency over every run. After a completed decay pass every edge has two live members; and a node
   * lists an edge exactly when the edge lists it, exactly when every member a sync ever revived under an edge has been
   * healed or dropped since, this pass included.
   */
  lemma {:induction false} ExactAfterDecay(states: seq<Net>, ops: seq<Op>, n: nat)
    requires Run(states, ops) && 0 < n <= |ops| && ops[n - 1].Decay?
    ensures Sound(states[n].nodes, states[n].edges) && Dead(states[n].nodes, states[n].edges) == {}
    ensures Exact(states[n].nodes, states[n].edges) <==> forall d, j :: 0 <= j < n ==> !DeafSince(states, ops, j, n, d)
  {
    var s, s' := states[n - 1], states[n];
    RunSound(states, ops, n - 1);
    RunSound(states, ops, n);
    assert Step(s, ops[n - 1], s');
    DecayIsExact(ops[n - 1].p, s.nodes, s.edges);
    hide DecayedEdges;
    hide DecayedNodes;
    DeafIsInexact(s'.nodes, s'.edges);
    hide Exact;
    hide Sound;
    hide Dead;
    hide DeafSince;
    hide Step;
    hide Deaf;
    forall d
      ensures d in Deaf(s'.nodes, s'.edges) <==> exists j :: 0 <= j < n && DeafSince(states, ops, j, n, d)
    {
      DeafByRevival(states, ops, n, d);
    }
  }

  // ---- A condition on the calls alone ----

  /** The nodes deleted since the last completed decay pass. */
  function DeletedSince(ops: seq<Op>): set<NodeId>
  {
    if ops == [] then {}
    else
      var before := DeletedSince(ops[..|ops| - 1]);
      match ops[|ops| - 1]
      case DeleteNode(n) => before + {n}
      case Decay(_) => {}
      case _ => before
  }

  /** No scene is synced between the delete of its node and the next decay pass. */
  ghost predicate Patient(ops: seq<Op>)
  {
    forall i :: 0 <= i < |ops| && ops[i].Sync? ==> ops[i].byScene.Keys !! DeletedSince(ops[..i])
  }

  /** Nobody is deaf, and the members without a node are among those just deleted. */
  ghost predicate Clean(s: Net, deleted: set<NodeId>)
  {
    Deaf(s.nodes, s.edges) == {} && forall d :: d in Dead(s.nodes, s.edges) ==> d.1 in deleted
  }

  ghost function DeletedAfter(deleted: set<NodeId>, op: Op): set<NodeId>
  {
    match op
    case DeleteNode(n) => deleted + {n}
    case Decay(_) => {}
    case _ => deleted
  }

  lemma {:induction false} CleanStep(s: Net, op: Op, s': Net, deleted: set<NodeId>)
    requires Sound(s.nodes, s.edges) && Step(s, op, s') && Clean(s, deleted)
    requires op.Sync? ==> op.byScene.Keys !! deleted
    ensures Clean(s', DeletedAfter(deleted, op))
  {
    StepSound(s, op, s');
    hide Deaf;
    assert Deaf(s'.nodes, s'.edges) == {} by {
      forall d
        ensures d !in Deaf(s'.nodes, s'.edges)
      {
        assert d !in Deaf(s.nodes, s.edges) && !Revives(s, op, d);
      }
    }
    DeadStep(s, op, s', deleted);
  }

  lemma {:induction false} DeadStep(s: Net, op: Op, s': Net, deleted: set<NodeId>)
    requires Sound(s.nodes, s.edges) && Sound(s'.nodes, s'.edges) && Step(s, op, s') && Clean(s, deleted)
    ensures forall d :: d in Dead(s'.nodes, s'.edges) ==> d.1 in DeletedAfter(deleted, op)
  {
    match op {
      case DeleteNode(n) =>
        assert forall d :: d in Dead(s'.nodes, s'.edges) ==> d in Dead(s.nodes, s.edges) || d.1 == n;
      case Sync(byScene, at) =>
        SyncDeafens(s.nodes, s.edges, byScene, at);
      case Build(kw, minSim, touched) => DeadBuild(s, op, s');
      case Rebuild(stale) => DeadRebuild(s, op, s');
      case Decay(p) => DecayIsExact(p, s.nodes, s.edges);
    }
  }

  lemma {:induction false} DeadBuild(s: Net, op: Op, s': Net)
    requires op.Build? && Step(s, op, s') && Sound(s.nodes, s.edges)
    ensures forall d :: d in Dead(s'.nodes, s'.edges) ==> d in Dead(s.nodes, s.edges)
  {
    hide Similarity;
    hide Deaf;
    forall d | d in Dead(s'.nodes, s'.edges)
      ensures d in Dead(s.nodes, s.edges)
    {
      assert s'.edges[d.0].members == [d.0.0, d.0.1];
      assert d.0 in s.edges || Close(op.kw, op.minSim, d.0);
      assert d.0 in s.edges ==> s.edges[d.0].members == [d.0.0, d.0.1];
    }
  }

  lemma {:induction false} DeadRebuild(s: Net, op: Op, s': Net)
    requires op.Rebuild? && Step(s, op, s') && Deaf(s.nodes, s.edges) == {}
    ensures forall d :: d in Dead(s'.nodes, s'.edges) ==> d in Dead(s.nodes, s.edges)
  {
    hide Minus;
    var stale := Stale(s, op.stale);
    forall d | d in Dead(s'.nodes, s'.edges)
      ensures d in Dead(s.nodes, s.edges)
    {
      assert d.1 in s.nodes ==> d.1 in stale;
      assert d.1 in s.nodes ==> d in Deaf(s.nodes, s.edges);
    }
  }

  lemma {:induction false} PatientRun(states: seq<Net>, ops: seq<Op>, n: nat)
    requires Run(states, ops) && n <= |ops| && Patient(ops)
    ensures Clean(states[n], DeletedSince(ops[..n]))
  {
    hide Step;
    if n > 0 {
      PatientRun(states, ops, n - 1);
      RunSound(states, ops, n - 1);
      hide Clean;
      hide Sound;
      CleanStep(states[n - 1], ops[n - 1], states[n], DeletedSince(ops[..n - 1]));
      assert ops[..n][..n - 1] == ops[..n - 1];
    }
  }

  /** A host whose scenes stay deleted until the next decay pass has an exact network after every such pass. */
  lemma {:induction false} PatientRunsAreExact(states: seq<Net>, ops: seq<Op>, n: nat)
    requires Run(states, ops) && Patient(ops) && 0 < n <= |ops| && ops[n - 1].Decay?
    ensures Exact(states[n].nodes, states[n].edges)
  {
    PatientRun(states, ops, n);
    RunSound(states, ops, n);
    ExactAfterDecay(states, ops, n);
    hide Run;
    DeafIsInexact(states[n].nodes, states[n].edges);
  }

  // ---- A run that does not end exact ----

  const SCENES: map<NodeId, seq<nat>> := map[1 := [1], 2 := [2]]
  const WORDS: Keywords := map[1 := {"tea"}, 2 := {"tea"}]
  const PAIR: EdgeId := (1, 2)
  const TIE: Edge := Edge([1, 2], 1.0, 0, 0)

  function Scene(n: NodeId, edges: seq<EdgeId>): Node { Node([n], edges, 1.0, 0.0, 0.0, 0) }

  const LINKED: Net := Net(map[1 := Scene(1, [PAIR]), 2 := Scene(2, [PAIR])], map[PAIR := TIE])
  const REVIVED: Net := Net(map[1 := Scene(1, []), 2 := Scene(2, [PAIR])], map[PAIR := TIE])

  lemma {:induction false} WordsPair()
    ensures Pairs(WORDS, {PAIR}) && Close(WORDS, 0.5, PAIR) && Similarity(WORDS[1], WORDS[2]) == 1.0
  {
    assert {"tea"} * {"tea"} == {"tea"} && {"tea"} + {"tea"} == {"tea"};
    assert Shares(WORDS, "tea", PAIR);
    var met := {PAIR};
    forall e
      ensures e in met <==> exists k :: Shares(WORDS, k, e)
    {
      if k :| Shares(WORDS, k, e) {
        assert e.0 == 1 && e.1 == 2;
      }
    }
  }

  /** Two scenes met, and their first shared keyword ties them. */
  lemma {:induction false} Tied(s: Net)
    requires s == Net(map[1 := Scene(1, []), 2 := Scene(2, [])], map[])
    ensures Step(Net(map[], map[]), Sync(SCENES, 0), s) && Step(s, Build(WORDS, 0.5, {1, 2}), LINKED)
  {
    assert SyncedAll(map[], SCENES, 0) == s.nodes;
    WordsPair();
    hide Close;
    hide Similarity;
    hide Pairs;
    assert Deaf(LINKED.nodes, LINKED.edges) == {} && Deaf(s.nodes, s.edges) == {};
    assert Built(WORDS, 0.5, {1, 2}, s.nodes, s.edges, LINKED.nodes, LINKED.edges, {PAIR});
  }

  /** A merge that stops after it deleted the node, and the sync that brings the node back: the tie is not rewritten. */
  lemma {:induction false} Untied(s: Net)
    requires s == Net(map[2 := Scene(2, [PAIR])], map[PAIR := TIE])
    ensures Step(LINKED, DeleteNode(1), s) && Step(s, Sync(SCENES, 0), REVIVED) && Step(REVIVED, Build(WORDS, 0.5, {1}), REVIVED)
    ensures Sound(REVIVED.nodes, REVIVED.edges) && (PAIR, 1) in Deaf(REVIVED.nodes, REVIVED.edges)
  {
    assert LINKED.nodes - {1} == s.nodes;
    assert SyncedAll(s.nodes, SCENES, 0) == REVIVED.nodes;
    NothingRisen();
    hide Built;
    hide Synced;
    hide Pairs;
  }

  lemma {:induction false} NothingRisen()
    ensures Pairs(WORDS, {PAIR}) && Built(WORDS, 0.5, {1}, REVIVED.nodes, REVIVED.edges, REVIVED.nodes, REVIVED.edges, {PAIR})
  {
    WordsPair();
    hide Close;
    hide Similarity;
    hide Pairs;
    assert !Writes(WORDS, 0.5, {1}, REVIVED.edges, PAIR);
    hide Deaf;
  }

  lemma {:induction false} Decayed(s: Net, p: Pass) returns (s': Net)
    ensures s' == Net(DecayedNodes(p, s.nodes, s.edges), DecayedEdges(p, s.nodes, s.edges)) && Step(s, Decay(p), s')
  {
    s' := Net(DecayedNodes(p, s.nodes, s.edges), DecayedEdges(p, s.nodes, s.edges));
  }

  /** A pass in the same millisecond fades nothing, so the tie survives it. */
  lemma {:induction false} TieSurvives(p: Pass)
    requires p == Pass(_ => 1.0, _ => false, 0)
    requires Sound(REVIVED.nodes, REVIVED.edges) && (PAIR, 1) in Deaf(REVIVED.nodes, REVIVED.edges)
    ensures !Exact(DecayedNodes(p, REVIVED.nodes, REVIVED.edges), DecayedEdges(p, REVIVED.nodes, REVIVED.edges))
  {
    DecayIsExact(p, REVIVED.nodes, REVIVED.edges);
    hide DecayedEdges;
    hide DecayedNodes;
    hide Deaf;
    hide Exact;
    DecayedAt(p, REVIVED.nodes, REVIVED.edges, PAIR);
    var leavers := Leavers(p, REVIVED.nodes, PAIR, [1, 2]);
    hide DecayRate;
    assert leavers == {};
    MinusNothing([1, 2], leavers);
    hide Minus;
  }

  /**
   * The failing input: a scene node is deleted, its scene is synced again before any decay pass, and the edge that still
   * names it is as strong as its keywords warrant. The pass completes, and edge and node disagree.
   */
  lemma {:induction false} RevivedNodeStaysDeaf() returns (states: seq<Net>, ops: seq<Op>)
    ensures Run(states, ops) && |ops| == 6 && ops[5].Decay? && !Exact(states[6].nodes, states[6].edges)
    ensures ops[2] == DeleteNode(1) && ops[3] == Sync(SCENES, 0)
  {
    hide Step;
    hide Exact;
    hide Deaf;
    hide DecayedNodes;
    hide DecayedEdges;
    var p := Pass(_ => 1.0, _ => false, 0);
    var met := Net(map[1 := Scene(1, []), 2 := Scene(2, [])], map[]);
    var cut := Net(map[2 := Scene(2, [PAIR])], map[PAIR := TIE]);
    Tied(met);
    Untied(cut);
    TieSurvives(p);
    var last := Decayed(REVIVED, p);
    states := [Net(map[], map[]), met, LINKED, cut, REVIVED, REVIVED, last];
    ops := [Sync(SCENES, 0), Build(WORDS, 0.5, {1, 2}), DeleteNode(1), Sync(SCENES, 0), Build(WORDS, 0.5, {1}), Decay(p)];
  }
}
