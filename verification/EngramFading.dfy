// How fast the L1 network forgets, in numbers: what one decay pass makes of a weight and an importance, that passes add
// up over time, and that an emotional memory fades more slowly. Stated of what a pass leaves, for any exponential.
module EngramFading {
  import opened Common
  import opened Engrams

  ghost predicate Exponential(exp: real -> real) { Rises(exp) && Multiplies(exp) }

  ghost predicate Rises(exp: real -> real)
  {
    exp(0.0) == 1.0 && (forall x: real :: exp(x) > 0.0) && forall x: real, y: real :: x < y ==> exp(x) < exp(y)
  }

  ghost predicate Multiplies(exp: real -> real) { forall x: real, y: real :: exp(x + y) == exp(x) * exp(y) }

  /** The hours from since to now, none when the clock stands before it. */
  function Hours(since: int, now: int): (h: real)
    ensures h >= 0.0 && (h > 0.0 <==> now > since)
  {
    if now > since then (now - since) as real / 3600000.0 else 0.0
  }

  lemma {:induction false} HoursAdd(a: int, b: int, c: int)
    requires a <= b <= c
    ensures Hours(a, b) + Hours(b, c) == Hours(a, c)
  {
  }

  /** The pass an edge was last faded in, or its creation. */
  function Since(edge: Edge): int { if edge.lastDecayAt != 0 then edge.lastDecayAt else edge.createdAt }

  lemma {:induction false} Products(k: real, a: real, b: real)
    requires k > 0.0
    ensures a < b ==> k * a < k * b
    ensures a == b ==> k * a == k * b
    ensures a > b ==> k * a > k * b
  {
    assert k * b - k * a == k * (b - a);
  }

  /** What remains is the amount times e^(-rate h): all of it at once, strictly less and less over time, and never nothing. */
  lemma {:induction false} RemainsFalls(exp: real -> real, k: real, rate: real, h: real)
    requires Exponential(exp) && rate > 0.0 && h >= 0.0 && k > 0.0
    ensures Remains(exp, k, rate, h) == k * exp(-(rate * h)) > 0.0
    ensures h == 0.0 ==> Remains(exp, k, rate, h) == k
    ensures h > 0.0 ==> Remains(exp, k, rate, h) < k
  {
    hide Multiplies;
    Products(rate, 0.0, h);
    var f := exp(-(rate * h));
    assert h > 0.0 ==> f < 1.0;
    Products(k, f, 1.0);
    Products(k, 0.0, f);
  }

  /** Decaying twice is decaying once over both times. */
  lemma {:induction false} RemainsAdd(exp: real -> real, k: real, rate: real, g: real, h: real)
    requires Exponential(exp)
    ensures Remains(exp, Remains(exp, k, rate, g), rate, h) == Remains(exp, k, rate, g + h)
  {
    hide Rises;
    var a, b := -(rate * g), -(rate * h);
    assert rate * (g + h) == rate * g + rate * h;
    assert a + b == -(rate * (g + h));
    assert exp(a + b) == exp(a) * exp(b);
    assert (k * exp(a)) * exp(b) == k * (exp(a) * exp(b));
  }

  // ---- Edges ----

  lemma {:induction false} WeightIs(p: Pass, edge: Edge)
    ensures p.Weight(edge) == Remains(p.exp, edge.weight, 0.02, Hours(Since(edge), p.now))
  {
    hide Remains;
  }

  /** A surviving edge weighs what it did times e^(-0.02 h), strictly less once time has passed. */
  lemma {:induction false} EdgesFadeWithTime(p: Pass, ns: Nodes, es: Edges, e: EdgeId)
    requires Exponential(p.exp) && Sound(ns, es) && e in es && es[e].weight > 0.0 && e in DecayedEdges(p, ns, es)
    ensures var edge, after, h := es[e], DecayedEdges(p, ns, es)[e], Hours(Since(es[e]), p.now);
            && after.weight == edge.weight * p.exp(-(0.02 * h)) && after.weight == Remains(p.exp, edge.weight, 0.02, h) > 0.0
            && (h == 0.0 ==> after.weight == edge.weight) && (h > 0.0 ==> after.weight < edge.weight)
            && after.lastDecayAt == p.now && after.createdAt == edge.createdAt && after.members == edge.members
  {
    hide Exponential;
    hide Remains;
    DecayedMembers(p, ns, es, e);
    DecayedAt(p, ns, es, e);
    WeightIs(p, es[e]);
    hide DecayedEdges;
    hide Pass.Weight;
    hide Hours;
    RemainsFalls(p.exp, es[e].weight, 0.02, Hours(Since(es[e]), p.now));
  }

  /** An edge survives exactly when its faded weight reaches 0.05 and both members stay with it. */
  lemma {:induction false} EdgesGoWhenLight(p: Pass, ns: Nodes, es: Edges, e: EdgeId)
    requires Sound(ns, es) && e in es
    ensures e in DecayedEdges(p, ns, es) <==>
            es[e].weight * p.exp(-(0.02 * Hours(Since(es[e]), p.now))) >= 0.05 && !Leaves(p, ns, e, e.0) && !Leaves(p, ns, e, e.1)
  {
    var xs := es[e].members;
    DecayedAt(p, ns, es, e);
    WeightIs(p, es[e]);
    hide DecayedEdges;
    hide Pass.Weight;
    hide Hours;
    MinusNothing(xs, Leavers(p, ns, e, xs));
    assert xs == [e.0, e.1];
    hide Leaves;
    assert e.0 in xs && e.1 in xs && forall x :: x in xs ==> x == e.0 || x == e.1;
  }

  /** Two passes fade an edge as one over the whole time would. */
  lemma {:induction false} EdgePassesAddUp(p: Pass, q: Pass, ns: Nodes, es: Edges, ns': Nodes, es': Edges, e: EdgeId)
    requires Exponential(p.exp) && q.exp == p.exp && Sound(ns, es) && Sound(ns', es') && e in es && es[e].weight > 0.0
    requires e in DecayedEdges(p, ns, es) && e in es' && es'[e] == DecayedEdges(p, ns, es)[e] && e in DecayedEdges(q, ns', es')
    requires Since(es[e]) <= p.now <= q.now && p.now != 0
    ensures DecayedEdges(q, ns', es')[e].weight == Remains(p.exp, es[e].weight, 0.02, Hours(Since(es[e]), q.now))
  {
    hide Exponential;
    hide DecayedEdges;
    hide Remains;
    EdgesFadeWithTime(p, ns, es, e);
    EdgesFadeWithTime(q, ns', es', e);
    HoursAdd(Since(es[e]), p.now, q.now);
    hide Hours;
    RemainsAdd(p.exp, es[e].weight, 0.02, Hours(Since(es[e]), p.now), Hours(p.now, q.now));
  }

  // ---- Nodes ----

  function Unit(x: real): real { if x < 0.0 then 0.0 else if x > 1.0 then 1.0 else x }

  /** How emotional a memory is: its distance from neutral, doubled, times how aroused it was, each within [0, 1]. */
  function Emotion(valence: real, arousal: real): real
  {
    Unit((if valence >= 0.5 then valence - 0.5 else 0.5 - valence) * 2.0) * Unit(arousal)
  }

  /** A hundredth an hour for a neutral memory, down to a tenth of that for the most emotional. */
  function Rate(node: Node): real { 0.01 * (1.0 - 0.9 * Emotion(node.valence, node.arousal)) }

  lemma {:induction false} RateOf(node: Node)
    ensures DecayRate(0.01, node.valence, node.arousal) == Rate(node) > 0.0
    ensures 0.0 <= Emotion(node.valence, node.arousal) <= 1.0
  {
    var v, r := node.valence, node.arousal;
    var a, b := Unit((if v >= 0.5 then v - 0.5 else 0.5 - v) * 2.0), Unit(r);
    UnitProduct(a, b);
    assert Clamp(Abs(v - 0.5) * 2.0) == a && Clamp(r) == b;
  }

  /** What is left of an importance. */
  function Left(exp: real -> real, node: Node, now: int): real
  {
    Remains(exp, node.importance, Rate(node), Hours(node.updatedAt, now))
  }

  lemma {:induction false} ImportanceIsLeft(p: Pass, node: Node)
    ensures p.Importance(node) == Left(p.exp, node, p.now)
  {
    RateOf(node);
    hide DecayRate;
    hide Rate;
    hide Remains;
    assert ElapsedHours(p.now, node.updatedAt) == Hours(node.updatedAt, p.now);
  }

  lemma {:induction false} NeutralIsFastest(node: Node)
    ensures Rate(node) <= 0.01 && (Rate(node) == 0.01 <==> node.valence == 0.5 || node.arousal <= 0.0)
  {
    RateOf(node);
    var v, r := node.valence, node.arousal;
    var a, b := Unit((if v >= 0.5 then v - 0.5 else 0.5 - v) * 2.0), Unit(r);
    if v != 0.5 && r > 0.0 {
      Products(a, 0.0, b);
    }
    hide DecayRate;
  }

  lemma {:induction false} SurvivorAt(p: Pass, ns: Nodes, es: Edges, n: NodeId)
    requires n in ns
    ensures n in DecayedNodes(p, ns, es) <==> !p.Removes(ns[n])
    ensures n in DecayedNodes(p, ns, es) ==>
              DecayedNodes(p, ns, es)[n].(edges := []) == p.Fade(ns[n]).(edges := []) &&
              (p.Fade(ns[n]).edges == [] ==> DecayedNodes(p, ns, es)[n].edges == [])
  {
    hide DecayedEdges;
    hide DecayRate;
    hide ElapsedHours;
  }

  /** A surviving node is worth what is left of what it was, strictly less once time has passed. */
  lemma {:induction false} NodesFadeWithTime(p: Pass, ns: Nodes, es: Edges, n: NodeId)
    requires Exponential(p.exp) && n in ns && ns[n].importance > 0.0 && !p.deep(ns[n]) && n in DecayedNodes(p, ns, es)
    ensures var node, after, h := ns[n], DecayedNodes(p, ns, es)[n], Hours(ns[n].updatedAt, p.now);
            && after.importance == Left(p.exp, node, p.now) > 0.0
            && (h == 0.0 ==> after.importance == node.importance) && (h > 0.0 ==> after.importance < node.importance)
            && after.updatedAt == p.now && after.topics == node.topics && after.valence == node.valence && after.arousal == node.arousal
  {
    hide Exponential;
    hide Left;
    hide Rate;
    hide Hours;
    var after := DecayedNodes(p, ns, es)[n];
    SurvivorAt(p, ns, es, n);
    hide DecayedNodes;
    hide Pass.Importance;
    assert after.importance == p.Importance(ns[n]) && after.updatedAt == p.now && after.topics == ns[n].topics;
    assert after.valence == ns[n].valence && after.arousal == ns[n].arousal;
    hide Pass.Fade;
    hide Pass.Removes;
    ImportanceIsLeft(p, ns[n]);
    LeftFalls(p.exp, ns[n], p.now);
  }

  /** That is the importance times e^(-rate h). */
  lemma {:induction false} LeftFalls(exp: real -> real, node: Node, now: int)
    requires Exponential(exp) && node.importance > 0.0
    ensures var h := Hours(node.updatedAt, now);
            && Left(exp, node, now) == node.importance * exp(-(Rate(node) * h)) > 0.0
            && (h == 0.0 ==> Left(exp, node, now) == node.importance) && (h > 0.0 ==> Left(exp, node, now) < node.importance)
  {
    hide Exponential;
    hide Remains;
    RateOf(node);
    hide DecayRate;
    hide Rate;
    hide Hours;
    RemainsFalls(exp, node.importance, Rate(node), Hours(node.updatedAt, now));
  }

  /** A node compression does not manage goes exactly when what is left of it is below 0.05; the others stand. */
  lemma {:induction false} NodesGoWhenFaint(p: Pass, ns: Nodes, es: Edges, n: NodeId)
    requires n in ns
    ensures n in DecayedNodes(p, ns, es) <==> p.deep(ns[n]) || Left(p.exp, ns[n], p.now) >= 0.05
    ensures p.deep(ns[n]) ==> DecayedNodes(p, ns, es)[n].(edges := []) == ns[n].(edges := [])
  {
    SurvivorAt(p, ns, es, n);
    hide DecayedNodes;
    ImportanceIsLeft(p, ns[n]);
    hide Left;
    hide Pass.Importance;
  }

  /** It is stripped of its edges exactly when what is left of it is below 0.15. */
  lemma {:induction false} FaintNodesAreStripped(p: Pass, ns: Nodes, es: Edges, n: NodeId)
    requires n in ns && !p.deep(ns[n]) && n in DecayedNodes(p, ns, es)
    ensures p.Prunes(ns[n]) <==> Left(p.exp, ns[n], p.now) < 0.15
    ensures p.Prunes(ns[n]) ==> DecayedNodes(p, ns, es)[n].edges == []
  {
    SurvivorAt(p, ns, es, n);
    hide DecayedNodes;
    ImportanceIsLeft(p, ns[n]);
    hide Left;
    hide Pass.Importance;
  }

  /** Two passes fade a node as one over the whole time would. */
  lemma {:induction false} NodePassesAddUp(p: Pass, q: Pass, ns: Nodes, es: Edges, ns': Nodes, es': Edges, n: NodeId)
    requires Exponential(p.exp) && q.exp == p.exp && n in ns && ns[n].importance > 0.0 && !p.deep(ns[n]) && n in DecayedNodes(p, ns, es)
    requires n in ns' && ns'[n] == DecayedNodes(p, ns, es)[n] && !q.deep(ns'[n]) && n in DecayedNodes(q, ns', es')
    requires ns[n].updatedAt <= p.now <= q.now
    ensures DecayedNodes(q, ns', es')[n].importance == Left(p.exp, ns[n], q.now)
  {
    hide Exponential;
    hide DecayedNodes;
    hide Remains;
    hide Emotion;
    NodesFadeWithTime(p, ns, es, n);
    NodesFadeWithTime(q, ns', es', n);
    assert Rate(ns'[n]) == Rate(ns[n]);
    hide Rate;
    HoursAdd(ns[n].updatedAt, p.now, q.now);
    hide Hours;
    RemainsAdd(p.exp, ns[n].importance, Rate(ns[n]), Hours(ns[n].updatedAt, p.now), Hours(p.now, q.now));
  }

  /** Of two memories worth the same, over the same time, the more emotional one keeps more. */
  lemma {:induction false} EmotionSlows(exp: real -> real, m: Node, n: Node, now: int)
    requires Exponential(exp) && m.importance == n.importance > 0.0 && m.updatedAt == n.updatedAt < now
    requires Emotion(m.valence, m.arousal) > Emotion(n.valence, n.arousal)
    ensures Left(exp, m, now) > Left(exp, n, now)
  {
    hide Exponential;
    hide Remains;
    hide Emotion;
    assert Rate(m) < Rate(n);
    hide Rate;
    RemainsSlower(exp, m.importance, Rate(m), Rate(n), Hours(m.updatedAt, now));
  }

  lemma {:induction false} RemainsSlower(exp: real -> real, k: real, a: real, b: real, h: real)
    requires Exponential(exp) && k > 0.0 && h > 0.0 && a < b
    ensures Remains(exp, k, a, h) > Remains(exp, k, b, h)
  {
    hide Multiplies;
    Products(h, a, b);
    assert h * a == a * h && h * b == b * h;
    Products(k, exp(-(b * h)), exp(-(a * h)));
  }
}
