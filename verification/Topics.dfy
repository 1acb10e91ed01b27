// The topic tree of internal/repo/l2layer.go and l2layer_topic.go: what Dream, merge and delete may do to it.
module TopicForest {
  import opened Common
  import opened L2Metas

  const MAX_DEPTH: nat := 4

  /**
   * A topic stands at depth 1 exactly when it has no parent and at depth 2 otherwise; a parent exists, in the same
   * scene, and was born later than its child, so following parents never comes back.
   */
  ghost predicate Forest(ts: Topics, born: map<TopicId, nat>)
  {
    && Keyed(ts) && ts.Keys <= born.Keys
    && (forall t :: t in ts ==> ts[t].depth == if ts[t].parent.None? then 1 else 2)
    && (forall t :: t in ts && ts[t].parent.Some? ==> Hangs(ts, born, t))
  }

  ghost predicate Hangs(ts: Topics, born: map<TopicId, nat>, t: TopicId)
    requires t in ts && ts[t].parent.Some?
  {
    var p := ts[t].parent.value;
    p in ts && ts[p].scene == ts[t].scene && t in born && p in born && born[t] < born[p]
  }

  // ---- Descendants ----

  /** t is reached from root by n child steps. */
  ghost predicate Under(ts: Topics, t: TopicId, root: TopicId, n: nat)
    decreases n
  {
    t in ts && if n == 0 then t == root else ts[t].parent.Some? && Under(ts, ts[t].parent.value, root, n - 1)
  }

  ghost predicate Descends(ts: Topics, t: TopicId, root: TopicId) { exists n: nat :: Under(ts, t, root, n) }

  /** Parent links are acyclic: a proper descendant is strictly older, so nothing descends from itself. */
  lemma {:induction false} DescendantsAreOlder(ts: Topics, born: map<TopicId, nat>, t: TopicId, root: TopicId, n: nat)
    requires Forest(ts, born) && Under(ts, t, root, n)
    ensures root in ts && born[t] <= born[root] && (n > 0 ==> born[t] < born[root] && t != root)
    decreases n
  {
    if n > 0 {
      assert Hangs(ts, born, t);
      DescendantsAreOlder(ts, born, ts[t].parent.value, root, n - 1);
    }
  }

  lemma {:induction false} ChildDescends(ts: Topics, t: TopicId, root: TopicId)
    requires t in ts && ts[t].parent.Some? && Descends(ts, ts[t].parent.value, root)
    ensures Descends(ts, t, root)
  {
    var n: nat :| Under(ts, ts[t].parent.value, root, n);
    assert Under(ts, t, root, n + 1);
  }

  ghost predicate ChildClosed(ts: Topics, gone: set<TopicId>)
  {
    forall t :: t in ts && ts[t].parent.Some? && ts[t].parent.value in gone ==> t in gone
  }

  lemma {:induction false} ClosedHoldsDescendants(ts: Topics, gone: set<TopicId>, t: TopicId, root: TopicId, n: nat)
    requires ChildClosed(ts, gone) && root in gone && Under(ts, t, root, n)
    ensures t in gone
    decreases n
  {
    if n > 0 {
      ClosedHoldsDescendants(ts, gone, ts[t].parent.value, root, n - 1);
    }
  }

  // ---- TopicClosureL2 ----

  function Kids(children: map<TopicId, seq<TopicId>>, p: TopicId): seq<TopicId> { if p in children then children[p] else [] }

  /** scan yields every topic record once, in whatever order the records come. */
  ghost predicate Scans(scan: seq<TopicId>, ts: Topics) { Distinct(scan) && forall t :: t in scan <==> t in ts }

  ghost predicate Indexes(children: map<TopicId, seq<TopicId>>, ts: Topics, seen: seq<TopicId>)
  {
    forall p: TopicId :: Distinct(Kids(children, p)) && forall t :: t in Kids(children, p) <==> t in seen && t in ts && ts[t].parent == Some(p)
  }

  lemma {:induction false} IndexNext(children: map<TopicId, seq<TopicId>>, ts: Topics, seen: seq<TopicId>, t: TopicId)
    requires Indexes(children, ts, seen) && t in ts && t !in seen
    ensures var p := ts[t].parent;
            Indexes(if p.Some? then children[p.value := Kids(children, p.value) + [t]] else children, ts, seen + [t])
  {
    var p := ts[t].parent;
    var after := if p.Some? then children[p.value := Kids(children, p.value) + [t]] else children;
    forall q: TopicId
      ensures Distinct(Kids(after, q)) && forall x :: x in Kids(after, q) <==> x in seen + [t] && x in ts && ts[x].parent == Some(q)
    {
      var was := Kids(children, q);
      assert forall x :: x in was <==> x in seen && x in ts && ts[x].parent == Some(q);
      if p == Some(q) {
        JoinDistinct(was, [t]);
      }
    }
  }

  method BuildChildren(scan: seq<TopicId>, ts: Topics) returns (children: map<TopicId, seq<TopicId>>)
    requires Scans(scan, ts)
    ensures Indexes(children, ts, scan)
  {
    children := map[];
    for i := 0 to |scan|
      invariant Indexes(children, ts, scan[..i])
    {
      var t := scan[i];
      assert t in scan && t !in scan[..i] && scan[..i + 1] == scan[..i] + [t];
      IndexNext(children, ts, scan[..i], t);
      if ts[t].parent.Some? {
        children := children[ts[t].parent.value := Kids(children, ts[t].parent.value) + [t]];
      }
    }
    assert scan[..|scan|] == scan;
  }

  /**
   * TopicClosureL2 keeps no visited set: on a forest it still terminates, meets each descendant once and misses none.
   */
  method TopicClosure(scan: seq<TopicId>, ts: Topics, ghost born: map<TopicId, nat>, root: TopicId) returns (closure: seq<TopicId>)
    requires Forest(ts, born) && Scans(scan, ts)
    ensures root !in ts ==> closure == []
    ensures root in ts ==> Distinct(closure) && forall t :: t in closure <==> Descends(ts, t, root)
  {
    var children := BuildChildren(scan, ts);
    if root !in ts {
      return [];
    }
    closure := [root];
    assert Under(ts, root, root, 0);
    var i := 0;
    while i < |closure|
      invariant i <= |closure| && Walked(ts, root, closure, i)
      decreases |ts| - i
    {
      var kids := Kids(children, closure[i]);
      WalkOn(ts, born, root, closure, i, kids);
      closure := closure + kids;
      i := i + 1;
    }
    WalkDone(ts, root, closure);
  }

  /** closure holds descendants, each once; those before i have had their children appended, nobody else has. */
  ghost predicate Walked(ts: Topics, root: TopicId, closure: seq<TopicId>, i: nat)
    requires i <= |closure|
  {
    && Distinct(closure) && |closure| > 0 && closure[0] == root
    && (forall t :: t in closure ==> t in ts && Descends(ts, t, root))
    && (forall k :: 1 <= k < |closure| ==> closure[k] in ts && ts[closure[k]].parent.Some? && ts[closure[k]].parent.value in closure[..i])
    && (forall t :: t in ts && ts[t].parent.Some? && ts[t].parent.value in closure[..i] ==> t in closure)
  }

  lemma {:induction false} WalkOn(ts: Topics, born: map<TopicId, nat>, root: TopicId, closure: seq<TopicId>, i: nat, kids: seq<TopicId>)
    requires Forest(ts, born) && i < |closure| && Walked(ts, root, closure, i)
    requires Distinct(kids) && forall t :: t in kids <==> t in ts && ts[t].parent == Some(closure[i])
    ensures i < |ts| && Walked(ts, root, closure + kids, i + 1)
  {
    DistinctBound(closure, ts.Keys);
    var p := closure[i];
    assert p in closure;
    forall t | t in kids
      ensures t !in closure && Descends(ts, t, root)
    {
      ChildDescends(ts, t, root);
      NotYet(ts, born, root, closure, i, t);
    }
    JoinDistinct(closure, kids);
    var next := closure + kids;
    assert next[..i + 1] == closure[..i] + [p];
    assert forall k :: |closure| <= k < |next| ==> next[k] == kids[k - |closure|] && next[k] in kids;
  }

  /** A child of the topic at i is not in the walk yet: the root hangs on none of its descendants, the others elsewhere. */
  lemma {:induction false} NotYet(ts: Topics, born: map<TopicId, nat>, root: TopicId, closure: seq<TopicId>, i: nat, t: TopicId)
    requires Forest(ts, born) && i < |closure| && Walked(ts, root, closure, i)
    requires t in ts && ts[t].parent == Some(closure[i])
    ensures t !in closure
  {
    var p := closure[i];
    assert p in closure && root in closure;
    var n: nat :| Under(ts, p, root, n);
    DescendantsAreOlder(ts, born, p, root, n);
    assert ts[root].parent.Some? ==> Hangs(ts, born, root);
    assert p !in closure[..i];
    forall k | 0 <= k < |closure|
      ensures closure[k] != t
    {
      assert k > 0 ==> ts[closure[k]].parent.value in closure[..i];
    }
  }

  lemma {:induction false} WalkDone(ts: Topics, root: TopicId, closure: seq<TopicId>)
    requires Walked(ts, root, closure, |closure|)
    ensures forall t :: t in closure <==> Descends(ts, t, root)
  {
    assert closure[..|closure|] == closure;
    var gone := set t | t in closure;
    assert ChildClosed(ts, gone);
    assert root in closure;
    forall t | Descends(ts, t, root)
      ensures t in closure
    {
      var n: nat :| Under(ts, t, root, n);
      ClosedHoldsDescendants(ts, gone, t, root, n);
    }
  }

  // ---- What each operation does to the forest ----

  /** Deleting a set that holds all children of its members leaves no orphan. */
  lemma {:induction false} DeleteKeepsForest(ts: Topics, born: map<TopicId, nat>, gone: set<TopicId>)
    requires Forest(ts, born) && ChildClosed(ts, gone)
    ensures Forest(ts - gone, born)
  {
  }

  /** A whole scene is closed under children: a child is in its parent's scene. */
  lemma {:induction false} SceneIsClosed(ts: Topics, born: map<TopicId, nat>, scene: SceneId)
    requires Forest(ts, born)
    ensures ChildClosed(ts, set t | t in ts && ts[t].scene == scene)
  {
    forall t | t in ts && ts[t].parent.Some? && ts[t].parent.value in (set t | t in ts && ts[t].scene == scene)
      ensures t in (set t | t in ts && ts[t].scene == scene)
    {
      assert Hangs(ts, born, t);
    }
  }

  lemma {:induction false} RetargetKeepsForest(ts: Topics, born: map<TopicId, nat>, from: set<SceneId>, to: SceneId)
    requires Forest(ts, born)
    ensures Forest(Retargeted(ts, from, to), born)
  {
  }

  /** Rewriting a record that keeps its id, scene, parent and depth. */
  lemma {:induction false} RewriteKeepsForest(ts: Topics, born: map<TopicId, nat>, t: Topic)
    requires Forest(ts, born) && t.id in ts
    requires (t.scene, t.parent, t.depth) == (ts[t.id].scene, ts[t.id].parent, ts[t.id].depth)
    ensures Forest(ts[t.id := t], born)
  {
  }

  lemma {:induction false} NewRootKeepsForest(ts: Topics, born: map<TopicId, nat>, t: Topic, at: nat)
    requires Forest(ts, born) && t.id !in ts && t.parent.None? && t.depth == 1
    ensures Forest(ts[t.id := t], born[t.id := at])
  {
  }

  function SunkOne(t: Topic, parent: TopicId): Topic { t.(depth := t.depth + 1, parent := Some(parent)) }

  /** The records once every listed topic has sunk one level under parent. */
  ghost function Sunk(ts: Topics, ids: seq<TopicId>, parent: TopicId): Topics
  {
    map t | t in ts :: if t in ids then SunkOne(ts[t], parent) else ts[t]
  }

  /** A fused parent over depth-1 members of its scene: the group hangs on it, the rest stands as it did. */
  lemma {:induction false} SinkKeepsForest(ts: Topics, born: map<TopicId, nat>, ids: seq<TopicId>, parent: TopicId)
    requires Forest(ts, born) && parent in ts && parent !in ids && ts[parent].parent.None?
    requires forall t :: t in ids ==> t in ts && ts[t].parent.None? && ts[t].scene == ts[parent].scene && born[t] < born[parent]
    ensures Forest(Sunk(ts, ids, parent), born)
  {
  }
}
