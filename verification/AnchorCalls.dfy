// What the anchor operations of a domain leave behind, over every interleaving: a merge hands its project on, an anchor
// write takes, and nobody else touches the domain while its lock is held.
module AnchorCalls {
  import opened Anchors

  /** The goroutine a step belongs to. */
  function By(a: Action): set<Tid>
  {
    match a
    case Register(_) => {}
    case Close => {}
    case Stop => {}
    case _ => {a.t}
  }

  /** Between i and k nothing is done for t's own call, and the process does not stop. */
  predicate Quiet(actions: seq<Action>, i: nat, k: nat, t: Tid)
    requires k <= |actions|
  {
    forall j :: i <= j < k ==> !actions[j].Stop? && t !in By(actions[j])
  }

  /** The scene records of one domain stand as they did. */
  predicate SameDomain(s: State, s': State, a: Agent)
  {
    && (forall k :: k in s.scenes && k.0 == a ==> k in s'.scenes && s'.scenes[k] == s.scenes[k])
    && (forall k :: k in s'.scenes && k.0 == a ==> k in s.scenes)
  }

  /** As SameDomain, except for one scene. */
  predicate SameBut(s: State, s': State, a: Agent, x: SceneId)
  {
    && (forall k :: k in s.scenes && k.0 == a && k.1 != x ==> k in s'.scenes && s'.scenes[k] == s.scenes[k])
    && (forall k :: k in s'.scenes && k.0 == a && k.1 != x ==> k in s.scenes)
  }

  lemma {:induction false} OthersLeaveTheDomain(s: State, a: Action, t: Tid)
    requires DomainsExclusive(s) && Enabled(s, a) && s.Works(t) && !a.Stop? && t !in By(a)
    ensures Do(s, a).Works(t) && Do(s, a).threads[t] == s.threads[t] && SameDomain(s, Do(s, a), s.threads[t].agent)
  {
    hide Decides;
    hide Unfinished;
    assert s.threads[t].HoldsDomain(s.threads[t].agent);
  }

  /** While t's call rests, its domain does too. */
  lemma {:induction false} DomainRests(states: seq<State>, actions: seq<Action>, i: nat, k: nat, t: Tid)
    requires Run(states, actions) && i <= k <= |actions| && states[i].Works(t) && Quiet(actions, i, k, t)
    ensures states[k].Works(t) && states[k].threads[t] == states[i].threads[t]
    ensures SameDomain(states[i], states[k], states[i].threads[t].agent)
    decreases k
  {
    hide Enabled;
    hide Do;
    hide Init;
    if i < k {
      DomainRests(states, actions, i, k - 1, t);
      RunKeepsInv(states, actions, k - 1);
      OthersLeaveTheDomain(states[k - 1], actions[k - 1], t);
    }
  }

  lemma {:induction false} StepAt(states: seq<State>, actions: seq<Action>, n: nat)
    requires Run(states, actions) && n < |actions|
    ensures Enabled(states[n], actions[n]) && states[n + 1] == Do(states[n], actions[n])
  {
    hide Enabled;
    hide Do;
  }

  /** The survivor of a merge, from the records before it: its own project, or the one its swallowed scenes name. */
  ghost predicate HandedOn(s: State, s': State, a: Agent, x: SceneId, gone: seq<SceneId>)
  {
    && (a, x) in s.scenes && (a, x) in s'.scenes
    && (s.scenes[(a, x)] != NO_GRAPH ==> s'.scenes[(a, x)] == s.scenes[(a, x)])
    && (s.scenes[(a, x)] == NO_GRAPH ==>
          && (forall y :: y in gone && (a, y) in s.scenes && s.scenes[(a, y)] != NO_GRAPH ==> s'.scenes[(a, x)] == s.scenes[(a, y)])
          && ((forall y :: y in gone && (a, y) in s.scenes ==> s.scenes[(a, y)] == NO_GRAPH) ==> s'.scenes[(a, x)] == NO_GRAPH))
    && (forall y :: y in gone ==> (a, y) !in s'.scenes)
    && (forall y :: y != x && y !in gone && (a, y) in s.scenes ==> (a, y) in s'.scenes && s'.scenes[(a, y)] == s.scenes[(a, y)])
  }

  /**
   * MergeScenes hands the project on. Whatever runs between its steps: the survivor keeps the graph it names; naming
   * none, it names afterwards the graph the swallowed scenes named; these are gone, and every other scene stands.
   */
  lemma {:induction false} MergesHandTheirProjectOn(states: seq<State>, actions: seq<Action>, i: nat, j: nat, k: nat, t: Tid,
                                                    x: SceneId, gone: seq<SceneId>, d: Decision)
    requires Run(states, actions) && i < j < k < |actions|
    requires actions[i] == MergeDecide(t, x, gone, d) && actions[j] == MergeDrop(t) && actions[k] == MergeAnchor(t)
    requires Quiet(actions, i + 1, j, t) && Quiet(actions, j + 1, k, t)
    ensures t in states[i].threads && states[i].threads[t].Working?
    ensures HandedOn(states[i], states[k + 1], states[i].threads[t].agent, x, gone)
  {
    StepAt(states, actions, i);
    StepAt(states, actions, j);
    StepAt(states, actions, k);
    var a := states[i].threads[t].agent;
    Decided(states[i], t, x, gone, d);
    DomainRests(states, actions, i + 1, j, t);
    Dropped(states[j], t, x, gone, states[j].threads[t].carry.g);
    DomainRests(states, actions, j + 1, k, t);
    Anchored(states[k], t, x, states[k].threads[t].carry.g);
    hide Run;
    hide Do;
    hide Enabled;
    hide Quiet;
    Chained(states[i], states[i + 1], states[j], states[j + 1], states[k], states[k + 1], a, x, gone, d);
  }

  function Taken(d: Decision): GraphId { if d.Take? then d.g else NO_GRAPH }

  lemma {:induction false} Decided(s: State, t: Tid, x: SceneId, gone: seq<SceneId>, d: Decision)
    requires Enabled(s, MergeDecide(t, x, gone, d))
    ensures var s' := Do(s, MergeDecide(t, x, gone, d));
            && s.Works(t) && s'.Works(t) && s'.threads[t] == Working(s.threads[t].agent, Merging(x, gone, Taken(d))) && s'.scenes == s.scenes
            && (s.threads[t].agent, x) in s.scenes && x !in gone && Decides(s.scenes, s.threads[t].agent, x, gone, d) && !d.Refuse?
  {
    hide Decides;
  }

  lemma {:induction false} Dropped(s: State, t: Tid, x: SceneId, gone: seq<SceneId>, g: GraphId)
    requires Enabled(s, MergeDrop(t)) && s.threads[t].carry == Merging(x, gone, g)
    ensures var s', a := Do(s, MergeDrop(t)), s.threads[t].agent;
            && s'.Works(t) && s'.threads[t] == Working(a, Merged(x, g))
            && (forall y :: y in gone ==> (a, y) !in s'.scenes)
            && (forall y :: y !in gone ==> ((a, y) in s'.scenes <==> (a, y) in s.scenes) &&
                                            ((a, y) in s.scenes ==> s'.scenes[(a, y)] == s.scenes[(a, y)]))
  {
  }

  lemma {:induction false} Anchored(s: State, t: Tid, x: SceneId, g: GraphId)
    requires Enabled(s, MergeAnchor(t)) && s.threads[t].carry == Merged(x, g)
    ensures var s', a := Do(s, MergeAnchor(t)), s.threads[t].agent;
            SameBut(s, s', a, x) && (g != NO_GRAPH ==> (a, x) in s'.scenes && s'.scenes[(a, x)] == g) &&
            (g == NO_GRAPH ==> s'.scenes == s.scenes)
  {
  }

  lemma {:induction false} Chained(s0: State, s1: State, s2: State, s3: State, s4: State, s5: State, a: Agent, x: SceneId,
                                   gone: seq<SceneId>, d: Decision)
    requires s1.scenes == s0.scenes && SameDomain(s1, s2, a) && SameDomain(s3, s4, a) && SameBut(s4, s5, a, x)
    requires (a, x) in s0.scenes && x !in gone && Decides(s0.scenes, a, x, gone, d) && !d.Refuse?
    requires forall y :: y in gone ==> (a, y) !in s3.scenes
    requires forall y :: y !in gone ==> ((a, y) in s3.scenes <==> (a, y) in s2.scenes) &&
                                        ((a, y) in s2.scenes ==> s3.scenes[(a, y)] == s2.scenes[(a, y)])
    requires Taken(d) != NO_GRAPH ==> (a, x) in s5.scenes && s5.scenes[(a, x)] == Taken(d)
    requires Taken(d) == NO_GRAPH ==> s5.scenes == s4.scenes
    ensures HandedOn(s0, s5, a, x, gone)
  {
    assert (a, x) in s4.scenes && s4.scenes[(a, x)] == s0.scenes[(a, x)];
    forall y | y in gone
      ensures (a, y) !in s5.scenes
    {
      assert (a, y) !in s3.scenes && (a, y) !in s4.scenes;
    }
    forall y | y != x && y !in gone && (a, y) in s0.scenes
      ensures (a, y) in s5.scenes && s5.scenes[(a, y)] == s0.scenes[(a, y)]
    {
      assert (a, y) in s2.scenes && (a, y) in s3.scenes && (a, y) in s4.scenes;
    }
    Claims(s0, a, x, gone, d);
  }

  /** The decision, read off the scenes. */
  lemma {:induction false} Claims(s: State, a: Agent, x: SceneId, gone: seq<SceneId>, d: Decision)
    requires (a, x) in s.scenes && Decides(s.scenes, a, x, gone, d) && !d.Refuse?
    ensures s.scenes[(a, x)] != NO_GRAPH ==> Taken(d) == NO_GRAPH
    ensures s.scenes[(a, x)] == NO_GRAPH ==>
              forall y :: y in gone && (a, y) in s.scenes && s.scenes[(a, y)] != NO_GRAPH ==> Taken(d) == s.scenes[(a, y)]
    ensures (forall y :: y in gone && (a, y) in s.scenes ==> s.scenes[(a, y)] == NO_GRAPH) ==> Taken(d) == NO_GRAPH
  {
    forall y | y in gone && (a, y) in s.scenes && s.scenes[(a, y)] != NO_GRAPH
      ensures Claimed(s.scenes, a, gone, s.scenes[(a, y)])
    {
    }
  }

  /** An anchor that was validated is the one that is written, in a new scene or an old one; every other scene stands. */
  lemma {:induction false} ValidatedAnchorsAreWritten(states: seq<State>, actions: seq<Action>, i: nat, k: nat, t: Tid, g: GraphId, x: SceneId)
    requires Run(states, actions) && i < k < |actions| && Quiet(actions, i + 1, k, t)
    requires actions[i] == Validate(t, g) && (actions[k] == CreateScene(t, x) || actions[k] == WriteAnchor(t, x))
    ensures t in states[i].threads && states[i].threads[t].Working?
    ensures var a := states[i].threads[t].agent;
            g in states[i].graphs && (a, x) in states[k + 1].scenes && states[k + 1].scenes[(a, x)] == g && SameBut(states[i], states[k + 1], a, x)
  {
    StepAt(states, actions, i);
    StepAt(states, actions, k);
    DomainRests(states, actions, i + 1, k, t);
    hide Run;
    hide Quiet;
    hide Decides;
  }

  /** A rewrite of a scene record for any other reason, between reading and writing it back, leaves its anchor alone. */
  lemma {:induction false} WriteBacksKeepTheAnchor(states: seq<State>, actions: seq<Action>, i: nat, k: nat, t: Tid, x: SceneId)
    requires Run(states, actions) && i < k < |actions| && Quiet(actions, i + 1, k, t)
    requires actions[i] == ReadSlot(t, x) && actions[k] == WriteBack(t)
    ensures t in states[i].threads && states[i].threads[t].Working?
    ensures SameDomain(states[i], states[k + 1], states[i].threads[t].agent)
  {
    StepAt(states, actions, i);
    StepAt(states, actions, k);
    DomainRests(states, actions, i + 1, k, t);
    hide Run;
    hide Quiet;
    hide Decides;
  }

  /** What one step does to a record of the domain it works in, or to the pool. */
  lemma {:induction false} SingleWrites(s: State, a: Action)
    requires Enabled(s, a)
    ensures a.CreateScene? && s.threads[a.t].carry.Nothing? ==>
              var k := (s.threads[a.t].agent, a.x); k in Do(s, a).scenes && Do(s, a).scenes[k] == NO_GRAPH && SameBut(s, Do(s, a), k.0, a.x)
    ensures a.ClearAnchor? ==>
              var k := (s.threads[a.t].agent, a.x); k in Do(s, a).scenes && Do(s, a).scenes[k] == NO_GRAPH && SameBut(s, Do(s, a), k.0, a.x)
    ensures a.DeleteScene? ==> (s.threads[a.t].agent, a.x) !in Do(s, a).scenes && SameBut(s, Do(s, a), s.threads[a.t].agent, a.x)
    ensures forall g :: g in Do(s, a).graphs <==> (g in s.graphs && !(a.PoolTombstone? && a.g == g)) || (a.PoolAdd? && a.g == g)
  {
    hide Decides;
    hide Unfinished;
  }

  // ---- What a detach may touch ----

  /** A scene a detach has still to clear names the deleted graph. */
  predicate ClearsItsOwn(s: State, t: Tid)
  {
    t in s.threads && s.threads[t].Clearing? ==>
      forall x :: x in s.threads[t].left ==> (s.threads[t].agent, x) in s.scenes && s.scenes[(s.threads[t].agent, x)] == s.threads[t].g
  }

  lemma {:induction false} OthersLeaveTheDetach(s: State, a: Action, t: Tid)
    requires DomainsExclusive(s) && Enabled(s, a) && t in s.threads && s.threads[t].Clearing? && !a.Stop? && t !in By(a)
    ensures t in Do(s, a).threads && Do(s, a).threads[t] == s.threads[t] && SameDomain(s, Do(s, a), s.threads[t].agent)
  {
    hide Decides;
    hide Unfinished;
    assert s.threads[t].HoldsDomain(s.threads[t].agent);
  }

  lemma {:induction false} DetachStep(s: State, a: Action, t: Tid)
    requires DomainsExclusive(s) && Enabled(s, a) && ClearsItsOwn(s, t)
    ensures ClearsItsOwn(Do(s, a), t)
  {
    if t in By(a) {
      OwnDetachStep(s, a, t);
    } else if t in s.threads && s.threads[t].Clearing? && !a.Stop? {
      OthersLeaveTheDetach(s, a, t);
      hide Do;
      hide Enabled;
    } else {
      NewcomersDoNotClear(s, a, t);
    }
  }

  lemma {:induction false} OwnDetachStep(s: State, a: Action, t: Tid)
    requires Enabled(s, a) && t in By(a) && ClearsItsOwn(s, t)
    ensures ClearsItsOwn(Do(s, a), t)
  {
    hide Decides;
    hide Unfinished;
  }

  lemma {:induction false} NewcomersDoNotClear(s: State, a: Action, t: Tid)
    requires Enabled(s, a) && t !in By(a) && (a.Stop? || !(t in s.threads && s.threads[t].Clearing?))
    ensures ClearsItsOwn(Do(s, a), t)
  {
    hide Decides;
    hide Unfinished;
  }

  lemma {:induction false} DetachesClearTheirOwn(states: seq<State>, actions: seq<Action>, n: nat, t: Tid)
    requires Run(states, actions) && n <= |actions|
    ensures ClearsItsOwn(states[n], t)
  {
    hide Enabled;
    hide Do;
    if n > 0 {
      DetachesClearTheirOwn(states, actions, n - 1, t);
      RunKeepsInv(states, actions, n - 1);
      DetachStep(states[n - 1], actions[n - 1], t);
    }
  }

  /**
   * Over every run: a scene changes or goes only by an operation of its own domain, or because the graph it names is
   * deleted and the detach has come to it; then it names nothing.
   */
  lemma {:induction false} ScenesChangeForAReason(states: seq<State>, actions: seq<Action>, n: nat, k: (Agent, SceneId))
    requires Run(states, actions) && n < |actions| && k in states[n].scenes
    requires k !in states[n + 1].scenes || states[n + 1].scenes[k] != states[n].scenes[k]
    ensures exists t :: t in By(actions[n]) && t in states[n].threads && states[n].threads[t].HoldsDomain(k.0) &&
              (states[n].threads[t].Working? ||
               (states[n].threads[t].Clearing? && states[n].threads[t].g == states[n].scenes[k] &&
                k in states[n + 1].scenes && states[n + 1].scenes[k] == NO_GRAPH))
  {
    var s, a := states[n], actions[n];
    StepAt(states, actions, n);
    if By(a) == {} {
      OutsidersTouchNoScene(s, a);
    } else {
      DetachesClearTheirOwn(states, actions, n, a.t);
      hide Run;
      SceneTouched(s, a, k);
    }
  }

  lemma {:induction false} OutsidersTouchNoScene(s: State, a: Action)
    requires Enabled(s, a) && By(a) == {}
    ensures Do(s, a).scenes == s.scenes
  {
    hide Unfinished;
  }

  lemma {:induction false} SceneTouched(s: State, a: Action, k: (Agent, SceneId))
    requires Enabled(s, a) && By(a) != {} && k in s.scenes && ClearsItsOwn(s, a.t)
    requires k !in Do(s, a).scenes || Do(s, a).scenes[k] != s.scenes[k]
    ensures a.t in By(a) && a.t in s.threads && s.threads[a.t].HoldsDomain(k.0) && !s.threads[a.t].Scanning?
    ensures s.threads[a.t].Clearing? ==> s.threads[a.t].g == s.scenes[k] && k in Do(s, a).scenes && Do(s, a).scenes[k] == NO_GRAPH
  {
    hide Decides;
    hide Unfinished;
    assert k == (k.0, k.1);
  }
}
