// Scene anchors against the two-phase graph delete of internal/l3.go. Anchors live in the agent domains, graphs in
// the shared pool, and no step holds two domain locks; a domain lock is one mutex per agent (module Locks).
module Anchors {
  type Tid = nat
  type Agent = nat
  type SceneId = nat
  type GraphId = nat

  const DEFAULT_AGENT: Agent := 0
  const NO_GRAPH: GraphId := 0

  /** What a domain operation carries from one of its engine calls to the next. */
  datatype Carry =
    | Nothing
    | Validated(g: GraphId)                            // an anchor graph that read back
    | Slot(x: SceneId, g: GraphId)                     // a scene record about to be written back
    | Merging(x: SceneId, gone: seq<SceneId>, g: GraphId)
    | Merged(x: SceneId, g: GraphId)

  datatype Task =
    | Working(agent: Agent, carry: Carry)              // holds that domain's lock
    | InPool                                           // holds the pool lock
    | Tombstoned(g: GraphId)                           // holds the pool lock, g is deleted
    | Collecting(g: GraphId)                           // about to list the domains to detach
    | Detaching(g: GraphId, todo: set<Agent>)          // holds no lock
    | Scanning(g: GraphId, todo: set<Agent>, agent: Agent)                        // holds that domain's lock
    | Clearing(g: GraphId, todo: set<Agent>, agent: Agent, left: set<SceneId>)    // holds that domain's lock
  {
    predicate HoldsDomain(a: Agent) { (Working? || Scanning? || Clearing?) && agent == a }

    predicate HoldsPool() { InPool? || Tombstoned? }

    predicate Deletes() { Tombstoned? || Collecting? || Detaching? || Scanning? || Clearing? }

    /** This delete will still clear whatever domain a names g by. */
    predicate CoversDomain(a: Agent, h: GraphId) {
      Deletes() && g == h && (Tombstoned? || Collecting? || a in todo)
    }

    /** The domains this delete has not finished with. */
    function Remaining(agents: set<Agent>): set<Agent> {
      match this
      case Tombstoned(_) => agents
      case Collecting(_) => agents
      case Detaching(_, todo) => todo
      case Scanning(_, todo, a) => todo + {a}
      case Clearing(_, todo, a, _) => todo + {a}
      case _ => {}
    }

    predicate Covers(a: Agent, x: SceneId, h: GraphId) {
      CoversDomain(a, h) || (Scanning? && g == h && agent == a) || (Clearing? && g == h && agent == a && x in left)
    }
  }

  /**
   * scenes maps (agent, scene) to its L3ID; abandoned records the domains a delete will not get to, with its graph:
   * those its detach could not lock because of Close or could not write, and those it had left when the process stopped.
   */
  datatype State = State(scenes: map<(Agent, SceneId), GraphId>, graphs: set<GraphId>, agents: set<Agent>,
                         threads: map<Tid, Task>, closed: bool, abandoned: set<(Agent, GraphId)>)
  {
    predicate DomainFree(a: Agent) { forall t :: t in threads ==> !threads[t].HoldsDomain(a) }

    predicate PoolFree() { forall t :: t in threads ==> !threads[t].HoldsPool() }

    predicate Works(t: Tid) { t in threads && threads[t].Working? }

    function Become(t: Tid, k: Task): State { this.(threads := threads[t := k]) }

    function Carrying(t: Tid, c: Carry): State
      requires Works(t)
    {
      Become(t, threads[t].(carry := c))
    }

    function Put(a: Agent, x: SceneId, g: GraphId): State { this.(scenes := scenes[(a, x) := g]) }
  }

  datatype Action =
    | Register(a: Agent)
    | Close
    | Stop                                             // the process ends anywhere, and the file is opened again
    | Begin(t: Tid, a: Agent)
    | Validate(t: Tid, g: GraphId)
    | CreateScene(t: Tid, x: SceneId)
    | WriteAnchor(t: Tid, x: SceneId)
    | ClearAnchor(t: Tid, x: SceneId)
    | ReadSlot(t: Tid, x: SceneId)
    | WriteBack(t: Tid)
    | DeleteScene(t: Tid, x: SceneId)
    | MergeDecide(t: Tid, x: SceneId, gone: seq<SceneId>, d: Decision)
    | MergeDrop(t: Tid)
    | MergeAnchor(t: Tid)
    | End(t: Tid)
    | PoolLock(t: Tid)
    | PoolAdd(t: Tid, g: GraphId)
    | PoolUnlock(t: Tid)
    | PoolTombstone(t: Tid, g: GraphId)
    | PoolRelease(t: Tid)
    | Collect(t: Tid)
    | DetachLock(t: Tid, a: Agent)
    | DetachSkip(t: Tid, a: Agent)
    | DetachScan(t: Tid)
    | DetachWrite(t: Tid, x: SceneId)
    | DetachFail(t: Tid)                               // the storage refuses; the host hears of it, the loop goes on
    | DetachUnlock(t: Tid)
    | DetachDone(t: Tid)

  // ---- mergedAnchor ----

  datatype Decision = Keep | Take(g: GraphId) | Refuse

  ghost predicate Claimed(scenes: map<(Agent, SceneId), GraphId>, a: Agent, gone: seq<SceneId>, g: GraphId)
  {
    g != NO_GRAPH && exists y :: y in gone && (a, y) in scenes && scenes[(a, y)] == g
  }

  /** Keep leaves the survivor's claim alone, Take gives it the one claim of the others, Refuse asks the host. */
  ghost predicate Decides(scenes: map<(Agent, SceneId), GraphId>, a: Agent, x: SceneId, gone: seq<SceneId>, d: Decision)
    requires (a, x) in scenes
  {
    match d
    case Keep => scenes[(a, x)] != NO_GRAPH || forall g :: !Claimed(scenes, a, gone, g)
    case Take(g) => scenes[(a, x)] == NO_GRAPH && Claimed(scenes, a, gone, g) && forall h :: Claimed(scenes, a, gone, h) ==> h == g
    case Refuse => scenes[(a, x)] == NO_GRAPH && exists g, h :: g != h && Claimed(scenes, a, gone, g) && Claimed(scenes, a, gone, h)
  }

  /** mergedAnchor: the distinct anchors of the scenes to fold, counted in a scan. */
  method MergedAnchor(scenes: map<(Agent, SceneId), GraphId>, a: Agent, x: SceneId, gone: seq<SceneId>) returns (d: Decision)
    requires (a, x) in scenes && forall y :: y in gone ==> (a, y) in scenes
    ensures Decides(scenes, a, x, gone, d)
  {
    if scenes[(a, x)] != NO_GRAPH {
      return Keep;
    }
    var distinct: seq<GraphId> := [];
    for i := 0 to |gone|
      invariant forall g :: g in distinct <==> Claimed(scenes, a, gone[..i], g)
      invariant forall j, k :: 0 <= j < k < |distinct| ==> distinct[j] != distinct[k]
    {
      assert gone[..i + 1] == gone[..i] + [gone[i]];
      var g := scenes[(a, gone[i])];
      ghost var was := distinct;
      if g != NO_GRAPH && g !in distinct {
        distinct := distinct + [g];
      }
      forall h
        ensures h in distinct <==> Claimed(scenes, a, gone[..i + 1], h)
      {
        assert h in was <==> Claimed(scenes, a, gone[..i], h);
        ClaimedSnoc(scenes, a, gone[..i], gone[i], h);
      }
    }
    assert gone[..|gone|] == gone;
    if |distinct| == 0 {
      return Keep;
    }
    if |distinct| == 1 {
      return Take(distinct[0]);
    }
    assert distinct[0] in distinct && distinct[1] in distinct;
    return Refuse;
  }

  lemma {:induction false} ClaimedSnoc(scenes: map<(Agent, SceneId), GraphId>, a: Agent, gone: seq<SceneId>, y: SceneId, g: GraphId)
    requires (a, y) in scenes
    ensures Claimed(scenes, a, gone + [y], g) <==> Claimed(scenes, a, gone, g) || (g != NO_GRAPH && scenes[(a, y)] == g)
  {
    var more := gone + [y];
    assert y in more;
    if Claimed(scenes, a, gone, g) {
      var z :| z in gone && (a, z) in scenes && scenes[(a, z)] == g;
      assert z in more;
    }
  }

  // ---- Steps ----

  ghost predicate Enabled(s: State, a: Action)
  {
    match a
    case Register(_) => true
    case Close => true
    case Stop => true
    case Begin(t, d) => t !in s.threads && d in s.agents && !s.closed && s.DomainFree(d)
    case Validate(t, g) => s.Works(t) && g in s.graphs && g != NO_GRAPH
    case CreateScene(t, x) =>
      s.Works(t) && (s.threads[t].carry.Nothing? || s.threads[t].carry.Validated?) && (s.threads[t].agent, x) !in s.scenes
    case WriteAnchor(t, x) => s.Works(t) && s.threads[t].carry.Validated? && (s.threads[t].agent, x) in s.scenes
    case ClearAnchor(t, x) => s.Works(t) && (s.threads[t].agent, x) in s.scenes
    case ReadSlot(t, x) => s.Works(t) && (s.threads[t].agent, x) in s.scenes
    case WriteBack(t) => s.Works(t) && s.threads[t].carry.Slot?
    case DeleteScene(t, x) => s.Works(t)
    case MergeDecide(t, x, gone, d) =>
      s.Works(t) && (s.threads[t].agent, x) in s.scenes && x !in gone && Decides(s.scenes, s.threads[t].agent, x, gone, d) && !d.Refuse?
    case MergeDrop(t) => s.Works(t) && s.threads[t].carry.Merging?
    case MergeAnchor(t) => s.Works(t) && s.threads[t].carry.Merged?
    case End(t) => s.Works(t)
    case PoolLock(t) => t !in s.threads && !s.closed && s.PoolFree()
    case PoolAdd(t, g) => t in s.threads && s.threads[t].InPool? && g != NO_GRAPH
    case PoolUnlock(t) => t in s.threads && s.threads[t].InPool?
    case PoolTombstone(t, g) => t in s.threads && s.threads[t].InPool? && g in s.graphs
    case PoolRelease(t) => t in s.threads && s.threads[t].Tombstoned?
    case Collect(t) => t in s.threads && s.threads[t].Collecting?
    case DetachLock(t, d) => t in s.threads && s.threads[t].Detaching? && d in s.threads[t].todo && !s.closed && s.DomainFree(d)
    case DetachSkip(t, d) => t in s.threads && s.threads[t].Detaching? && d in s.threads[t].todo && s.closed
    case DetachScan(t) => t in s.threads && s.threads[t].Scanning?
    case DetachWrite(t, x) => t in s.threads && s.threads[t].Clearing? && x in s.threads[t].left
    case DetachFail(t) => t in s.threads && (s.threads[t].Scanning? || s.threads[t].Clearing?)
    case DetachUnlock(t) => t in s.threads && s.threads[t].Clearing? && s.threads[t].left == {}
    case DetachDone(t) => t in s.threads && s.threads[t].Detaching? && s.threads[t].todo == {}
  }

  function Named(scenes: map<(Agent, SceneId), GraphId>, a: Agent, g: GraphId): set<SceneId>
  {
    set k | k in scenes && k.0 == a && scenes[k] == g :: k.1
  }

  /** What the deletes in flight still had to do. */
  ghost function Unfinished(s: State): set<(Agent, GraphId)>
  {
    set t, d | t in s.threads && s.threads[t].Deletes() && d in s.threads[t].Remaining(s.agents) :: (d, s.threads[t].g)
  }

  ghost function Do(s: State, a: Action): State
    requires Enabled(s, a)
  {
    match a
    case Register(d) => s.(agents := s.agents + {d})
    case Close => s.(closed := true)
    case Stop => s.(threads := map[], closed := false, abandoned := s.abandoned + Unfinished(s))
    case Begin(t, d) => s.Become(t, Working(d, Nothing))
    case Validate(t, g) => s.Carrying(t, Validated(g))
    case CreateScene(t, x) =>
      var th := s.threads[t];
      s.Put(th.agent, x, if th.carry.Validated? then th.carry.g else NO_GRAPH).Carrying(t, Nothing)
    case WriteAnchor(t, x) => s.Put(s.threads[t].agent, x, s.threads[t].carry.g).Carrying(t, Nothing)
    case ClearAnchor(t, x) => s.Put(s.threads[t].agent, x, NO_GRAPH).Carrying(t, Nothing)
    case ReadSlot(t, x) => s.Carrying(t, Slot(x, s.scenes[(s.threads[t].agent, x)]))
    case WriteBack(t) => s.Put(s.threads[t].agent, s.threads[t].carry.x, s.threads[t].carry.g).Carrying(t, Nothing)
    case DeleteScene(t, x) => s.(scenes := s.scenes - {(s.threads[t].agent, x)}).Carrying(t, Nothing)
    case MergeDecide(t, x, gone, d) => s.Carrying(t, Merging(x, gone, if d.Take? then d.g else NO_GRAPH))
    case MergeDrop(t) =>
      var th := s.threads[t];
      s.(scenes := s.scenes - (set y | y in th.carry.gone :: (th.agent, y))).Carrying(t, Merged(th.carry.x, th.carry.g))
    case MergeAnchor(t) =>
      var th := s.threads[t];
      if th.carry.g == NO_GRAPH then s.Carrying(t, Nothing) else s.Put(th.agent, th.carry.x, th.carry.g).Carrying(t, Nothing)
    case End(t) => s.(threads := s.threads - {t})
    case PoolLock(t) => s.Become(t, InPool)
    case PoolAdd(t, g) => s.(graphs := s.graphs + {g})
    case PoolUnlock(t) => s.(threads := s.threads - {t})
    case PoolTombstone(t, g) => s.(graphs := s.graphs - {g}).Become(t, Tombstoned(g))
    case PoolRelease(t) => s.Become(t, Collecting(s.threads[t].g))
    case Collect(t) => s.Become(t, Detaching(s.threads[t].g, s.agents))
    case DetachLock(t, d) => s.Become(t, Scanning(s.threads[t].g, s.threads[t].todo - {d}, d))
    case DetachSkip(t, d) =>
      s.Become(t, Detaching(s.threads[t].g, s.threads[t].todo - {d})).(abandoned := s.abandoned + {(d, s.threads[t].g)})
    case DetachScan(t) =>
      var th := s.threads[t];
      s.Become(t, Clearing(th.g, th.todo, th.agent, Named(s.scenes, th.agent, th.g)))
    case DetachWrite(t, x) =>
      var th := s.threads[t];
      s.Put(th.agent, x, NO_GRAPH).Become(t, th.(left := th.left - {x}))
    case DetachFail(t) =>
      var th := s.threads[t];
      s.Become(t, Detaching(th.g, th.todo)).(abandoned := s.abandoned + {(th.agent, th.g)})
    case DetachUnlock(t) => s.Become(t, Detaching(s.threads[t].g, s.threads[t].todo))
    case DetachDone(t) => s.(threads := s.threads - {t})
  }

  // ---- What every step keeps ----

  /** A delete still in flight will clear this anchor, or one was kept from it. */
  ghost predicate Excused(s: State, a: Agent, x: SceneId, g: GraphId)
  {
    (a, g) in s.abandoned || exists t :: t in s.threads && s.threads[t].Covers(a, x, g)
  }

  ghost predicate DomainExcused(s: State, a: Agent, g: GraphId)
  {
    (a, g) in s.abandoned || exists t :: t in s.threads && s.threads[t].CoversDomain(a, g)
  }

  predicate Missing(s: State, g: GraphId) { g != NO_GRAPH && g !in s.graphs }

  ghost predicate AnchorsOk(s: State)
  {
    forall a, x :: (a, x) in s.scenes && Missing(s, s.scenes[(a, x)]) ==> Excused(s, a, x, s.scenes[(a, x)])
  }

  function Carried(c: Carry): GraphId { if c.Nothing? then NO_GRAPH else c.g }

  /** What an operation may be about to write is no worse than what is written. */
  ghost predicate CarriesOk(s: State)
  {
    forall t :: t in s.threads && s.threads[t].Working? && Missing(s, Carried(s.threads[t].carry)) ==>
      DomainExcused(s, s.threads[t].agent, Carried(s.threads[t].carry))
  }

  ghost predicate DomainsExclusive(s: State)
  {
    forall t, u, a :: t in s.threads && u in s.threads && s.threads[t].HoldsDomain(a) && s.threads[u].HoldsDomain(a) ==> t == u
  }

  /** Only registered domains hold scenes, operate or wait to be detached. */
  ghost predicate ScenesKnown(s: State)
  {
    DEFAULT_AGENT in s.agents && forall k :: k in s.scenes ==> k.0 in s.agents
  }

  ghost predicate ThreadsKnown(s: State)
  {
    && (forall t :: t in s.threads && (s.threads[t].Working? || s.threads[t].Scanning? || s.threads[t].Clearing?) ==>
          s.threads[t].agent in s.agents)
    && (forall t :: t in s.threads && (s.threads[t].Detaching? || s.threads[t].Scanning? || s.threads[t].Clearing?) ==>
          s.threads[t].todo <= s.agents)
  }

  ghost predicate Inv(s: State) { AnchorsOk(s) && CarriesOk(s) && DomainsExclusive(s) && ScenesKnown(s) && ThreadsKnown(s) }

  /** Any file without a dangling anchor, just opened. */
  ghost predicate Init(s: State)
  {
    NoDanglingAnchor(s) && ScenesKnown(s) && s.threads == map[] && !s.closed && s.abandoned == {}
  }

  lemma {:induction false} InitInv(s: State)
    requires Init(s)
    ensures Inv(s)
  {
  }

  lemma {:induction false} KeepsExclusive(s: State, a: Action)
    requires Inv(s) && Enabled(s, a)
    ensures DomainsExclusive(Do(s, a))
  {
    hide Unfinished;
    hide AnchorsOk;
    hide CarriesOk;
    hide ScenesKnown;
    hide ThreadsKnown;
    hide Decides;
  }

  lemma {:induction false} KeepsScenesKnown(s: State, a: Action)
    requires Inv(s) && Enabled(s, a)
    ensures ScenesKnown(Do(s, a))
  {
    hide Unfinished;
    hide AnchorsOk;
    hide CarriesOk;
    hide DomainsExclusive;
    hide Decides;
    var s' := Do(s, a);
    forall k | k in s'.scenes
      ensures k.0 in s'.agents
    {
      assert k in s.scenes || (k.0 in s.agents && k == (k.0, k.1));
    }
  }

  lemma {:induction false} KeepsThreadsKnown(s: State, a: Action)
    requires ThreadsKnown(s) && Enabled(s, a)
    ensures ThreadsKnown(Do(s, a))
  {
    hide Unfinished;
    hide Decides;
    if Detaches(a) {
      DetachKeepsThreadsKnown(s, a);
    }
  }

  lemma {:induction false} DetachKeepsThreadsKnown(s: State, a: Action)
    requires ThreadsKnown(s) && Enabled(s, a) && Detaches(a)
    ensures ThreadsKnown(Do(s, a))
  {
    hide Unfinished;
  }

  /** A step takes an excuse away only by making it unnecessary: the scene was cleared, or the graph is back. */
  lemma {:induction false} ExcuseKept(s: State, a: Action, d: Agent, x: SceneId, g: GraphId)
    requires ScenesKnown(s) && Enabled(s, a) && Excused(s, d, x, g)
    requires (d, x) in s.scenes && s.scenes[(d, x)] == g && g != NO_GRAPH
    ensures Excused(Do(s, a), d, x, g) || (d, x) !in Do(s, a).scenes || Do(s, a).scenes[(d, x)] != g
  {
    if (d, g) in s.abandoned {
      StaysAbandoned(s, a, d, g);
    } else {
      var t :| t in s.threads && s.threads[t].Covers(d, x, g);
      if a.Stop? {
        assert d in s.threads[t].Remaining(s.agents);
        assert (d, g) in Unfinished(s);
      } else {
        CoverKept(s, a, t, d, x, g);
      }
    }
  }

  lemma {:induction false} StaysAbandoned(s: State, a: Action, d: Agent, g: GraphId)
    requires Enabled(s, a) && (d, g) in s.abandoned
    ensures (d, g) in Do(s, a).abandoned
  {
    hide Decides;
    hide Unfinished;
  }

  lemma {:induction false} CoverKept(s: State, a: Action, t: Tid, d: Agent, x: SceneId, g: GraphId)
    requires ScenesKnown(s) && Enabled(s, a) && !a.Stop? && t in s.threads && s.threads[t].Covers(d, x, g)
    requires (d, x) in s.scenes && s.scenes[(d, x)] == g && g != NO_GRAPH
    ensures StillCovered(Do(s, a), t, d, x, g)
  {
    hide Decides;
    hide Unfinished;
    if Detaches(a) && a.t == t {
      OwnStepCovers(s, a, d, x, g);
    } else {
      OthersKeepDeletes(s, a, t);
      hide Do;
      hide Enabled;
    }
  }

  ghost predicate StillCovered(s: State, t: Tid, d: Agent, x: SceneId, g: GraphId)
  {
    || (t in s.threads && s.threads[t].Covers(d, x, g)) || (d, g) in s.abandoned
    || (d, x) !in s.scenes || s.scenes[(d, x)] != g
  }

  lemma {:induction false} OwnStepCovers(s: State, a: Action, d: Agent, x: SceneId, g: GraphId)
    requires ScenesKnown(s) && Enabled(s, a) && Detaches(a) && s.threads[a.t].Covers(d, x, g)
    requires (d, x) in s.scenes && s.scenes[(d, x)] == g && g != NO_GRAPH
    ensures StillCovered(Do(s, a), a.t, d, x, g)
  {
    if a.DetachScan? || a.DetachWrite? {
      ClearingCovers(s, a, d, x, g);
    } else {
      assert d in s.agents;
      hide ScenesKnown;
    }
  }

  lemma {:induction false} ClearingCovers(s: State, a: Action, d: Agent, x: SceneId, g: GraphId)
    requires Enabled(s, a) && (a.DetachScan? || a.DetachWrite?) && s.threads[a.t].Covers(d, x, g)
    requires (d, x) in s.scenes && s.scenes[(d, x)] == g && g != NO_GRAPH
    ensures StillCovered(Do(s, a), a.t, d, x, g)
  {
    assert a.DetachScan? && s.threads[a.t].agent == d && s.threads[a.t].g == g ==> x in Named(s.scenes, d, g) by {
      assert (d, x) in s.scenes;
    }
  }

  /** A step of a delete behind its tombstone. */
  predicate Detaches(a: Action)
  {
    a.PoolRelease? || a.Collect? || a.DetachLock? || a.DetachSkip? || a.DetachScan? || a.DetachWrite? || a.DetachFail? || a.DetachUnlock? || a.DetachDone?
  }

  lemma {:induction false} OthersKeepDeletes(s: State, a: Action, t: Tid)
    requires Enabled(s, a) && !a.Stop? && !(Detaches(a) && a.t == t) && t in s.threads && s.threads[t].Deletes()
    ensures t in Do(s, a).threads && Do(s, a).threads[t] == s.threads[t]
  {
    hide Decides;
  }

  /** While t holds a domain, no delete is clearing it, so an excuse for one of its scenes covers the whole domain. */
  lemma {:induction false} HeldDomainExcused(s: State, t: Tid, x: SceneId, g: GraphId)
    requires DomainsExclusive(s) && s.Works(t) && Excused(s, s.threads[t].agent, x, g)
    ensures DomainExcused(s, s.threads[t].agent, g)
  {
    var a := s.threads[t].agent;
    if (a, g) !in s.abandoned {
      var u :| u in s.threads && s.threads[u].Covers(a, x, g);
      assert s.threads[t].HoldsDomain(a);
      assert u != t;
    }
  }

  lemma {:induction false} DomainExcuseKept(s: State, a: Action, t: Tid, g: GraphId)
    requires ThreadsKnown(s) && Enabled(s, a) && s.Works(t) && DomainExcused(s, s.threads[t].agent, g)
    ensures DomainExcused(Do(s, a), s.threads[t].agent, g)
  {
    var d := s.threads[t].agent;
    if (d, g) in s.abandoned {
      StaysAbandoned(s, a, d, g);
    } else {
      var u :| u in s.threads && s.threads[u].CoversDomain(d, g);
      if a.Stop? {
        assert d in s.threads[u].Remaining(s.agents);
        assert (d, g) in Unfinished(s);
      } else {
        DomainCoverKept(s, a, t, u, g);
      }
    }
  }

  lemma {:induction false} DomainCoverKept(s: State, a: Action, t: Tid, u: Tid, g: GraphId)
    requires ThreadsKnown(s) && Enabled(s, a) && !a.Stop? && s.Works(t) && u in s.threads && s.threads[u].CoversDomain(s.threads[t].agent, g)
    ensures var s', d := Do(s, a), s.threads[t].agent;
            (u in s'.threads && s'.threads[u].CoversDomain(d, g)) || (d, g) in s'.abandoned
  {
    hide Decides;
    hide Unfinished;
    assert s.threads[t].HoldsDomain(s.threads[t].agent);
  }

  /** The scene records a step may write: one scene of the acting domain, to what it carries or to nothing. */
  lemma {:induction false} WrittenAnchor(s: State, a: Action, d: Agent, x: SceneId) returns (t: Tid)
    requires Enabled(s, a) && (d, x) in Do(s, a).scenes && Do(s, a).scenes[(d, x)] != NO_GRAPH
    ensures ((d, x) in s.scenes && s.scenes[(d, x)] == Do(s, a).scenes[(d, x)])
         || (s.Works(t) && s.threads[t].agent == d && Carried(s.threads[t].carry) == Do(s, a).scenes[(d, x)])
  {
    hide Decides;
    hide Unfinished;
    t := 0;
    if a.CreateScene? || a.WriteAnchor? || a.WriteBack? || a.MergeAnchor? {
      t := a.t;
    } else {
      OnlyTheseWrite(s, a, d, x);
    }
  }

  lemma {:induction false} OnlyTheseWrite(s: State, a: Action, d: Agent, x: SceneId)
    requires Enabled(s, a) && !a.CreateScene? && !a.WriteAnchor? && !a.WriteBack? && !a.MergeAnchor?
    requires (d, x) in Do(s, a).scenes && Do(s, a).scenes[(d, x)] != NO_GRAPH
    ensures (d, x) in s.scenes && s.scenes[(d, x)] == Do(s, a).scenes[(d, x)]
  {
    hide Decides;
    hide Unfinished;
  }

  lemma {:induction false} KeepsAnchors(s: State, a: Action)
    requires Inv(s) && Enabled(s, a)
    ensures AnchorsOk(Do(s, a))
  {
    var s' := Do(s, a);
    forall d, x | (d, x) in s'.scenes && Missing(s', s'.scenes[(d, x)])
      ensures Excused(s', d, x, s'.scenes[(d, x)])
    {
      var g := s'.scenes[(d, x)];
      var t := WrittenAnchor(s, a, d, x);
      if g in s.graphs {
        JustDeleted(s, a, d, x, g);
      } else if (d, x) in s.scenes && s.scenes[(d, x)] == g {
        ExcuseKept(s, a, d, x, g);
      } else {
        DomainExcuseKept(s, a, t, g);
        DomainIsEnough(s', d, x, g);
      }
    }
  }

  lemma {:induction false} DomainIsEnough(s: State, d: Agent, x: SceneId, g: GraphId)
    requires DomainExcused(s, d, g)
    ensures Excused(s, d, x, g)
  {
    if (d, g) !in s.abandoned {
      var t :| t in s.threads && s.threads[t].CoversDomain(d, g);
      assert s.threads[t].Covers(d, x, g);
    }
  }

  lemma {:induction false} JustDeleted(s: State, a: Action, d: Agent, x: SceneId, g: GraphId)
    requires Enabled(s, a) && g in s.graphs && g !in Do(s, a).graphs
    ensures DomainExcused(Do(s, a), d, g) && Excused(Do(s, a), d, x, g)
  {
    assert a.PoolTombstone? && a.g == g;
    assert Do(s, a).threads[a.t].CoversDomain(d, g) && Do(s, a).threads[a.t].Covers(d, x, g);
  }

  /** What a step may leave a thread carrying: what it carried, an existing graph, or the anchor of a scene of its domain. */
  lemma {:induction false} TakenUp(s: State, a: Action, t: Tid) returns (x: SceneId)
    requires Inv(s) && Enabled(s, a) && Do(s, a).Works(t) && Carried(Do(s, a).threads[t].carry) != NO_GRAPH
    ensures s.Works(t) && Do(s, a).threads[t].agent == s.threads[t].agent
    ensures var g := Carried(Do(s, a).threads[t].carry);
            || Carried(s.threads[t].carry) == g || g in s.graphs
            || ((s.threads[t].agent, x) in s.scenes && s.scenes[(s.threads[t].agent, x)] == g)
  {
    hide Unfinished;
    hide AnchorsOk;
    hide CarriesOk;
    hide DomainsExclusive;
    hide ScenesKnown;
    hide ThreadsKnown;
    x := 0;
    if a.ReadSlot? {
      x := a.x;
    } else if a.MergeDecide? && a.t == t && a.d.Take? {
      x :| x in a.gone && (s.threads[t].agent, x) in s.scenes && s.scenes[(s.threads[t].agent, x)] == a.d.g;
    }
  }

  lemma {:induction false} KeepsCarries(s: State, a: Action)
    requires Inv(s) && Enabled(s, a)
    ensures CarriesOk(Do(s, a))
  {
    var s' := Do(s, a);
    forall t | t in s'.threads && s'.threads[t].Working? && Missing(s', Carried(s'.threads[t].carry))
      ensures DomainExcused(s', s'.threads[t].agent, Carried(s'.threads[t].carry))
    {
      var g := Carried(s'.threads[t].carry);
      var x := TakenUp(s, a, t);
      if g in s.graphs {
        JustDeleted(s, a, s.threads[t].agent, x, g);
      } else {
        if Carried(s.threads[t].carry) != g {
          HeldDomainExcused(s, t, x, g);
        }
        DomainExcuseKept(s, a, t, g);
      }
    }
  }

  lemma {:induction false} StepKeepsInv(s: State, a: Action)
    requires Inv(s) && Enabled(s, a)
    ensures Inv(Do(s, a))
  {
    KeepsAnchors(s, a);
    KeepsCarries(s, a);
    KeepsExclusive(s, a);
    KeepsScenesKnown(s, a);
    KeepsThreadsKnown(s, a);
  }

  // ---- Runs ----

  ghost predicate Run(states: seq<State>, actions: seq<Action>)
  {
    && |states| == |actions| + 1 && Init(states[0])
    && forall i :: 0 <= i < |actions| ==> Enabled(states[i], actions[i]) && states[i + 1] == Do(states[i], actions[i])
  }

  ghost predicate NoDanglingAnchor(s: State) { forall k :: k in s.scenes ==> !Missing(s, s.scenes[k]) }

  predicate NoDeleteInFlight(s: State) { forall t :: t in s.threads ==> !s.threads[t].Deletes() }

  lemma {:induction false} RunKeepsInv(states: seq<State>, actions: seq<Action>, n: nat)
    requires Run(states, actions) && n <= |actions|
    ensures Inv(states[n])
  {
    hide Inv;
    hide Do;
    hide Enabled;
    if n == 0 {
      InitInv(states[0]);
    } else {
      RunKeepsInv(states, actions, n - 1);
      StepKeepsInv(states[n - 1], actions[n - 1]);
    }
  }

  /** This step keeps a delete of g from finishing with domain d: a skip because of Close, a refused write, or a stop. */
  ghost predicate Abandons(s: State, a: Action, d: Agent, g: GraphId)
  {
    || (a.DetachSkip? && a.a == d && a.t in s.threads && s.threads[a.t].Detaching? && s.threads[a.t].g == g)
    || (a.DetachFail? && a.t in s.threads && (s.threads[a.t].Scanning? || s.threads[a.t].Clearing?) &&
        s.threads[a.t].agent == d && s.threads[a.t].g == g)
    || (a.Stop? && (d, g) in Unfinished(s))
  }

  ghost predicate GaveUp(states: seq<State>, actions: seq<Action>, n: nat, d: Agent, g: GraphId)
    requires n <= |actions| < |states|
  {
    exists j :: 0 <= j < n && Abandons(states[j], actions[j], d, g)
  }

  /** The abandoned pairs are exactly those the run's own steps gave up. */
  lemma {:induction false} AbandonedExactly(states: seq<State>, actions: seq<Action>, n: nat, d: Agent, g: GraphId)
    requires Run(states, actions) && n <= |actions|
    ensures (d, g) in states[n].abandoned <==> GaveUp(states, actions, n, d, g)
  {
    hide Do;
    hide Enabled;
    hide Abandons;
    if n > 0 {
      AbandonedExactly(states, actions, n - 1, d, g);
      AbandonStep(states[n - 1], actions[n - 1], d, g);
      if Abandons(states[n - 1], actions[n - 1], d, g) {
        assert GaveUp(states, actions, n, d, g);
      } else if GaveUp(states, actions, n - 1, d, g) {
        var j :| 0 <= j < n - 1 && Abandons(states[j], actions[j], d, g);
        assert GaveUp(states, actions, n, d, g);
      }
    }
  }

  lemma {:induction false} AbandonStep(s: State, a: Action, d: Agent, g: GraphId)
    requires Enabled(s, a)
    ensures (d, g) in Do(s, a).abandoned <==> (d, g) in s.abandoned || Abandons(s, a, d, g)
  {
    hide Decides;
    hide Unfinished;
  }

  /**
   * Anchor safety, in every interleaving and over every stop and reopen, once no delete is in flight. A scene that
   * names a missing graph is one of a domain that the delete of that very graph was kept from; so no anchor dangles
   * exactly when no domain still names a missing graph whose delete was kept from it.
   */
  lemma {:induction false} NoAnchorOutlivesItsGraph(states: seq<State>, actions: seq<Action>, n: nat)
    requires Run(states, actions) && n <= |actions| && NoDeleteInFlight(states[n])
    ensures forall k :: k in states[n].scenes && Missing(states[n], states[n].scenes[k]) ==>
              GaveUp(states, actions, n, k.0, states[n].scenes[k])
    ensures NoDanglingAnchor(states[n]) <==>
              forall k :: k in states[n].scenes && GaveUp(states, actions, n, k.0, states[n].scenes[k]) ==>
                !Missing(states[n], states[n].scenes[k])
  {
    RunKeepsInv(states, actions, n);
    var s := states[n];
    forall k | k in s.scenes && Missing(s, s.scenes[k])
      ensures GaveUp(states, actions, n, k.0, s.scenes[k])
    {
      assert k == (k.0, k.1);
      AbandonedExactly(states, actions, n, k.0, s.scenes[k]);
      hide Run;
      hide GaveUp;
      assert (k.0, s.scenes[k]) in s.abandoned;
    }
    hide Run;
    hide GaveUp;
    hide Inv;
  }

  predicate PoolIdle(s: State) { s.PoolFree() && NoDeleteInFlight(s) }

  /** The host closes only while no pool operation and no delete runs, the process stops during none, no detach write fails. */
  ghost predicate Orderly(states: seq<State>, actions: seq<Action>, n: nat)
    requires n <= |actions| < |states|
  {
    forall j :: 0 <= j < n ==>
      && (actions[j].Close? ==> PoolIdle(states[j])) && (actions[j].Stop? ==> NoDeleteInFlight(states[j]))
      && !actions[j].DetachFail?
  }

  lemma {:induction false} NothingAbandoned(states: seq<State>, actions: seq<Action>, n: nat)
    requires Run(states, actions) && n <= |actions| && Orderly(states, actions, n)
    ensures states[n].abandoned == {} && (states[n].closed ==> PoolIdle(states[n]))
  {
    hide Do;
    hide Enabled;
    hide PoolIdle;
    hide NoDeleteInFlight;
    if n > 0 {
      NothingAbandoned(states, actions, n - 1);
      IdleStep(states[n - 1], actions[n - 1]);
    }
  }

  lemma {:induction false} IdleStep(s: State, a: Action)
    requires Enabled(s, a) && s.abandoned == {} && (s.closed || a.Close? ==> PoolIdle(s)) && (a.Stop? ==> NoDeleteInFlight(s)) && !a.DetachFail?
    ensures Do(s, a).abandoned == {} && (Do(s, a).closed ==> PoolIdle(Do(s, a)))
  {
    hide Decides;
  }

  /** In an orderly run no anchor is ever left dangling. */
  lemma {:induction false} OrderlyRunsAreSafe(states: seq<State>, actions: seq<Action>, n: nat)
    requires Run(states, actions) && n <= |actions| && NoDeleteInFlight(states[n]) && Orderly(states, actions, n)
    ensures NoDanglingAnchor(states[n])
  {
    NothingAbandoned(states, actions, n);
    RunKeepsInv(states, actions, n);
    hide Run;
    forall k | k in states[n].scenes
      ensures !Missing(states[n], states[n].scenes[k])
    {
      assert k == (k.0, k.1);
    }
  }

  /** The run of one more step. */
  lemma {:induction false} RunSnoc(states: seq<State>, actions: seq<Action>, a: Action)
    requires Run(states, actions) && Enabled(states[|actions|], a)
    ensures Run(states + [Do(states[|actions|], a)], actions + [a])
  {
    hide Do;
    hide Enabled;
    hide Init;
  }

  /** The state after steps taken from s, each of them possible when its turn comes. */
  ghost predicate Plays(s: State, actions: seq<Action>, s': State)
    decreases |actions|
  {
    if actions == [] then s == s'
    else Enabled(s, actions[0]) && Plays(Do(s, actions[0]), actions[1..], s')
  }

  lemma {:induction false} PlayedRun(states: seq<State>, done: seq<Action>, actions: seq<Action>, s': State)
    returns (all: seq<State>)
    requires Run(states, done) && Plays(states[|done|], actions, s')
    ensures Run(all, done + actions) && all[|done + actions|] == s'
    decreases |actions|
  {
    if actions == [] {
      all := states;
      assert done + actions == done;
    } else {
      RunSnoc(states, done, actions[0]);
      hide Do;
      hide Enabled;
      hide Init;
      all := PlayedRun(states + [Do(states[|done|], actions[0])], done + [actions[0]], actions[1..], s');
      assert done + actions == (done + [actions[0]]) + actions[1..];
    }
  }

  /** A scene anchored to graph 7, and the first phase of a DeleteL3 of 7. */
  lemma {:induction false} FirstPhase() returns (states: seq<State>, actions: seq<Action>)
    ensures Run(states, actions) && states[|actions|] == State(map[(DEFAULT_AGENT, 5) := 7], {}, {DEFAULT_AGENT}, map[2 := Tombstoned(7)], false, {})
  {
    var s0 := State(map[], {7}, {DEFAULT_AGENT}, map[], false, {});
    var setup, kill := [Begin(1, DEFAULT_AGENT), Validate(1, 7), CreateScene(1, 5), End(1)], [PoolLock(2), PoolTombstone(2, 7)];
    var s1 := s0.(scenes := map[(DEFAULT_AGENT, 5) := 7]);
    AnchoredScene(s0, s1);
    var s2 := s1.(graphs := {}).Become(2, Tombstoned(7));
    DeletedGraph(s1, s2);
    assert Run([s0], []);
    hide Plays;
    hide Run;
    states := PlayedRun([s0], [], setup, s1);
    assert [] + setup == setup;
    states := PlayedRun(states, setup, kill, s2);
    actions := setup + kill;
  }

  /**
   * A Close between the two phases of DeleteL3 makes the detach skip the domains it had not reached, and the
   * delete still reports success: the anchor of such a domain outlives its graph.
   */
  lemma {:induction false} CloseCanStrandAnAnchor() returns (states: seq<State>, actions: seq<Action>)
    ensures Run(states, actions)
    ensures var s := states[|actions|];
            NoDeleteInFlight(s) && s.closed && !NoDanglingAnchor(s) && s.abandoned == {(DEFAULT_AGENT, 7)}
  {
    var list, wreck := [PoolRelease(2), Collect(2)], [Close, DetachSkip(2, DEFAULT_AGENT), DetachDone(2)];
    states, actions := FirstPhase();
    var s1 := states[|actions|];
    var s2 := s1.Become(2, Detaching(7, {DEFAULT_AGENT}));
    ListedDomains(s1, s2);
    var s3 := s2.(threads := map[], closed := true, abandoned := {(DEFAULT_AGENT, 7)});
    ClosedPhase(s2, s3);
    hide Plays;
    hide Run;
    states := PlayedRun(states, actions, list, s2);
    states := PlayedRun(states, actions + list, wreck, s3);
    actions := (actions + list) + wreck;
    assert (DEFAULT_AGENT, 5) in s3.scenes && Missing(s3, s3.scenes[(DEFAULT_AGENT, 5)]);
  }

  /**
   * A process that stops between the two phases of DeleteL3 does the same: the reopened file has an anchor whose graph is
   * gone, and a second DeleteL3 of that graph is refused, so nothing clears it.
   */
  lemma {:induction false} StopCanStrandAnAnchor() returns (states: seq<State>, actions: seq<Action>)
    ensures Run(states, actions)
    ensures var s := states[|actions|];
            NoDeleteInFlight(s) && !s.closed && !NoDanglingAnchor(s) && forall t: Tid :: !Enabled(s, PoolTombstone(t, 7))
  {
    states, actions := FirstPhase();
    var s1 := states[|actions|];
    var s2 := s1.(threads := map[], abandoned := {(DEFAULT_AGENT, 7)});
    Stopped(s1, s2);
    hide Plays;
    hide Run;
    states := PlayedRun(states, actions, [Stop], s2);
    actions := actions + [Stop];
    assert (DEFAULT_AGENT, 5) in s2.scenes && Missing(s2, s2.scenes[(DEFAULT_AGENT, 5)]);
  }

  lemma {:induction false} Stopped(s: State, s': State)
    requires s == State(map[(DEFAULT_AGENT, 5) := 7], {}, {DEFAULT_AGENT}, map[2 := Tombstoned(7)], false, {})
    requires s' == s.(threads := map[], abandoned := {(DEFAULT_AGENT, 7)})
    ensures Plays(s, [Stop], s')
  {
    assert 2 in s.threads && s.threads[2].Remaining(s.agents) == {DEFAULT_AGENT};
    assert (DEFAULT_AGENT, 7) in Unfinished(s);
    assert Unfinished(s) == {(DEFAULT_AGENT, 7)};
    assert Do(s, Stop) == s';
    PlaysOne(s, Stop, [], s');
  }

  lemma {:induction false} PlaysOne(s: State, a: Action, rest: seq<Action>, s': State)
    requires Enabled(s, a) && Plays(Do(s, a), rest, s')
    ensures Plays(s, [a] + rest, s')
  {
    assert ([a] + rest)[1..] == rest;
    hide Do;
    hide Enabled;
  }

  lemma {:induction false} AnchoredScene(s: State, s': State)
    requires s == State(map[], {7}, {DEFAULT_AGENT}, map[], false, {}) && s' == s.(scenes := map[(DEFAULT_AGENT, 5) := 7])
    ensures Plays(s, [Begin(1, DEFAULT_AGENT), Validate(1, 7), CreateScene(1, 5), End(1)], s')
  {
    var a, b := s.Become(1, Working(DEFAULT_AGENT, Nothing)), s.Become(1, Working(DEFAULT_AGENT, Validated(7)));
    SceneWritten(s', b);
    assert Do(s, Begin(1, DEFAULT_AGENT)) == a && Do(a, Validate(1, 7)) == b;
    hide Plays;
    PlaysOne(a, Validate(1, 7), [CreateScene(1, 5), End(1)], s');
    PlaysOne(s, Begin(1, DEFAULT_AGENT), [Validate(1, 7), CreateScene(1, 5), End(1)], s');
    assert [Begin(1, DEFAULT_AGENT)] + [Validate(1, 7), CreateScene(1, 5), End(1)] ==
           [Begin(1, DEFAULT_AGENT), Validate(1, 7), CreateScene(1, 5), End(1)];
    assert [Validate(1, 7)] + [CreateScene(1, 5), End(1)] == [Validate(1, 7), CreateScene(1, 5), End(1)];
  }

  lemma {:induction false} SceneWritten(s': State, b: State)
    requires s' == State(map[(DEFAULT_AGENT, 5) := 7], {7}, {DEFAULT_AGENT}, map[], false, {})
    requires b == s'.(scenes := map[]).Become(1, Working(DEFAULT_AGENT, Validated(7)))
    ensures Plays(b, [CreateScene(1, 5), End(1)], s')
  {
    var c := s'.Become(1, Working(DEFAULT_AGENT, Nothing));
    assert Do(b, CreateScene(1, 5)) == c;
    assert Do(c, End(1)) == s';
    PlaysOne(c, End(1), [], s');
    PlaysOne(b, CreateScene(1, 5), [End(1)], s');
  }

  lemma {:induction false} DeletedGraph(s: State, s': State)
    requires s == State(map[(DEFAULT_AGENT, 5) := 7], {7}, {DEFAULT_AGENT}, map[], false, {})
    requires s' == s.(graphs := {}).Become(2, Tombstoned(7))
    ensures Plays(s, [PoolLock(2), PoolTombstone(2, 7)], s')
  {
    var a := s.Become(2, InPool);
    assert Do(s, PoolLock(2)) == a;
    assert Do(a, PoolTombstone(2, 7)) == s';
    PlaysOne(a, PoolTombstone(2, 7), [], s');
    PlaysOne(s, PoolLock(2), [PoolTombstone(2, 7)], s');
  }

  lemma {:induction false} ListedDomains(s: State, s': State)
    requires s == State(map[(DEFAULT_AGENT, 5) := 7], {}, {DEFAULT_AGENT}, map[2 := Tombstoned(7)], false, {})
    requires s' == s.Become(2, Detaching(7, {DEFAULT_AGENT}))
    ensures Plays(s, [PoolRelease(2), Collect(2)], s')
  {
    var c := s.Become(2, Collecting(7));
    assert Do(s, PoolRelease(2)) == c;
    assert Do(c, Collect(2)) == s';
    PlaysOne(c, Collect(2), [], s');
    PlaysOne(s, PoolRelease(2), [Collect(2)], s');
  }

  lemma {:induction false} ClosedPhase(s: State, s': State)
    requires s == State(map[(DEFAULT_AGENT, 5) := 7], {}, {DEFAULT_AGENT}, map[2 := Detaching(7, {DEFAULT_AGENT})], false, {})
    requires s' == s.(threads := map[], closed := true, abandoned := {(DEFAULT_AGENT, 7)})
    ensures Plays(s, [Close, DetachSkip(2, DEFAULT_AGENT), DetachDone(2)], s')
  {
    var e := s.(closed := true);
    SkippedPhase(e, s');
    assert Do(s, Close) == e;
    hide Plays;
    PlaysOne(s, Close, [DetachSkip(2, DEFAULT_AGENT), DetachDone(2)], s');
    assert [Close] + [DetachSkip(2, DEFAULT_AGENT), DetachDone(2)] == [Close, DetachSkip(2, DEFAULT_AGENT), DetachDone(2)];
  }

  lemma {:induction false} SkippedPhase(e: State, s': State)
    requires e == State(map[(DEFAULT_AGENT, 5) := 7], {}, {DEFAULT_AGENT}, map[2 := Detaching(7, {DEFAULT_AGENT})], true, {})
    requires s' == e.(threads := map[], abandoned := {(DEFAULT_AGENT, 7)})
    ensures Plays(e, [DetachSkip(2, DEFAULT_AGENT), DetachDone(2)], s')
  {
    var f := s'.Become(2, Detaching(7, {}));
    assert {DEFAULT_AGENT} - {DEFAULT_AGENT} == {};
    assert Do(e, DetachSkip(2, DEFAULT_AGENT)) == f;
    assert Do(f, DetachDone(2)) == s';
    PlaysOne(f, DetachDone(2), [], s');
    PlaysOne(e, DetachSkip(2, DEFAULT_AGENT), [DetachDone(2)], s');
  }
}
