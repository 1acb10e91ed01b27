// The domain-lock, idle-sweep, background-Dream and Close protocol of internal/db.go and internal/dream.go,
// as interleaved steps: each step is what one goroutine does between two points another one can observe.
module Locks {
  import opened Common

  type Tid = nat
  type Cid = nat
  type Agent = nat

  const DEFAULT_AGENT: Agent := 0
  const SHARED_POOL: Agent := 0x4C33_0000_0000_0000

  datatype Owner = Op(tid: Tid) | Closer

  /** domain.Context: its mutex (owner), its Reclaimed mark and the scenes with a background Dream. */
  datatype Context = Context(agent: Agent, reclaimed: bool, owner: Option<Owner>, inFlight: set<nat>)

  datatype Job = Host | Dream(origin: Cid, scene: nat)

  datatype Pc =
    | AtGate       // before contextFor's first look at closed
    | AtTable      // waiting for agentsMu
    | InTable      // agentsMu held, closed not looked at again yet
    | Fetching     // agentsMu held, open and registered; sweeping or done with it
    | Sweeping     // agentsMu and ctx.Mu held
    | Reclaiming   // ctx is marked and still in the table
    | Dropped      // ctx is out of the table and still locked
    | AtContext    // waiting for ctx.Mu
    | InContext    // ctx.Mu held, closed not looked at under it yet
    | FoundOpen    // ctx.Mu held, the reclaim mark not looked at yet
    | Operating    // the critical section
    | AtForget     // a Dream whose RunDream returned, waiting for its origin's lock
    | Forgetting   // ctx.Mu held, ctx being the origin

  /** ctx is the context the pc speaks of: the one being swept, the one contextFor handed out, or a Dream's origin. */
  datatype Thread = Thread(agent: Agent, job: Job, pc: Pc, ctx: Cid)
  {
    predicate HoldsContext() { pc.Sweeping? || pc.Reclaiming? || pc.Dropped? || HoldsGiven() || pc.Forgetting? }

    predicate HoldsGiven() { pc.InContext? || pc.FoundOpen? || pc.Operating? }

    predicate HoldsTable() { pc.InTable? || PastRecheck() }

    /** Inside agentsMu and past the second look at closed. */
    predicate PastRecheck() { pc.Fetching? || pc.Sweeping? || pc.Reclaiming? || pc.Dropped? }
  }

  /** Close: the flag, the snapshot of the table under agentsMu, one lock barrier per context, the engine. */
  datatype Closing = Open | Flagged | Snapshotting | Barrier(todo: set<Cid>) | Waiting(c: Cid, todo: set<Cid>) | EngineClosed

  datatype State = State(ctxs: map<Cid, Context>, table: map<Agent, Cid>, registered: set<Agent>,
                         tableOwner: Option<Owner>, threads: map<Tid, Thread>, closing: Closing)
  {
    predicate Closed() { !closing.Open? }

    predicate At(t: Tid, pc: Pc) { t in threads && threads[t].pc == pc }

    /** As At, at a pc that speaks of a context. */
    predicate On(t: Tid, pc: Pc) { At(t, pc) && threads[t].ctx in ctxs }

    function Move(t: Tid, pc: Pc): State
      requires t in threads
    {
      this.(threads := threads[t := threads[t].(pc := pc)])
    }

    function MoveTo(t: Tid, pc: Pc, c: Cid): State
      requires t in threads
    {
      this.(threads := threads[t := threads[t].(pc := pc, ctx := c)])
    }

    function Own(c: Cid, o: Option<Owner>): State
      requires c in ctxs
    {
      this.(ctxs := ctxs[c := ctxs[c].(owner := o)])
    }

    /** A refused or finished call: a host's goroutine is gone, a Dream goes on to its deferred cleanup. */
    function Finish(t: Tid): State
      requires t in threads
    {
      if threads[t].job.Host? then this.(threads := threads - {t}) else Move(t, AtForget)
    }
  }

  datatype Action =
    | Register(agent: Agent)
    | Start(t: Tid, agent: Agent)
    | Gate(t: Tid)
    | TakeTable(t: Tid)
    | Recheck(t: Tid)
    | SweepLock(t: Tid, c: Cid)
    | SweepDecide(t: Tid)
    | SweepDrop(t: Tid)
    | SweepUnlock(t: Tid)
    | Fetch(t: Tid)
    | Build(t: Tid, c: Cid)
    | TakeContext(t: Tid)
    | LookClosed(t: Tid)
    | LookReclaimed(t: Tid)
    | Trigger(t: Tid, scene: nat, t2: Tid)
    | Leave(t: Tid)
    | TakeForget(t: Tid)
    | Forget(t: Tid)
    | CloseFlag
    | CloseTake
    | CloseSnapshot
    | CloseLock(c: Cid)
    | CloseUnlock
    | CloseEngine

  predicate Exempt(a: Agent) { a == DEFAULT_AGENT || a == SHARED_POOL }

  /** Whether the step can be taken now. A mutex step needs its mutex free; TryLock is only ever a step that may not come. */
  predicate Enabled(s: State, a: Action)
  {
    match a
    case Register(_) => true
    case Start(t, _) => t !in s.threads
    case Gate(t) => s.At(t, AtGate)
    case TakeTable(t) => s.At(t, AtTable) && s.tableOwner.None?
    case Recheck(t) => s.At(t, InTable)
    case SweepLock(t, c) =>
      && s.At(t, Fetching) && c in s.ctxs && s.ctxs[c].owner.None? && !Exempt(s.ctxs[c].agent)
      && s.ctxs[c].agent in s.table && s.table[s.ctxs[c].agent] == c
    case SweepDecide(t) => s.On(t, Sweeping)
    case SweepDrop(t) => s.On(t, Reclaiming)
    case SweepUnlock(t) => s.On(t, Dropped)
    case Fetch(t) => s.At(t, Fetching) && s.threads[t].agent in s.table
    case Build(t, c) => s.At(t, Fetching) && s.threads[t].agent !in s.table && c !in s.ctxs
    case TakeContext(t) => s.On(t, AtContext) && s.ctxs[s.threads[t].ctx].owner.None?
    case LookClosed(t) => s.On(t, InContext)
    case LookReclaimed(t) => s.On(t, FoundOpen)
    case Trigger(t, scene, t2) => s.On(t, Operating) && scene !in s.ctxs[s.threads[t].ctx].inFlight && t2 !in s.threads
    case Leave(t) => s.On(t, Operating)
    case TakeForget(t) =>
      && s.At(t, AtForget) && s.threads[t].job.Dream? && s.threads[t].job.origin in s.ctxs
      && s.ctxs[s.threads[t].job.origin].owner.None?
    case Forget(t) => s.On(t, Forgetting) && s.threads[t].job.Dream?
    case CloseFlag => s.closing.Open?
    case CloseTake => s.closing.Flagged? && s.tableOwner.None?
    case CloseSnapshot => s.closing.Snapshotting?
    case CloseLock(c) => s.closing.Barrier? && c in s.closing.todo && c in s.ctxs && s.ctxs[c].owner.None?
    case CloseUnlock => s.closing.Waiting? && s.closing.c in s.ctxs
    case CloseEngine => s.closing.Barrier? && s.closing.todo == {}
  }

  function Do(s: State, a: Action): State
    requires Enabled(s, a)
  {
    match a
    case Register(agent) => s.(registered := s.registered + {agent})
    case Start(t, agent) => s.(threads := s.threads[t := Thread(agent, Host, AtGate, 0)])
    case Gate(t) => if s.Closed() then s.Finish(t) else s.Move(t, AtTable)
    case TakeTable(t) => s.Move(t, InTable).(tableOwner := Some(Op(t)))
    case Recheck(t) =>
      if s.Closed() || !(Exempt(s.threads[t].agent) || s.threads[t].agent in s.registered)
      then s.Finish(t).(tableOwner := None) else s.Move(t, Fetching)
    case SweepLock(t, c) => s.MoveTo(t, Sweeping, c).Own(c, Some(Op(t)))
    case SweepDecide(t) =>
      var c := s.threads[t].ctx;
      if s.ctxs[c].inFlight != {} then s.Move(t, Fetching).Own(c, None)
      else s.Move(t, Reclaiming).(ctxs := s.ctxs[c := s.ctxs[c].(reclaimed := true)])
    case SweepDrop(t) => s.Move(t, Dropped).(table := s.table - {s.ctxs[s.threads[t].ctx].agent})
    case SweepUnlock(t) => s.Move(t, Fetching).Own(s.threads[t].ctx, None)
    case Fetch(t) => s.MoveTo(t, AtContext, s.table[s.threads[t].agent]).(tableOwner := None)
    case Build(t, c) =>
      s.MoveTo(t, AtContext, c).(tableOwner := None, table := s.table[s.threads[t].agent := c],
                                 ctxs := s.ctxs[c := Context(s.threads[t].agent, false, None, {})])
    case TakeContext(t) => s.Move(t, InContext).Own(s.threads[t].ctx, Some(Op(t)))
    case LookClosed(t) => if s.Closed() then s.Finish(t).Own(s.threads[t].ctx, None) else s.Move(t, FoundOpen)
    case LookReclaimed(t) =>
      if s.ctxs[s.threads[t].ctx].reclaimed && s.threads[t].agent != SHARED_POOL
      then s.Move(t, AtGate).Own(s.threads[t].ctx, None) else s.Move(t, Operating)
    case Trigger(t, scene, t2) =>
      var c := s.threads[t].ctx;
      s.(ctxs := s.ctxs[c := s.ctxs[c].(inFlight := s.ctxs[c].inFlight + {scene})],
         threads := s.threads[t2 := Thread(s.ctxs[c].agent, Dream(c, scene), AtGate, c)])
    case Leave(t) => s.Finish(t).Own(s.threads[t].ctx, None)
    case TakeForget(t) => s.MoveTo(t, Forgetting, s.threads[t].job.origin).Own(s.threads[t].job.origin, Some(Op(t)))
    case Forget(t) =>
      var c := s.threads[t].ctx;
      s.(threads := s.threads - {t},
         ctxs := s.ctxs[c := s.ctxs[c].(owner := None, inFlight := s.ctxs[c].inFlight - {s.threads[t].job.scene})])
    case CloseFlag => s.(closing := Flagged)
    case CloseTake => s.(closing := Snapshotting, tableOwner := Some(Closer))
    case CloseSnapshot => s.(closing := Barrier(s.table.Values), tableOwner := None)
    case CloseLock(c) => s.Own(c, Some(Closer)).(closing := Waiting(c, s.closing.todo - {c}))
    case CloseUnlock => s.Own(s.closing.c, None).(closing := Barrier(s.closing.todo))
    case CloseEngine => s.(closing := EngineClosed)
  }

  // ---- What every step keeps ----

  ghost predicate HoldersOwn(s: State)
  {
    && (forall t :: t in s.threads && s.threads[t].HoldsContext() ==>
          s.threads[t].ctx in s.ctxs && s.ctxs[s.threads[t].ctx].owner == Some(Op(t)))
    && (s.closing.Waiting? ==> s.closing.c in s.ctxs && s.ctxs[s.closing.c].owner == Some(Closer))
    && Pending(s.closing) <= s.ctxs.Keys
  }

  ghost predicate OwnersHold(s: State)
  {
    && (forall c :: c in s.ctxs && s.ctxs[c].owner.Some? ==>
          if s.ctxs[c].owner.value.Op?
          then s.ctxs[c].owner.value.tid in s.threads && s.threads[s.ctxs[c].owner.value.tid].HoldsContext() &&
               s.threads[s.ctxs[c].owner.value.tid].ctx == c
          else s.closing.Waiting? && s.closing.c == c)
  }

  ghost predicate TableOwner(s: State)
  {
    && (forall t :: t in s.threads && s.threads[t].HoldsTable() ==> s.tableOwner == Some(Op(t)))
    && (s.tableOwner.Some? && s.tableOwner.value.Op? ==>
          s.tableOwner.value.tid in s.threads && s.threads[s.tableOwner.value.tid].HoldsTable())
    && (s.tableOwner == Some(Closer) <==> s.closing.Snapshotting?)
  }

  /** Unmarked contexts are exactly the table's, but for the moment between marking one and dropping it. */
  ghost predicate TableExact(s: State)
  {
    && (forall a :: a in s.table ==> s.table[a] in s.ctxs && s.ctxs[s.table[a]].agent == a)
    && (forall c :: c in s.ctxs && !s.ctxs[c].reclaimed ==> s.ctxs[c].agent in s.table && s.table[s.ctxs[c].agent] == c)
  }

  ghost predicate Marking(s: State)
  {
    forall c :: c in s.ctxs && s.ctxs[c].reclaimed && s.ctxs[c].agent in s.table && s.table[s.ctxs[c].agent] == c ==>
      && s.tableOwner.Some? && s.tableOwner.value.Op?
      && s.At(s.tableOwner.value.tid, Reclaiming) && s.threads[s.tableOwner.value.tid].ctx == c
  }

  ghost predicate ThreadOk(s: State, th: Thread)
  {
    && (th.pc.AtContext? || th.HoldsGiven() ==> th.ctx in s.ctxs && s.ctxs[th.ctx].agent == th.agent)
    && (th.pc.Operating? ==> !s.ctxs[th.ctx].reclaimed)
    && (th.pc.Sweeping? ==> th.ctx in s.ctxs && !s.ctxs[th.ctx].reclaimed && !Exempt(s.ctxs[th.ctx].agent))
    && (th.pc.Reclaiming? ==> th.ctx in s.ctxs && s.ctxs[th.ctx].reclaimed && s.ctxs[th.ctx].agent in s.table &&
                              s.table[s.ctxs[th.ctx].agent] == th.ctx)
  }

  /** A Dream's goroutine keeps its origin in flight and is only ever handed that same context. */
  ghost predicate DreamOk(s: State, th: Thread)
  {
    && (th.pc.AtForget? || th.pc.Forgetting? ==> th.job.Dream?)
    && (th.job.Dream? ==>
          && th.job.origin in s.ctxs && s.ctxs[th.job.origin].agent == th.agent
          && th.job.scene in s.ctxs[th.job.origin].inFlight
          && (th.pc.AtContext? || th.HoldsGiven() || th.pc.Forgetting? ==> th.ctx == th.job.origin))
  }

  ghost predicate ThreadsOk(s: State) { forall t :: t in s.threads ==> ThreadOk(s, s.threads[t]) }

  ghost predicate DreamsOk(s: State) { forall t :: t in s.threads ==> DreamOk(s, s.threads[t]) }

  ghost predicate MarksOk(s: State)
  {
    forall c :: c in s.ctxs && s.ctxs[c].reclaimed ==> s.ctxs[c].inFlight == {} && !Exempt(s.ctxs[c].agent)
  }

  /** One goroutine per scheduled Dream. */
  ghost predicate DreamsSingle(s: State)
  {
    forall t, u :: t in s.threads && u in s.threads && s.threads[t].job.Dream? && s.threads[t].job == s.threads[u].job ==> t == u
  }

  ghost predicate DreamsRun(s: State)
  {
    forall c, scene :: c in s.ctxs && scene in s.ctxs[c].inFlight ==>
      exists t :: t in s.threads && s.threads[t].job == Dream(c, scene)
  }

  predicate PastSnapshot(k: Closing) { k.Barrier? || k.Waiting? || k.EngineClosed? }

  function Pending(k: Closing): set<Cid>
  {
    match k
    case Barrier(todo) => todo
    case Waiting(_, todo) => todo
    case _ => {}
  }

  /** Once the table is snapshot, whoever may still operate does so on a context the barrier has yet to pass. */
  ghost predicate BarrierOk(s: State)
  {
    PastSnapshot(s.closing) ==>
      forall t :: t in s.threads ==>
        && !s.threads[t].PastRecheck()
        && (s.threads[t].pc.FoundOpen? || s.threads[t].pc.Operating? ==>
              s.threads[t].ctx in s.ctxs && (s.ctxs[s.threads[t].ctx].reclaimed || s.threads[t].ctx in Pending(s.closing)))
  }

  ghost predicate Owners(s: State) { HoldersOwn(s) && OwnersHold(s) && TableOwner(s) }

  ghost predicate Contexts(s: State) { TableExact(s) && Marking(s) && MarksOk(s) && ThreadsOk(s) }

  ghost predicate Dreams(s: State) { DreamsOk(s) && DreamsSingle(s) && DreamsRun(s) }

  ghost predicate Inv(s: State) { Owners(s) && Contexts(s) && Dreams(s) && BarrierOk(s) }

  predicate Init(s: State)
  {
    s.ctxs == map[] && s.table == map[] && s.tableOwner.None? && s.threads == map[] && s.closing.Open?
  }

  lemma {:induction false} InitInv(s: State)
    requires Init(s)
    ensures Inv(s)
  {
  }

  // The actions, by the part of the protocol they belong to: each invariant is kept part by part, out of the
  // conjuncts its lemmas name.

  predicate Arrives(a: Action) { a.Register? || a.Start? || a.Gate? || a.TakeTable? || a.Recheck? }

  predicate Sweeps(a: Action) { a.SweepLock? || a.SweepDecide? || a.SweepDrop? || a.SweepUnlock? }

  predicate Fetches(a: Action) { a.Fetch? || a.Build? || a.TakeContext? }

  predicate Enters(a: Action) { a.LookClosed? || a.LookReclaimed? }

  predicate Works(a: Action) { a.Trigger? || a.Leave? || a.TakeForget? || a.Forget? }

  predicate Closes(a: Action) { !Arrives(a) && !Sweeps(a) && !Fetches(a) && !Enters(a) && !Works(a) }

  // HoldersOwn: who holds a context lock owns its mutex.

  lemma {:induction false} HoldersOwnArrives(s: State, a: Action)
    requires Enabled(s, a) && Arrives(a) && HoldersOwn(s)
    ensures HoldersOwn(Do(s, a))
  {
  }

  lemma {:induction false} HoldersOwnSweeps(s: State, a: Action)
    requires Enabled(s, a) && Sweeps(a) && HoldersOwn(s)
    ensures HoldersOwn(Do(s, a))
  {
  }

  lemma {:induction false} HoldersOwnFetches(s: State, a: Action)
    requires Enabled(s, a) && Fetches(a) && HoldersOwn(s)
    ensures HoldersOwn(Do(s, a))
  {
  }

  lemma {:induction false} HoldersOwnEnters(s: State, a: Action)
    requires Enabled(s, a) && Enters(a) && HoldersOwn(s)
    ensures HoldersOwn(Do(s, a))
  {
  }

  lemma {:induction false} HoldersOwnWorks(s: State, a: Action)
    requires Enabled(s, a) && Works(a) && HoldersOwn(s)
    ensures HoldersOwn(Do(s, a))
  {
  }

  lemma {:induction false} HoldersOwnCloses(s: State, a: Action)
    requires Enabled(s, a) && Closes(a) && HoldersOwn(s) && TableExact(s)
    ensures HoldersOwn(Do(s, a))
  {
  }

  lemma {:induction false} KeepsHoldersOwn(s: State, a: Action)
    requires Enabled(s, a) && HoldersOwn(s) && TableExact(s)
    ensures HoldersOwn(Do(s, a))
  {
    if Arrives(a) {
      HoldersOwnArrives(s, a);
    } else if Sweeps(a) {
      HoldersOwnSweeps(s, a);
    } else if Fetches(a) {
      HoldersOwnFetches(s, a);
    } else if Enters(a) {
      HoldersOwnEnters(s, a);
    } else if Works(a) {
      HoldersOwnWorks(s, a);
    } else {
      HoldersOwnCloses(s, a);
    }
  }

  // OwnersHold: who owns a context's mutex holds it.

  lemma {:induction false} OwnersHoldArrives(s: State, a: Action)
    requires Enabled(s, a) && Arrives(a) && OwnersHold(s)
    ensures OwnersHold(Do(s, a))
  {
  }

  lemma {:induction false} OwnersHoldSweeps(s: State, a: Action)
    requires Enabled(s, a) && Sweeps(a) && OwnersHold(s)
    ensures OwnersHold(Do(s, a))
  {
  }

  lemma {:induction false} OwnersHoldFetches(s: State, a: Action)
    requires Enabled(s, a) && Fetches(a) && OwnersHold(s)
    ensures OwnersHold(Do(s, a))
  {
  }

  lemma {:induction false} OwnersHoldEnters(s: State, a: Action)
    requires Enabled(s, a) && Enters(a) && OwnersHold(s)
    ensures OwnersHold(Do(s, a))
  {
  }

  lemma {:induction false} OwnersHoldWorks(s: State, a: Action)
    requires Enabled(s, a) && Works(a) && OwnersHold(s)
    ensures OwnersHold(Do(s, a))
  {
  }

  lemma {:induction false} OwnersHoldCloses(s: State, a: Action)
    requires Enabled(s, a) && Closes(a) && OwnersHold(s)
    ensures OwnersHold(Do(s, a))
  {
  }

  lemma {:induction false} KeepsOwnersHold(s: State, a: Action)
    requires Enabled(s, a) && OwnersHold(s)
    ensures OwnersHold(Do(s, a))
  {
    if Arrives(a) {
      OwnersHoldArrives(s, a);
    } else if Sweeps(a) {
      OwnersHoldSweeps(s, a);
    } else if Fetches(a) {
      OwnersHoldFetches(s, a);
    } else if Enters(a) {
      OwnersHoldEnters(s, a);
    } else if Works(a) {
      OwnersHoldWorks(s, a);
    } else {
      OwnersHoldCloses(s, a);
    }
  }

  // TableOwner: the same of agentsMu.

  lemma {:induction false} TableOwnerArrives(s: State, a: Action)
    requires Enabled(s, a) && Arrives(a) && TableOwner(s)
    ensures TableOwner(Do(s, a))
  {
  }

  lemma {:induction false} TableOwnerSweeps(s: State, a: Action)
    requires Enabled(s, a) && Sweeps(a) && TableOwner(s)
    ensures TableOwner(Do(s, a))
  {
  }

  lemma {:induction false} TableOwnerFetches(s: State, a: Action)
    requires Enabled(s, a) && Fetches(a) && TableOwner(s)
    ensures TableOwner(Do(s, a))
  {
  }

  lemma {:induction false} TableOwnerEnters(s: State, a: Action)
    requires Enabled(s, a) && Enters(a) && TableOwner(s)
    ensures TableOwner(Do(s, a))
  {
  }

  lemma {:induction false} TableOwnerWorks(s: State, a: Action)
    requires Enabled(s, a) && Works(a) && TableOwner(s)
    ensures TableOwner(Do(s, a))
  {
  }

  lemma {:induction false} TableOwnerCloses(s: State, a: Action)
    requires Enabled(s, a) && Closes(a) && TableOwner(s)
    ensures TableOwner(Do(s, a))
  {
  }

  lemma {:induction false} KeepsTableOwner(s: State, a: Action)
    requires Enabled(s, a) && TableOwner(s)
    ensures TableOwner(Do(s, a))
  {
    if Arrives(a) {
      TableOwnerArrives(s, a);
    } else if Sweeps(a) {
      TableOwnerSweeps(s, a);
    } else if Fetches(a) {
      TableOwnerFetches(s, a);
    } else if Enters(a) {
      TableOwnerEnters(s, a);
    } else if Works(a) {
      TableOwnerWorks(s, a);
    } else {
      TableOwnerCloses(s, a);
    }
  }

  // TableExact: the table and the unmarked contexts.

  lemma {:induction false} TableExactArrives(s: State, a: Action)
    requires Enabled(s, a) && Arrives(a) && TableExact(s)
    ensures TableExact(Do(s, a))
  {
  }

  lemma {:induction false} TableExactSweeps(s: State, a: Action)
    requires Enabled(s, a) && Sweeps(a) && TableExact(s) && ThreadsOk(s)
    ensures TableExact(Do(s, a))
  {
  }

  lemma {:induction false} TableExactFetches(s: State, a: Action)
    requires Enabled(s, a) && Fetches(a) && TableExact(s)
    ensures TableExact(Do(s, a))
  {
  }

  lemma {:induction false} TableExactEnters(s: State, a: Action)
    requires Enabled(s, a) && Enters(a) && TableExact(s)
    ensures TableExact(Do(s, a))
  {
  }

  lemma {:induction false} TableExactWorks(s: State, a: Action)
    requires Enabled(s, a) && Works(a) && TableExact(s)
    ensures TableExact(Do(s, a))
  {
  }

  lemma {:induction false} TableExactCloses(s: State, a: Action)
    requires Enabled(s, a) && Closes(a) && TableExact(s)
    ensures TableExact(Do(s, a))
  {
  }

  lemma {:induction false} KeepsTableExact(s: State, a: Action)
    requires Enabled(s, a) && TableExact(s) && ThreadsOk(s)
    ensures TableExact(Do(s, a))
  {
    if Arrives(a) {
      TableExactArrives(s, a);
    } else if Sweeps(a) {
      TableExactSweeps(s, a);
    } else if Fetches(a) {
      TableExactFetches(s, a);
    } else if Enters(a) {
      TableExactEnters(s, a);
    } else if Works(a) {
      TableExactWorks(s, a);
    } else {
      TableExactCloses(s, a);
    }
  }

  // Marking: only the owner of agentsMu marks.

  lemma {:induction false} MarkingArrives(s: State, a: Action)
    requires Enabled(s, a) && Arrives(a) && Marking(s) && TableOwner(s)
    ensures Marking(Do(s, a))
  {
  }

  lemma {:induction false} MarkingSweeps(s: State, a: Action)
    requires Enabled(s, a) && Sweeps(a) && Marking(s) && TableOwner(s)
    ensures Marking(Do(s, a))
  {
  }

  lemma {:induction false} MarkingFetches(s: State, a: Action)
    requires Enabled(s, a) && Fetches(a) && Marking(s) && TableOwner(s)
    ensures Marking(Do(s, a))
  {
  }

  lemma {:induction false} MarkingEnters(s: State, a: Action)
    requires Enabled(s, a) && Enters(a) && Marking(s) && TableOwner(s)
    ensures Marking(Do(s, a))
  {
  }

  lemma {:induction false} MarkingWorks(s: State, a: Action)
    requires Enabled(s, a) && Works(a) && Marking(s) && TableOwner(s)
    ensures Marking(Do(s, a))
  {
  }

  lemma {:induction false} MarkingCloses(s: State, a: Action)
    requires Enabled(s, a) && Closes(a) && Marking(s) && TableOwner(s)
    ensures Marking(Do(s, a))
  {
  }

  lemma {:induction false} KeepsMarking(s: State, a: Action)
    requires Enabled(s, a) && Marking(s) && TableOwner(s)
    ensures Marking(Do(s, a))
  {
    if Arrives(a) {
      MarkingArrives(s, a);
    } else if Sweeps(a) {
      MarkingSweeps(s, a);
    } else if Fetches(a) {
      MarkingFetches(s, a);
    } else if Enters(a) {
      MarkingEnters(s, a);
    } else if Works(a) {
      MarkingWorks(s, a);
    } else {
      MarkingCloses(s, a);
    }
  }

  // MarksOk: no marked context is exempt or has a Dream.

  lemma {:induction false} MarksOkArrivesSweeps(s: State, a: Action)
    requires Enabled(s, a) && (Arrives(a) || Sweeps(a)) && MarksOk(s) && ThreadsOk(s)
    ensures MarksOk(Do(s, a))
  {
  }

  lemma {:induction false} MarksOkFetchesEnters(s: State, a: Action)
    requires Enabled(s, a) && (Fetches(a) || Enters(a)) && MarksOk(s)
    ensures MarksOk(Do(s, a))
  {
  }

  lemma {:induction false} MarksOkWorks(s: State, a: Action)
    requires Enabled(s, a) && Works(a) && MarksOk(s) && ThreadsOk(s)
    ensures MarksOk(Do(s, a))
  {
  }

  lemma {:induction false} MarksOkCloses(s: State, a: Action)
    requires Enabled(s, a) && Closes(a) && MarksOk(s)
    ensures MarksOk(Do(s, a))
  {
  }

  lemma {:induction false} KeepsMarksOk(s: State, a: Action)
    requires Enabled(s, a) && MarksOk(s) && ThreadsOk(s)
    ensures MarksOk(Do(s, a))
  {
    if Arrives(a) || Sweeps(a) {
      MarksOkArrivesSweeps(s, a);
    } else if Fetches(a) || Enters(a) {
      MarksOkFetchesEnters(s, a);
    } else if Works(a) {
      MarksOkWorks(s, a);
    } else {
      MarksOkCloses(s, a);
    }
  }

  // ThreadsOk: what a goroutine knows of its context.

  lemma {:induction false} ThreadsOkArrives(s: State, a: Action)
    requires Enabled(s, a) && Arrives(a) && ThreadsOk(s)
    ensures ThreadsOk(Do(s, a))
  {
  }

  lemma {:induction false} ThreadsOkSweepLock(s: State, a: Action)
    requires Enabled(s, a) && (a.SweepLock? || a.SweepUnlock?) && ThreadsOk(s) && HoldersOwn(s) && Marking(s) && TableExact(s)
    ensures ThreadsOk(Do(s, a))
  {
  }

  lemma {:induction false} ThreadsOkSweeps(s: State, a: Action)
    requires Enabled(s, a) && Sweeps(a) && ThreadsOk(s) && HoldersOwn(s) && Marking(s) && TableExact(s)
    ensures ThreadsOk(Do(s, a))
  {
    if a.SweepLock? || a.SweepUnlock? {
      ThreadsOkSweepLock(s, a);
    }
  }

  lemma {:induction false} ThreadsOkFetches(s: State, a: Action)
    requires Enabled(s, a) && Fetches(a) && ThreadsOk(s) && Marking(s) && TableExact(s) && TableOwner(s)
    ensures ThreadsOk(Do(s, a))
  {
  }

  lemma {:induction false} ThreadsOkEnters(s: State, a: Action)
    requires Enabled(s, a) && Enters(a) && ThreadsOk(s) && MarksOk(s)
    ensures ThreadsOk(Do(s, a))
  {
  }

  lemma {:induction false} ThreadsOkWorks(s: State, a: Action)
    requires Enabled(s, a) && Works(a) && ThreadsOk(s)
    ensures ThreadsOk(Do(s, a))
  {
  }

  lemma {:induction false} ThreadsOkCloses(s: State, a: Action)
    requires Enabled(s, a) && Closes(a) && ThreadsOk(s)
    ensures ThreadsOk(Do(s, a))
  {
  }

  lemma {:induction false} KeepsThreadsOk(s: State, a: Action)
    requires Enabled(s, a) && ThreadsOk(s) && HoldersOwn(s) && Marking(s) && MarksOk(s) && TableExact(s) && TableOwner(s)
    ensures ThreadsOk(Do(s, a))
  {
    if Arrives(a) {
      ThreadsOkArrives(s, a);
    } else if Sweeps(a) {
      ThreadsOkSweeps(s, a);
    } else if Fetches(a) {
      ThreadsOkFetches(s, a);
    } else if Enters(a) {
      ThreadsOkEnters(s, a);
    } else if Works(a) {
      ThreadsOkWorks(s, a);
    } else {
      ThreadsOkCloses(s, a);
    }
  }

  // DreamsOk: what a Dream knows of its origin.

  lemma {:induction false} DreamsOkArrives(s: State, a: Action)
    requires Enabled(s, a) && Arrives(a) && DreamsOk(s)
    ensures DreamsOk(Do(s, a))
  {
  }

  lemma {:induction false} DreamsOkSweeps(s: State, a: Action)
    requires Enabled(s, a) && Sweeps(a) && DreamsOk(s)
    ensures DreamsOk(Do(s, a))
  {
  }

  lemma {:induction false} DreamsOkFetches(s: State, a: Action)
    requires Enabled(s, a) && Fetches(a) && DreamsOk(s) && MarksOk(s) && TableExact(s)
    ensures DreamsOk(Do(s, a))
  {
  }

  lemma {:induction false} DreamsOkEnters(s: State, a: Action)
    requires Enabled(s, a) && Enters(a) && DreamsOk(s)
    ensures DreamsOk(Do(s, a))
  {
  }

  lemma {:induction false} DreamsOkWorks(s: State, a: Action)
    requires Enabled(s, a) && Works(a) && DreamsOk(s) && DreamsSingle(s)
    ensures DreamsOk(Do(s, a))
  {
  }

  lemma {:induction false} DreamsOkCloses(s: State, a: Action)
    requires Enabled(s, a) && Closes(a) && DreamsOk(s)
    ensures DreamsOk(Do(s, a))
  {
  }

  lemma {:induction false} KeepsDreamsOk(s: State, a: Action)
    requires Enabled(s, a) && DreamsOk(s) && DreamsSingle(s) && MarksOk(s) && TableExact(s)
    ensures DreamsOk(Do(s, a))
  {
    if Arrives(a) {
      DreamsOkArrives(s, a);
    } else if Sweeps(a) {
      DreamsOkSweeps(s, a);
    } else if Fetches(a) {
      DreamsOkFetches(s, a);
    } else if Enters(a) {
      DreamsOkEnters(s, a);
    } else if Works(a) {
      DreamsOkWorks(s, a);
    } else {
      DreamsOkCloses(s, a);
    }
  }

  // DreamsSingle: one goroutine per Dream.

  lemma {:induction false} DreamsSingleArrivesSweeps(s: State, a: Action)
    requires Enabled(s, a) && (Arrives(a) || Sweeps(a)) && DreamsSingle(s)
    ensures DreamsSingle(Do(s, a))
  {
  }

  lemma {:induction false} DreamsSingleFetchesEnters(s: State, a: Action)
    requires Enabled(s, a) && (Fetches(a) || Enters(a)) && DreamsSingle(s)
    ensures DreamsSingle(Do(s, a))
  {
  }

  lemma {:induction false} DreamsSingleWorksCloses(s: State, a: Action)
    requires Enabled(s, a) && (Works(a) || Closes(a)) && DreamsSingle(s) && DreamsOk(s)
    ensures DreamsSingle(Do(s, a))
  {
  }

  lemma {:induction false} KeepsDreamsSingle(s: State, a: Action)
    requires Enabled(s, a) && DreamsSingle(s) && DreamsOk(s)
    ensures DreamsSingle(Do(s, a))
  {
    if Arrives(a) || Sweeps(a) {
      DreamsSingleArrivesSweeps(s, a);
    } else if Fetches(a) || Enters(a) {
      DreamsSingleFetchesEnters(s, a);
    } else {
      DreamsSingleWorksCloses(s, a);
    }
  }

  // BarrierOk: who may still operate once Close has its snapshot.

  lemma {:induction false} BarrierOkArrivesSweeps(s: State, a: Action)
    requires Enabled(s, a) && (Arrives(a) || Sweeps(a)) && BarrierOk(s)
    ensures BarrierOk(Do(s, a))
  {
  }

  lemma {:induction false} BarrierOkFetches(s: State, a: Action)
    requires Enabled(s, a) && Fetches(a) && BarrierOk(s)
    ensures BarrierOk(Do(s, a))
  {
  }

  lemma {:induction false} BarrierOkEnters(s: State, a: Action)
    requires Enabled(s, a) && Enters(a) && BarrierOk(s)
    ensures BarrierOk(Do(s, a))
  {
  }

  lemma {:induction false} BarrierOkWorks(s: State, a: Action)
    requires Enabled(s, a) && Works(a) && BarrierOk(s)
    ensures BarrierOk(Do(s, a))
  {
  }

  lemma {:induction false} BarrierOkCloses(s: State, a: Action)
    requires Enabled(s, a) && Closes(a) && BarrierOk(s) && HoldersOwn(s) && TableExact(s) && TableOwner(s)
    ensures BarrierOk(Do(s, a))
  {
  }

  lemma {:induction false} KeepsBarrierOk(s: State, a: Action)
    requires Enabled(s, a) && BarrierOk(s) && HoldersOwn(s) && TableExact(s) && TableOwner(s)
    ensures BarrierOk(Do(s, a))
  {
    if Arrives(a) || Sweeps(a) {
      BarrierOkArrivesSweeps(s, a);
    } else if Fetches(a) {
      BarrierOkFetches(s, a);
    } else if Enters(a) {
      BarrierOkEnters(s, a);
    } else if Works(a) {
      BarrierOkWorks(s, a);
    } else {
      BarrierOkCloses(s, a);
    }
  }

  // DreamsRun: every scheduled Dream has its goroutine.

  lemma {:induction false} DreamsRunWorks(s: State, a: Action)
    requires Enabled(s, a) && Works(a) && DreamsRun(s) && DreamsOk(s)
    ensures DreamsRun(Do(s, a))
  {
    var s' := Do(s, a);
    forall c, scene | c in s'.ctxs && scene in s'.ctxs[c].inFlight
      ensures exists t :: t in s'.threads && s'.threads[t].job == Dream(c, scene)
    {
      if a.Trigger? && s.threads[a.t].ctx == c && a.scene == scene {
        assert s'.threads[a.t2].job == Dream(c, scene);
      } else {
        var t :| t in s.threads && s.threads[t].job == Dream(c, scene);
        assert t in s'.threads && s'.threads[t].job == Dream(c, scene);
      }
    }
  }

  lemma {:induction false} DreamsRunElse(s: State, a: Action)
    requires Enabled(s, a) && !Works(a) && DreamsRun(s)
    ensures DreamsRun(Do(s, a))
  {
    var s' := Do(s, a);
    forall c, scene | c in s'.ctxs && scene in s'.ctxs[c].inFlight
      ensures exists t :: t in s'.threads && s'.threads[t].job == Dream(c, scene)
    {
      var t :| t in s.threads && s.threads[t].job == Dream(c, scene);
      assert t in s'.threads && s'.threads[t].job == Dream(c, scene);
    }
  }

  lemma {:induction false} KeepsDreamsRun(s: State, a: Action)
    requires Enabled(s, a) && DreamsRun(s) && DreamsOk(s)
    ensures DreamsRun(Do(s, a))
  {
    if Works(a) {
      DreamsRunWorks(s, a);
    } else {
      DreamsRunElse(s, a);
    }
  }

  /** Every step of every goroutine keeps the invariant. */
  lemma {:induction false} StepKeepsInv(s: State, a: Action)
    requires Inv(s) && Enabled(s, a)
    ensures Inv(Do(s, a))
  {
    KeepsHoldersOwn(s, a);
    KeepsOwnersHold(s, a);
    KeepsTableOwner(s, a);
    KeepsTableExact(s, a);
    KeepsMarking(s, a);
    KeepsMarksOk(s, a);
    KeepsThreadsOk(s, a);
    KeepsDreamsOk(s, a);
    KeepsDreamsSingle(s, a);
    KeepsBarrierOk(s, a);
    KeepsDreamsRun(s, a);
  }

  // ---- What holds in every reachable state ----

  /** No operation runs on a reclaimed context, or on one that is not its domain's, or on a closed engine. */
  ghost predicate OperationsSafe(s: State)
  {
    forall t :: s.At(t, Operating) ==>
      && s.threads[t].ctx in s.ctxs && !s.ctxs[s.threads[t].ctx].reclaimed
      && s.ctxs[s.threads[t].ctx].owner == Some(Op(t))
      && s.threads[t].agent in s.table && s.table[s.threads[t].agent] == s.threads[t].ctx
      && !s.closing.EngineClosed?
  }

  ghost predicate MutualExclusion(s: State)
  {
    forall t, u :: s.At(t, Operating) && s.At(u, Operating) && s.threads[t].agent == s.threads[u].agent ==> t == u
  }

  /** A context with a Dream in flight is live, and that Dream operates on it and nowhere else. */
  ghost predicate DreamsSafe(s: State)
  {
    && (forall c :: c in s.ctxs && s.ctxs[c].inFlight != {} ==>
          !s.ctxs[c].reclaimed && s.ctxs[c].agent in s.table && s.table[s.ctxs[c].agent] == c)
    && (forall t :: s.At(t, Operating) && s.threads[t].job.Dream? ==> s.threads[t].ctx == s.threads[t].job.origin)
  }

  /** A context is built from the records only while the engine is open and nobody operates on that domain. */
  ghost predicate BuildsSafe(s: State)
  {
    forall t, c :: Enabled(s, Build(t, c)) ==>
      !s.closing.EngineClosed? && forall u :: s.At(u, Operating) ==> s.threads[u].agent != s.threads[t].agent
  }

  ghost predicate Safe(s: State) { OperationsSafe(s) && MutualExclusion(s) && DreamsSafe(s) && BuildsSafe(s) }

  lemma {:induction false} OperationsAreSafe(s: State)
    requires Inv(s)
    ensures OperationsSafe(s) && MutualExclusion(s)
  {
    hide OwnersHold;
    hide TableOwner;
    hide Marking;
    hide MarksOk;
    hide Dreams;
    forall t | s.At(t, Operating)
      ensures s.ctxs[s.threads[t].ctx].owner == Some(Op(t))
    {
      assert s.threads[t].HoldsContext();
    }
  }

  lemma {:induction false} DreamsAreSafe(s: State)
    requires Inv(s)
    ensures DreamsSafe(s)
  {
    hide Owners;
    hide Marking;
    hide BarrierOk;
  }

  lemma {:induction false} BuildsAreSafe(s: State)
    requires Inv(s)
    ensures BuildsSafe(s)
  {
    OperationsAreSafe(s);
    hide HoldersOwn;
    hide OwnersHold;
    hide TableExact;
    hide Marking;
    hide Dreams;
  }

  ghost predicate Run(states: seq<State>, actions: seq<Action>)
  {
    && |states| == |actions| + 1 && Init(states[0])
    && forall i :: 0 <= i < |actions| ==> Enabled(states[i], actions[i]) && states[i + 1] == Do(states[i], actions[i])
  }

  lemma {:induction false} RunKeepsInv(states: seq<State>, actions: seq<Action>, n: nat)
    requires Run(states, actions) && n <= |actions|
    ensures Inv(states[n])
  {
    hide Inv;
    hide Do;
    hide Enabled;
    if n == 0 {
      InitInv(states[0]);
    } else {
      RunKeepsInv(states, actions, n - 1);
      StepKeepsInv(states[n - 1], actions[n - 1]);
    }
  }

  /** The protocol is safe in every state of every interleaving. */
  lemma {:induction false} EveryInterleavingIsSafe(states: seq<State>, actions: seq<Action>, n: nat)
    requires Run(states, actions) && n <= |actions|
    ensures Safe(states[n])
  {
    RunKeepsInv(states, actions, n);
    hide Inv;
    hide Run;
    OperationsAreSafe(states[n]);
    DreamsAreSafe(states[n]);
    BuildsAreSafe(states[n]);
  }

  lemma {:induction false} StaysClosed(s: State, a: Action)
    requires Enabled(s, a) && s.closing.EngineClosed?
    ensures Do(s, a).closing.EngineClosed?
  {
  }

  /** Once the engine is closed no later state has an operation in its critical section. */
  lemma {:induction false} ClosedForGood(states: seq<State>, actions: seq<Action>, n: nat, m: nat)
    requires Run(states, actions) && n <= m <= |actions| && states[n].closing.EngineClosed?
    ensures states[m].closing.EngineClosed? && forall t :: !states[m].At(t, Operating)
  {
    if m > n {
      ClosedForGood(states, actions, n, m - 1);
      StaysClosed(states[m - 1], actions[m - 1]);
    }
    hide Run;
    EveryInterleavingIsSafe(states, actions, m);
  }

  // ---- No deadlock: whoever holds a lock can go on ----

  /** Who takes the step: a goroutine already running, or Close; None for a new arrival. */
  function Actor(a: Action): Option<Owner>
  {
    match a
    case Register(_) => None
    case Start(_, _) => None
    case CloseFlag => None
    case CloseTake => Some(Closer)
    case CloseSnapshot => Some(Closer)
    case CloseLock(_) => Some(Closer)
    case CloseUnlock => Some(Closer)
    case CloseEngine => Some(Closer)
    case _ => Some(Op(a.t))
  }

  ghost predicate CanStep(s: State, o: Owner) { exists a :: Enabled(s, a) && Actor(a) == Some(o) }

  lemma {:induction false} FreshContext(ctxs: map<Cid, Context>) returns (c: Cid)
    ensures c !in ctxs
  {
    c := AboveAll(ctxs.Keys);
    if c in ctxs.Keys {
      assert false;
    }
  }

  lemma {:induction false} AboveAll(cs: set<nat>) returns (n: nat)
    ensures forall c :: c in cs ==> c < n
    decreases |cs|
  {
    if cs == {} {
      n := 0;
    } else {
      var c :| c in cs;
      var m := AboveAll(cs - {c});
      n := if m > c then m else c + 1;
      assert forall x :: x in cs ==> x == c || x in cs - {c};
    }
  }

  predicate Waits(pc: Pc) { pc.AtTable? || pc.AtContext? || pc.AtForget? }

  lemma {:induction false} RunnableSteps(s: State, t: Tid)
    requires Inv(s) && t in s.threads && !Waits(s.threads[t].pc)
    ensures CanStep(s, Op(t))
  {
    var th := s.threads[t];
    var a := Gate(t);
    match th.pc {
      case InTable => a := Recheck(t);
      case Fetching =>
        if th.agent in s.table {
          a := Fetch(t);
        } else {
          var c := FreshContext(s.ctxs);
          a := Build(t, c);
        }
      case Sweeping => a := SweepDecide(t);
      case Reclaiming => a := SweepDrop(t);
      case Dropped => a := SweepUnlock(t);
      case InContext => a := LookClosed(t);
      case FoundOpen => a := LookReclaimed(t);
      case Operating => a := Leave(t);
      case Forgetting => a := Forget(t);
      case _ =>
    }
    assert Enabled(s, a) && Actor(a) == Some(Op(t));
  }

  /** The owner of any mutex can take its next step: no lock is held by somebody who waits for another one. */
  lemma {:induction false} OwnersCanStep(s: State, o: Owner)
    requires Inv(s)
    requires s.tableOwner == Some(o) || exists c :: c in s.ctxs && s.ctxs[c].owner == Some(o)
    ensures CanStep(s, o)
  {
    match o
    case Op(t) => RunnableSteps(s, t);
    case Closer =>
      if s.closing.Snapshotting? {
        assert Enabled(s, CloseSnapshot) && Actor(CloseSnapshot) == Some(Closer);
      } else {
        assert Enabled(s, CloseUnlock) && Actor(CloseUnlock) == Some(Closer);
      }
  }

  /** The mutex a goroutine waits for, by its owner; None when it is free. */
  function Blocker(s: State, th: Thread): Option<Owner>
    requires th.pc.AtContext? ==> th.ctx in s.ctxs
    requires th.pc.AtForget? ==> th.job.Dream? && th.job.origin in s.ctxs
  {
    match th.pc
    case AtTable => s.tableOwner
    case AtContext => s.ctxs[th.ctx].owner
    case AtForget => s.ctxs[th.job.origin].owner
    case _ => None
  }

  /** Deadlock freedom: every goroutine can step itself, or waits for a mutex whose owner can. */
  lemma {:induction false} NobodyIsStuck(s: State, t: Tid)
    requires Inv(s) && t in s.threads
    ensures var th := s.threads[t];
            && (th.pc.AtContext? ==> th.ctx in s.ctxs) && (th.pc.AtForget? ==> th.job.Dream? && th.job.origin in s.ctxs)
            && if Blocker(s, th).None? then CanStep(s, Op(t)) else CanStep(s, Blocker(s, th).value)
  {
    var th := s.threads[t];
    assert ThreadOk(s, th) && DreamOk(s, th);
    if Blocker(s, th).Some? {
      OwnersCanStep(s, Blocker(s, th).value);
    } else if Waits(th.pc) {
      var a := if th.pc.AtTable? then TakeTable(t) else if th.pc.AtContext? then TakeContext(t) else TakeForget(t);
      assert Enabled(s, a) && Actor(a) == Some(Op(t));
    } else {
      RunnableSteps(s, t);
    }
  }

  /** Close itself: at every stage it can step, or waits for a mutex whose owner can. */
  lemma {:induction false} CloseIsNotStuck(s: State)
    requires Inv(s) && s.Closed() && !s.closing.EngineClosed?
    ensures CanStep(s, Closer)
      || (s.closing.Flagged? && s.tableOwner.Some? && CanStep(s, s.tableOwner.value))
      || (s.closing.Barrier? && forall c :: c in s.closing.todo ==>
            c in s.ctxs && s.ctxs[c].owner.Some? && CanStep(s, s.ctxs[c].owner.value))
  {
    match s.closing {
      case Flagged =>
        if s.tableOwner.Some? {
          OwnersCanStep(s, s.tableOwner.value);
        } else {
          assert Enabled(s, CloseTake) && Actor(CloseTake) == Some(Closer);
        }
      case Snapshotting => OwnersCanStep(s, Closer);
      case Waiting(c, _) => OwnersCanStep(s, Closer);
      case Barrier(todo) =>
        if todo == {} {
          assert Enabled(s, CloseEngine) && Actor(CloseEngine) == Some(Closer);
        } else if c :| c in todo && s.ctxs[c].owner.None? {
          assert Enabled(s, CloseLock(c)) && Actor(CloseLock(c)) == Some(Closer);
        } else {
          forall c | c in todo
            ensures c in s.ctxs && s.ctxs[c].owner.Some? && CanStep(s, s.ctxs[c].owner.value)
          {
            OwnersCanStep(s, s.ctxs[c].owner.value);
          }
        }
    }
  }

  // ---- lockAgent's retry loop ----

  /** lockAgent finds its context reclaimed under the lock and fetches again. */
  predicate Retry(s: State, a: Action, t: Tid)
  {
    a == LookReclaimed(t) && s.On(t, FoundOpen) && s.ctxs[s.threads[t].ctx].reclaimed && s.threads[t].agent != SHARED_POOL
  }

  /** A sweep reclaims a context of this agent. */
  predicate Reclaim(s: State, a: Action, agent: Agent)
  {
    a.SweepDecide? && s.On(a.t, Sweeping) && s.ctxs[s.threads[a.t].ctx].inFlight == {} && s.ctxs[s.threads[a.t].ctx].agent == agent
  }

  /** t was handed a context that has been reclaimed since. */
  predicate HandedReclaimed(s: State, t: Tid)
  {
    t in s.threads && (s.threads[t].pc.AtContext? || s.threads[t].HoldsGiven()) && s.threads[t].ctx in s.ctxs &&
    s.ctxs[s.threads[t].ctx].reclaimed
  }

  function Count(b: bool): (c: nat)
    ensures c <= 1 && (c == 1 <==> b)
  {
    if b then 1 else 0
  }

  /** The steps from m on, before n, at which t goes round again. */
  ghost function Retries(states: seq<State>, actions: seq<Action>, t: Tid, m: nat, n: nat): set<nat>
    requires n <= |actions| < |states|
  {
    set i: nat | m <= i < n && Retry(states[i], actions[i], t)
  }

  /** Those at which a sweep reclaims a context of this agent. */
  ghost function Reclaims(states: seq<State>, actions: seq<Action>, agent: Agent, m: nat, n: nat): set<nat>
    requires n <= |actions| < |states|
  {
    set i: nat | m <= i < n && Reclaim(states[i], actions[i], agent)
  }

  lemma {:induction false} OneStepMore(states: seq<State>, actions: seq<Action>, t: Tid, agent: Agent, m: nat, n: nat)
    requires m < n <= |actions| < |states|
    ensures |Retries(states, actions, t, m, n)| == |Retries(states, actions, t, m, n - 1)| + Count(Retry(states[n - 1], actions[n - 1], t))
    ensures |Reclaims(states, actions, agent, m, n)| ==
            |Reclaims(states, actions, agent, m, n - 1)| + Count(Reclaim(states[n - 1], actions[n - 1], agent))
  {
    hide Retry;
    hide Reclaim;
    var one := {n - 1};
    var a, b := Retries(states, actions, t, m, n - 1), Reclaims(states, actions, agent, m, n - 1);
    assert Retries(states, actions, t, m, n) == if Retry(states[n - 1], actions[n - 1], t) then a + one else a;
    assert Reclaims(states, actions, agent, m, n) == if Reclaim(states[n - 1], actions[n - 1], agent) then b + one else b;
  }

  ghost predicate RetryPaid(s: State, a: Action, t: Tid)
    requires Enabled(s, a) && t in s.threads
  {
    Count(Retry(s, a, t)) + Count(HandedReclaimed(Do(s, a), t)) <=
    Count(HandedReclaimed(s, t)) + Count(Reclaim(s, a, s.threads[t].agent))
  }

  lemma {:induction false} RetryPaidEarly(s: State, a: Action, t: Tid)
    requires Enabled(s, a) && t in s.threads && ThreadOk(s, s.threads[t]) && (Arrives(a) || Sweeps(a))
    ensures RetryPaid(s, a, t)
  {
  }

  lemma {:induction false} RetryPaidEntry(s: State, a: Action, t: Tid)
    requires Enabled(s, a) && t in s.threads && ThreadOk(s, s.threads[t]) && (Fetches(a) || Enters(a))
    requires a.Fetch? ==> s.table[s.threads[a.t].agent] in s.ctxs && !s.ctxs[s.table[s.threads[a.t].agent]].reclaimed
    ensures RetryPaid(s, a, t)
  {
  }

  lemma {:induction false} RetryPaidWorking(s: State, a: Action, t: Tid)
    requires Enabled(s, a) && t in s.threads && ThreadOk(s, s.threads[t]) && Works(a)
    ensures RetryPaid(s, a, t)
  {
  }

  lemma {:induction false} RetryPaidClosing(s: State, a: Action, t: Tid)
    requires Enabled(s, a) && t in s.threads && ThreadOk(s, s.threads[t]) && Closes(a)
    ensures RetryPaid(s, a, t)
  {
  }

  lemma {:induction false} RetryStep(s: State, a: Action, t: Tid)
    requires Inv(s) && Enabled(s, a) && t in s.threads
    ensures RetryPaid(s, a, t)
  {
    assert ThreadOk(s, s.threads[t]);
    if a.Fetch? {
      HandsOutLive(s, a.t);
    }
    hide Inv;
    hide ThreadOk;
    hide RetryPaid;
    if Arrives(a) || Sweeps(a) {
      RetryPaidEarly(s, a, t);
    } else if Fetches(a) || Enters(a) {
      RetryPaidEntry(s, a, t);
    } else if Works(a) {
      RetryPaidWorking(s, a, t);
    } else {
      RetryPaidClosing(s, a, t);
    }
  }

  lemma {:induction false} HandsOutLive(s: State, t: Tid)
    requires Inv(s) && Enabled(s, Fetch(t))
    ensures s.table[s.threads[t].agent] in s.ctxs && !s.ctxs[s.table[s.threads[t].agent]].reclaimed
  {
    hide HoldersOwn;
    hide OwnersHold;
    hide MarksOk;
    hide ThreadsOk;
    hide Dreams;
    hide BarrierOk;
  }

  /**
   * Between any two points of a run at which a call is still on its way, it has gone round the retry loop at most as
   * often as sweeps reclaimed contexts of its agent, and once more if it came in holding a reclaimed one: handing
   * out a context never costs a retry by itself.
   */
  lemma {:induction false} RetriesNeedReclaims(states: seq<State>, actions: seq<Action>, t: Tid, agent: Agent, m: nat, n: nat)
    requires Run(states, actions) && m <= n <= |actions|
    requires forall i :: m <= i <= n ==> t in states[i].threads && states[i].threads[t].agent == agent
    ensures |Retries(states, actions, t, m, n)| + Count(HandedReclaimed(states[n], t)) <=
            |Reclaims(states, actions, agent, m, n)| + Count(HandedReclaimed(states[m], t))
    decreases n
  {
    hide Inv;
    hide Do;
    hide Enabled;
    hide Retry;
    hide Reclaim;
    hide HandedReclaimed;
    hide Init;
    if m < n {
      RetriesNeedReclaims(states, actions, t, agent, m, n - 1);
      RunKeepsInv(states, actions, n - 1);
      assert t in states[n - 1].threads && t in states[n].threads;
      RetryStep(states[n - 1], actions[n - 1], t);
      OneStepMore(states, actions, t, agent, m, n);
    }
  }
}
