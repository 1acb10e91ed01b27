// What a call gets out of the lock protocol: who is let in, who is refused and why, and that nobody is sent back or
// refused for any other reason.
module LockCalls {
  import opened Common
  import opened Locks

  /** The default agent, the shared pool and every registered tenant. */
  predicate Admitted(s: State, agent: Agent)
  {
    agent == DEFAULT_AGENT || agent == SHARED_POOL || agent in s.registered
  }

  /** How far a call has come; a sweep on the way is one station. */
  function Rank(pc: Pc): nat
  {
    match pc
    case AtGate => 0
    case AtTable => 1
    case InTable => 2
    case Fetching => 3
    case Sweeping => 3
    case Reclaiming => 3
    case Dropped => 3
    case AtContext => 4
    case InContext => 5
    case FoundOpen => 6
    case Operating => 7
    case AtForget => 8
    case Forgetting => 9
  }

  /** The call is over: a host's goroutine is gone, a Dream's is at its cleanup. */
  predicate Ended(s: State, t: Tid) { t !in s.threads || s.threads[t].pc.AtForget? }

  /** A later state of the same call. */
  predicate Same(s: State, s': State, t: Tid)
  {
    t in s.threads && t in s'.threads && s'.threads[t].agent == s.threads[t].agent && s'.threads[t].job == s.threads[t].job
  }

  predicate Looks(pc: Pc) { pc.AtGate? || pc.InTable? || pc.InContext? }

  /** A call that looks is refused exactly on a closed database, or in the table for an agent that is not admitted. */
  predicate Refused(s: State, t: Tid)
    requires t in s.threads
  {
    var th := s.threads[t];
    Looks(th.pc) && (s.Closed() || (th.pc.InTable? && !Admitted(s, th.agent)))
  }

  /** One station further, another step of a sweep, or back to the gate because its context was reclaimed. */
  predicate Advances(s: State, a: Action, s': State, t: Tid)
    requires Same(s, s', t)
  {
    var was, now := s.threads[t].pc, s'.threads[t].pc;
    || Rank(now) == Rank(was) + 1
    || (Sweeps(a) && Rank(was) == 3 && Rank(now) == 3)
    || (now.AtGate? && was.FoundOpen? && s.threads[t].ctx in s.ctxs && s.ctxs[s.threads[t].ctx].reclaimed)
  }

  lemma {:induction false} OthersLeaveItAlone(s: State, a: Action, t: Tid)
    requires Enabled(s, a) && t in s.threads && Actor(a) != Some(Op(t))
    ensures t in Do(s, a).threads && Do(s, a).threads[t] == s.threads[t]
  {
  }

  /** A call's own step, before it operates: refused for one of the reasons there are, or on its way. */
  lemma {:induction false} OwnStep(s: State, a: Action, t: Tid)
    requires Enabled(s, a) && t in s.threads && Actor(a) == Some(Op(t)) && Rank(s.threads[t].pc) < 7
    ensures Ended(Do(s, a), t) <==> Refused(s, t)
    ensures !Ended(Do(s, a), t) ==> Same(s, Do(s, a), t) && Advances(s, a, Do(s, a), t)
  {
    if Sweeps(a) || Fetches(a) {
      OwnTableStep(s, a, t);
    }
  }

  lemma {:induction false} OwnTableStep(s: State, a: Action, t: Tid)
    requires Enabled(s, a) && t in s.threads && Actor(a) == Some(Op(t)) && (Sweeps(a) || Fetches(a))
    ensures !Ended(Do(s, a), t) && !Refused(s, t) && Same(s, Do(s, a), t) && Advances(s, a, Do(s, a), t)
  {
  }

  /** An operation ends by leaving, and by nothing else. */
  lemma {:induction false} OperationStep(s: State, a: Action, t: Tid)
    requires Enabled(s, a) && s.At(t, Operating)
    ensures Ended(Do(s, a), t) <==> a == Leave(t)
    ensures a != Leave(t) ==> t in Do(s, a).threads && Do(s, a).threads[t] == s.threads[t]
  {
  }

  /** Over every run: a call ends served, on a closed database, or because its agent was never registered. */
  lemma {:induction false} CallsEndForAReason(states: seq<State>, actions: seq<Action>, n: nat, t: Tid)
    requires Run(states, actions) && n < |actions| && t in states[n].threads && Rank(states[n].threads[t].pc) <= 7
    requires Ended(states[n + 1], t)
    ensures || (states[n].At(t, Operating) && actions[n] == Leave(t))
            || states[n].Closed()
            || !Admitted(states[n], states[n].threads[t].agent)
  {
    var s, a := states[n], actions[n];
    assert Enabled(s, a) && states[n + 1] == Do(s, a);
    hide Run;
    hide Do;
    hide Enabled;
    if s.At(t, Operating) {
      OperationStep(s, a, t);
    } else if Actor(a) == Some(Op(t)) {
      OwnStep(s, a, t);
    } else {
      OthersLeaveItAlone(s, a, t);
    }
  }

  /** Over every run: nobody operates on, or is handed, the context of an agent that is not registered. */
  lemma {:induction false} OnlyTheAdmittedGetIn(states: seq<State>, actions: seq<Action>, n: nat, t: Tid)
    requires Run(states, actions) && n <= |actions| && t in states[n].threads && 3 <= Rank(states[n].threads[t].pc) <= 7
    ensures Admitted(states[n], states[n].threads[t].agent)
  {
    if n > 0 {
      var s, a := states[n - 1], actions[n - 1];
      assert Enabled(s, a) && states[n] == Do(s, a);
      RegisteredStays(s, a);
      if t in s.threads && 3 <= Rank(s.threads[t].pc) <= 7 {
        OnlyTheAdmittedGetIn(states, actions, n - 1, t);
        hide Run;
        KeepsItsAgent(s, a, t);
      } else {
        hide Run;
        GetsIn(s, a, t);
      }
    }
  }

  lemma {:induction false} RegisteredStays(s: State, a: Action)
    requires Enabled(s, a)
    ensures s.registered <= Do(s, a).registered
  {
  }

  lemma {:induction false} KeepsItsAgent(s: State, a: Action, t: Tid)
    requires Enabled(s, a) && t in s.threads && t in Do(s, a).threads
    ensures Do(s, a).threads[t].agent == s.threads[t].agent
  {
  }

  lemma {:induction false} GetsIn(s: State, a: Action, t: Tid)
    requires Enabled(s, a) && t in Do(s, a).threads && 3 <= Rank(Do(s, a).threads[t].pc) <= 7
    requires t !in s.threads || !(3 <= Rank(s.threads[t].pc) <= 7)
    ensures Admitted(Do(s, a), Do(s, a).threads[t].agent)
  {
    RegisteredStays(s, a);
    if t in s.threads && Actor(a) == Some(Op(t)) && Rank(s.threads[t].pc) < 7 {
      OwnStep(s, a, t);
      hide Do;
      hide Enabled;
    } else {
      StaysOut(s, a, t);
    }
  }

  lemma {:induction false} StaysOut(s: State, a: Action, t: Tid)
    requires Enabled(s, a) && t in Do(s, a).threads
    requires t !in s.threads || Actor(a) != Some(Op(t)) || Rank(s.threads[t].pc) > 7
    requires t in s.threads ==> !(3 <= Rank(s.threads[t].pc) <= 7)
    ensures !(3 <= Rank(Do(s, a).threads[t].pc) <= 7)
  {
    if t in s.threads && Actor(a) != Some(Op(t)) {
      OthersLeaveItAlone(s, a, t);
      hide Do;
      hide Enabled;
    }
  }

  /**
   * While the database stays open every call for an admitted agent is served: step by step it only ever moves on, is
   * sent back only because its context was reclaimed, and ends only by leaving its critical section.
   */
  lemma {:induction false} OpenDatabasesServe(states: seq<State>, actions: seq<Action>, m: nat, n: nat, t: Tid)
    requires Run(states, actions) && m <= n < |actions|
    requires forall i :: m <= i <= n ==> states[i].closing.Open? && t in states[i].threads && Rank(states[i].threads[t].pc) <= 7
    requires Admitted(states[m], states[m].threads[t].agent)
    ensures Ended(states[n + 1], t) <==> states[n].At(t, Operating) && actions[n] == Leave(t)
    ensures !Ended(states[n + 1], t) ==>
              Same(states[n], states[n + 1], t) &&
              (states[n + 1].threads[t] == states[n].threads[t] || Advances(states[n], actions[n], states[n + 1], t))
  {
    StaysAdmitted(states, actions, m, n, t);
    var s, a := states[n], actions[n];
    assert Enabled(s, a) && states[n + 1] == Do(s, a);
    hide Run;
    hide Do;
    hide Enabled;
    hide Advances;
    if s.At(t, Operating) {
      OperationStep(s, a, t);
    } else if Actor(a) == Some(Op(t)) {
      OwnStep(s, a, t);
    } else {
      OthersLeaveItAlone(s, a, t);
    }
  }

  lemma {:induction false} StaysAdmitted(states: seq<State>, actions: seq<Action>, m: nat, n: nat, t: Tid)
    requires Run(states, actions) && m <= n < |actions|
    requires forall i :: m <= i <= n ==> t in states[i].threads
    requires Admitted(states[m], states[m].threads[t].agent)
    ensures Admitted(states[n], states[n].threads[t].agent)
  {
    hide Do;
    hide Enabled;
    hide Init;
    if n > m {
      StaysAdmitted(states, actions, m, n - 1, t);
      var s, a := states[n - 1], actions[n - 1];
      assert Enabled(s, a) && states[n] == Do(s, a) && t in s.threads && t in states[n].threads;
      hide Run;
      RegisteredStays(s, a);
      KeepsItsAgent(s, a, t);
    }
  }

  // ---- Close, sweeps and background Dreams ----

  function Stage(k: Closing): nat
  {
    match k
    case Open => 0
    case Flagged => 1
    case Snapshotting => 2
    case Barrier(_) => 3
    case Waiting(_, _) => 3
    case EngineClosed => 4
  }

  /** The barriers still to pass, a context held counting as one half. */
  function Barriers(k: Closing): nat
  {
    match k
    case Barrier(todo) => 2 * |todo|
    case Waiting(_, todo) => 2 * |todo| + 1
    case _ => 0
  }

  /**
   * Each step of Close brings it nearer its end: a stage further, or one barrier fewer. The barriers are the table's
   * contexts, and the engine closes when none is left. Nobody else moves it, but for the flag that starts it.
   */
  lemma {:induction false} CloseAdvances(s: State, a: Action)
    requires Enabled(s, a)
    ensures var k, k' := s.closing, Do(s, a).closing;
            if Actor(a) == Some(Closer) then
              && (Stage(k') == Stage(k) + 1 || (Stage(k') == Stage(k) == 3 && Barriers(k') < Barriers(k)))
              && (k'.EngineClosed? ==> Barriers(k) == 0)
              && (k.Snapshotting? ==> k' == Barrier(s.table.Values))
            else k' == k || (k.Open? && k'.Flagged?)
  {
  }

  /** A sweep reclaims exactly the idle contexts: one without a background Dream is marked, then off the table. */
  lemma {:induction false} SweepsReclaimTheIdle(s: State, t: Tid)
    requires Inv(s) && t in s.threads
    ensures s.At(t, Sweeping) && Enabled(s, SweepDecide(t)) ==>
              var s', c := Do(s, SweepDecide(t)), s.threads[t].ctx;
              c in s'.ctxs && (s'.ctxs[c].reclaimed <==> s.ctxs[c].inFlight == {})
    ensures s.At(t, Reclaiming) && Enabled(s, SweepDrop(t)) ==>
              var s', c := Do(s, SweepDrop(t)), s.threads[t].ctx;
              c in s'.ctxs && s'.ctxs[c].reclaimed && c !in s'.table.Values
  {
    hide Owners;
    hide Dreams;
    hide BarrierOk;
    assert ThreadOk(s, s.threads[t]);
  }

  /** A triggered Dream is in flight on the operation's context until its own goroutine says it is done. */
  lemma {:induction false} DreamsComeAndGo(s: State, a: Action, c: Cid, scene: nat)
    requires Inv(s) && Enabled(s, a) && c in s.ctxs && c in Do(s, a).ctxs
    ensures scene in Do(s, a).ctxs[c].inFlight <==>
            || (scene in s.ctxs[c].inFlight && !(a.Forget? && s.threads[a.t].job == Dream(c, scene)))
            || (a.Trigger? && s.threads[a.t].ctx == c && a.scene == scene)
  {
    if a.Forget? {
      assert DreamOk(s, s.threads[a.t]);
      assert s.threads[a.t].ctx == s.threads[a.t].job.origin;
    }
    hide Inv;
    hide DreamOk;
    if a.Trigger? || a.Forget? {
      DreamsTouched(s, a, c, scene);
    } else {
      DreamsUntouched(s, a, c);
    }
    hide Do;
    hide Enabled;
  }

  lemma {:induction false} DreamsTouched(s: State, a: Action, c: Cid, scene: nat)
    requires Enabled(s, a) && (a.Trigger? || a.Forget?) && c in s.ctxs && c in Do(s, a).ctxs
    requires a.Forget? ==> s.threads[a.t].ctx == s.threads[a.t].job.origin
    ensures scene in Do(s, a).ctxs[c].inFlight <==>
            || (scene in s.ctxs[c].inFlight && !(a.Forget? && s.threads[a.t].job == Dream(c, scene)))
            || (a.Trigger? && s.threads[a.t].ctx == c && a.scene == scene)
  {
  }

  /** The goroutine a trigger starts is the one for that scene of that context. */
  lemma {:induction false} TriggersStartTheirDream(s: State, a: Action)
    requires Enabled(s, a) && a.Trigger?
    ensures a.t2 !in s.threads && a.t2 in Do(s, a).threads && Do(s, a).threads[a.t2].pc == AtGate
    ensures Do(s, a).threads[a.t2].job == Dream(s.threads[a.t].ctx, a.scene)
  {
  }

  lemma {:induction false} DreamsUntouched(s: State, a: Action, c: Cid)
    requires Enabled(s, a) && !a.Trigger? && !a.Forget? && c in s.ctxs && c in Do(s, a).ctxs
    ensures Do(s, a).ctxs[c].inFlight == s.ctxs[c].inFlight
  {
  }
}
