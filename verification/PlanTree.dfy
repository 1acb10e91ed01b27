// One turn's plan tree as it is read: internal/plan/tree.go and the read side of internal/domain/plancache.go.
module PlanTrees {
  import opened Common

  datatype Status = InProgress | Done | Failed
  {
    predicate Terminal() { Done? || Failed? }
  }

  datatype Step = Step(ord: nat, parent: nat, title: string, status: Status, summary: string, folded: bool,
                       createdAt: int, finishedAt: int, updatedAt: int)

  /** The cached steps: ordinals ascending from 1, and every parent ordinal smaller than its child's. */
  ghost predicate Ordered(ns: seq<Step>)
  {
    && (forall i, j :: 0 <= i < j < |ns| ==> ns[i].ord < ns[j].ord)
    && (forall i :: 0 <= i < |ns| ==> ns[i].parent < ns[i].ord)
  }

  // ---- Positions ----

  /** The members of a set below n, ascending. */
  ghost function Pick(n: nat, s: set<nat>): (ps: seq<nat>)
    ensures |ps| <= n
  {
    if n == 0 then [] else Pick(n - 1, s) + (if n - 1 in s then [n - 1] else [])
  }

  lemma {:induction false} PickIn(n: nat, s: set<nat>)
    ensures forall p :: p in Pick(n, s) <==> p in s && p < n
  {
    if n > 0 {
      PickIn(n - 1, s);
    }
  }

  lemma {:induction false} PickAscends(n: nat, s: set<nat>)
    ensures forall j, k :: 0 <= j < k < |Pick(n, s)| ==> Pick(n, s)[j] < Pick(n, s)[k]
  {
    if n > 0 {
      PickAscends(n - 1, s);
      PickIn(n - 1, s);
      var front := Pick(n - 1, s);
      assert forall j :: 0 <= j < |front| ==> front[j] in front;
    }
  }

  lemma {:induction false} PickNext(n: nat, s: set<nat>)
    ensures Pick(n + 1, s) == if n in s then Pick(n, s) + [n] else Pick(n, s)
  {
  }

  ghost function KidSet(ns: seq<Step>, ord: nat): set<nat> { set i | 0 <= i < |ns| && ns[i].parent == ord }

  /** The steps with no parent among the steps. */
  ghost function RootSet(ns: seq<Step>): set<nat> { set i | 0 <= i < |ns| && !HasOrd(ns, ns[i].parent) }

  ghost predicate HasOrd(ns: seq<Step>, ord: nat) { exists i :: 0 <= i < |ns| && ns[i].ord == ord }

  function Kids(kids: map<nat, seq<nat>>, ord: nat): seq<nat> { if ord in kids then kids[ord] else [] }

  /** What Forest's linking leaves: each live step's children, and the roots, in the order they were planned. */
  ghost predicate Linked(ns: seq<Step>, kids: map<nat, seq<nat>>, roots: seq<nat>, n: nat)
  {
    && (forall i :: 0 <= i < |ns| ==> Kids(kids, ns[i].ord) == Pick(n, KidSet(ns, ns[i].ord)))
    && roots == Pick(n, RootSet(ns))
  }

  /** Forest: a first pass over the ordinals, a second that hangs each step under its parent or among the roots. */
  method Link(ns: seq<Step>) returns (kids: map<nat, seq<nat>>, roots: seq<nat>)
    requires Ordered(ns)
    ensures Linked(ns, kids, roots, |ns|)
  {
    var live := set i | 0 <= i < |ns| :: ns[i].ord;
    kids, roots := map[], [];
    for i := 0 to |ns|
      invariant Linked(ns, kids, roots, i)
    {
      var p := ns[i].parent;
      LinkNext(ns, kids, roots, i);
      if p != 0 && p in live {
        kids := kids[p := Kids(kids, p) + [i]];
      } else {
        roots := roots + [i];
      }
    }
  }

  lemma {:induction false} LinkNext(ns: seq<Step>, kids: map<nat, seq<nat>>, roots: seq<nat>, i: nat)
    requires Ordered(ns) && i < |ns| && Linked(ns, kids, roots, i)
    ensures var p := ns[i].parent;
            if HasOrd(ns, p) then p != 0 && Linked(ns, kids[p := Kids(kids, p) + [i]], roots, i + 1)
            else Linked(ns, kids, roots + [i], i + 1)
  {
    hide Pick;
    var p := ns[i].parent;
    PickNext(i, RootSet(ns));
    forall k | 0 <= k < |ns|
      ensures Pick(i + 1, KidSet(ns, ns[k].ord)) ==
              if ns[k].ord == p then Pick(i, KidSet(ns, ns[k].ord)) + [i] else Pick(i, KidSet(ns, ns[k].ord))
    {
      PickNext(i, KidSet(ns, ns[k].ord));
    }
    assert HasOrd(ns, p) ==> p != 0;
    hide Ordered;
    hide KidSet;
    hide RootSet;
  }

  // ---- Trees ----

  datatype Tree = Tree(step: Step, kids: seq<Tree>)

  /** ToNodeView over the linked steps. */
  ghost function Grow(ns: seq<Step>, i: nat): Tree
    requires Ordered(ns) && i < |ns|
    decreases |ns| - i, |ns| + 1
  {
    Tree(ns[i], GrowAll(ns, i, Pick(|ns|, KidSet(ns, ns[i].ord))))
  }

  /** The trees of positions all behind lo. */
  ghost function GrowAll(ns: seq<Step>, lo: int, ps: seq<nat>): (ts: seq<Tree>)
    requires Ordered(ns) && -1 <= lo < |ns| && |ps| <= |ns|
    ensures |ts| <= |ps|
    decreases |ns| - lo, |ps|
  {
    if ps == [] then []
    else if lo < ps[0] < |ns| then [Grow(ns, ps[0])] + GrowAll(ns, lo, ps[1..])
    else GrowAll(ns, lo, ps[1..])
  }

  ghost function Trees(ns: seq<Step>): seq<Tree>
    requires Ordered(ns)
  {
    GrowAll(ns, -1, Pick(|ns|, RootSet(ns)))
  }

  function Preorder(t: Tree): seq<Step> { [t.step] + PreorderAll(t.kids) }

  function PreorderAll(ts: seq<Tree>): seq<Step>
  {
    if ts == [] then [] else Preorder(ts[0]) + PreorderAll(ts[1..])
  }

  /** The bound matters only for termination. */
  lemma {:induction false} BoundIrrelevant(ns: seq<Step>, lo: int, ps: seq<nat>)
    requires Ordered(ns) && -1 <= lo < |ns| && |ps| <= |ns| && forall p :: p in ps ==> lo < p < |ns|
    ensures GrowAll(ns, lo, ps) == GrowAll(ns, -1, ps)
    decreases |ps|
  {
    if ps != [] {
      assert ps[0] in ps && forall p :: p in ps[1..] ==> p in ps;
      BoundIrrelevant(ns, lo, ps[1..]);
    }
  }

  /** Any additive measure of a list of steps: how often one step occurs, how many are done, how many there are. */
  function Weigh(w: Step -> nat, xs: seq<Step>): nat
  {
    if xs == [] then 0 else w(xs[0]) + Weigh(w, xs[1..])
  }

  lemma {:induction false} WeighSplit(w: Step -> nat, a: seq<Step>, b: seq<Step>)
    ensures Weigh(w, a + b) == Weigh(w, a) + Weigh(w, b)
  {
    if a == [] {
      assert a + b == b;
    } else {
      WeighSplit(w, a[1..], b);
      assert (a + b)[1..] == a[1..] + b;
    }
  }

  /** The measure of the trees at some positions. */
  ghost function Weight(w: Step -> nat, ns: seq<Step>, ps: seq<nat>): nat
    requires Ordered(ns) && |ps| <= |ns|
  {
    Weigh(w, PreorderAll(GrowAll(ns, -1, ps)))
  }

  lemma {:induction false} WeightCons(w: Step -> nat, ns: seq<Step>, ps: seq<nat>)
    requires Ordered(ns) && 0 < |ps| <= |ns| && ps[0] < |ns|
    ensures Weight(w, ns, ps) == Weigh(w, Preorder(Grow(ns, ps[0]))) + Weight(w, ns, ps[1..])
  {
    hide Preorder;
    var rest := GrowAll(ns, -1, ps[1..]);
    assert ([Grow(ns, ps[0])] + rest)[1..] == rest;
    WeighSplit(w, Preorder(Grow(ns, ps[0])), PreorderAll(rest));
  }

  lemma {:induction false} WeightSnoc(w: Step -> nat, ns: seq<Step>, ps: seq<nat>, p: nat)
    requires Ordered(ns) && |ps| + 1 <= |ns| && p < |ns| && forall q :: q in ps ==> q < |ns|
    ensures Weight(w, ns, ps + [p]) == Weight(w, ns, ps) + Weigh(w, Preorder(Grow(ns, p)))
    decreases |ps|
  {
    if ps == [] {
      assert [] + [p] == [p] && [p][1..] == [];
      WeightCons(w, ns, [p]);
      assert GrowAll(ns, -1, []) == [];
    } else {
      hide Weight;
      assert ps[0] in ps && forall q :: q in ps[1..] ==> q in ps;
      WeightSnoc(w, ns, ps[1..], p);
      assert (ps + [p])[1..] == ps[1..] + [p] && (ps + [p])[0] == ps[0];
      WeightCons(w, ns, ps);
      WeightCons(w, ns, ps + [p]);
    }
  }

  /** Splitting the positions splits the measure. */
  lemma {:induction false} WeightOfUnion(w: Step -> nat, ns: seq<Step>, n: nat, a: set<nat>, b: set<nat>)
    requires Ordered(ns) && n <= |ns| && a !! b
    ensures Weight(w, ns, Pick(n, a + b)) == Weight(w, ns, Pick(n, a)) + Weight(w, ns, Pick(n, b))
  {
    hide Ordered;
    if n == 0 {
      assert Pick(0, a + b) == Pick(0, a) == Pick(0, b) == [];
      assert Weight(w, ns, []) == 0;
    } else {
      WeightOfUnion(w, ns, n - 1, a, b);
      WeightNext(w, ns, n - 1, a);
      WeightNext(w, ns, n - 1, b);
      WeightNext(w, ns, n - 1, a + b);
      hide Weight;
      hide Pick;
      hide Weigh;
      hide Preorder;
      hide Grow;
    }
  }

  lemma {:induction false} WeightNext(w: Step -> nat, ns: seq<Step>, n: nat, s: set<nat>)
    requires Ordered(ns) && n < |ns|
    ensures Weight(w, ns, Pick(n + 1, s)) == Weight(w, ns, Pick(n, s)) + if n in s then Weigh(w, Preorder(Grow(ns, n))) else 0
  {
    PickNext(n, s);
    PickIn(n, s);
    hide Weight;
    hide Pick;
    if n in s {
      WeightSnoc(w, ns, Pick(n, s), n);
    }
  }

  // ---- Each step exactly once ----

  /** The positions from k on whose parent is none of them: the roots of the plan if it began at k. */
  ghost function TopSet(ns: seq<Step>, k: nat): set<nat> { set i | k <= i < |ns| && !HasOrdFrom(ns, k, ns[i].parent) }

  ghost predicate HasOrdFrom(ns: seq<Step>, k: nat, ord: nat) { exists i :: k <= i < |ns| && ns[i].ord == ord }

  /** Step k takes the tops that name it under itself and stands among the others. */
  lemma {:induction false} TopsBelow(ns: seq<Step>, k: nat)
    requires Ordered(ns) && k < |ns|
    ensures var kids, others := KidSet(ns, ns[k].ord), TopSet(ns, k) - {k};
            TopSet(ns, k + 1) == kids + others && kids !! others && k in TopSet(ns, k) && k !in others
            && (forall i :: i in kids ==> k < i < |ns|)
  {
    var kids, others := KidSet(ns, ns[k].ord), TopSet(ns, k) - {k};
    forall i | 0 <= i < |ns|
      ensures i in TopSet(ns, k + 1) <==> i in kids + others
      ensures i in kids ==> k < i && i !in others
    {
      assert HasOrdFrom(ns, k, ns[i].parent) <==> HasOrdFrom(ns, k + 1, ns[i].parent) || ns[k].ord == ns[i].parent;
      if i in kids {
        assert k < i;
        assert !HasOrdFrom(ns, k + 1, ns[i].parent);
      }
    }
    assert k in TopSet(ns, k);
  }

  /** From any step on, the trees weigh what the steps from there on weigh. */
  lemma {:induction false} TopsHoldAll(w: Step -> nat, ns: seq<Step>, k: nat)
    requires Ordered(ns) && k <= |ns|
    ensures Weight(w, ns, Pick(|ns|, TopSet(ns, k))) == Weigh(w, ns[k..])
    decreases |ns| - k
  {
    if k == |ns| {
      assert TopSet(ns, k) == {};
      PickNothing(|ns|);
      assert ns[k..] == [];
    } else {
      TopsHoldAll(w, ns, k + 1);
      TopsBelow(ns, k);
      var kids, others := KidSet(ns, ns[k].ord), TopSet(ns, k) - {k};
      assert TopSet(ns, k) == {k} + others;
      assert ns[k..][1..] == ns[k + 1..];
      hide Weight;
      hide Pick;
      hide TopSet;
      hide KidSet;
      WeightOfUnion(w, ns, |ns|, kids, others);
      WeightOfUnion(w, ns, |ns|, {k}, others);
      PickOne(|ns|, k);
      OneTree(w, ns, k);
    }
  }

  lemma {:induction false} PickNothing(n: nat)
    ensures Pick(n, {}) == []
  {
    if n > 0 {
      PickNothing(n - 1);
    }
  }

  lemma {:induction false} PickOne(n: nat, k: nat)
    requires k < n
    ensures Pick(n, {k}) == [k]
  {
    if n == k + 1 {
      PickNone(k, {k});
    } else {
      PickOne(n - 1, k);
    }
  }

  lemma {:induction false} PickNone(n: nat, s: set<nat>)
    requires forall x :: x in s ==> x >= n
    ensures Pick(n, s) == []
  {
    if n > 0 {
      PickNone(n - 1, s);
    }
  }

  lemma {:induction false} OneTree(w: Step -> nat, ns: seq<Step>, k: nat)
    requires Ordered(ns) && k < |ns| && forall i :: i in KidSet(ns, ns[k].ord) ==> k < i < |ns|
    ensures Weight(w, ns, [k]) == w(ns[k]) + Weight(w, ns, Pick(|ns|, KidSet(ns, ns[k].ord)))
  {
    var ps := Pick(|ns|, KidSet(ns, ns[k].ord));
    PickIn(|ns|, KidSet(ns, ns[k].ord));
    BoundIrrelevant(ns, k, ps);
    WeightCons(w, ns, [k]);
    assert [k][1..] == [] && GrowAll(ns, -1, []) == [];
    var below := PreorderAll(GrowAll(ns, -1, ps));
    assert Preorder(Grow(ns, k)) == [ns[k]] + below;
    assert ([ns[k]] + below)[1..] == below;
  }

  /** Every measure of the trees is that measure of the steps, whatever parents the sweep has taken. */
  lemma {:induction false} TreesWeighAsSteps(w: Step -> nat, ns: seq<Step>)
    requires Ordered(ns)
    ensures Weigh(w, PreorderAll(Trees(ns))) == Weigh(w, ns)
  {
    TopsHoldAll(w, ns, 0);
    assert ns[0..] == ns;
    forall i | 0 <= i < |ns|
      ensures HasOrdFrom(ns, 0, ns[i].parent) <==> HasOrd(ns, ns[i].parent)
    {
    }
    assert TopSet(ns, 0) == RootSet(ns);
  }

  lemma {:induction false} WeighsOccurrences(xs: seq<Step>, x: Step)
    ensures Weigh((y: Step) => if y == x then 1 else 0, xs) == multiset(xs)[x]
  {
    if xs != [] {
      WeighsOccurrences(xs[1..], x);
      assert xs == [xs[0]] + xs[1..];
    }
  }

  /** PlanState lists every step exactly once. */
  lemma {:induction false} TreesHoldEachStepOnce(ns: seq<Step>)
    requires Ordered(ns)
    ensures multiset(PreorderAll(Trees(ns))) == multiset(ns)
  {
    forall x
      ensures multiset(PreorderAll(Trees(ns)))[x] == multiset(ns)[x]
    {
      TreesWeighAsSteps((y: Step) => if y == x then 1 else 0, ns);
      WeighsOccurrences(ns, x);
      WeighsOccurrences(PreorderAll(Trees(ns)), x);
    }
  }

  // ---- Counts ----

  function CountTree(t: Tree): (nat, nat)
  {
    var (d, n) := CountForest(t.kids);
    (d + (if t.step.status.Done? then 1 else 0), n + 1)
  }

  /** CountForest: done and total over every node of every tree. */
  function CountForest(ts: seq<Tree>): (nat, nat)
  {
    if ts == [] then (0, 0)
    else
      var (d, n) := CountTree(ts[0]);
      var (e, m) := CountForest(ts[1..]);
      (d + e, n + m)
  }

  function IsDone(x: Step): nat { if x.status.Done? then 1 else 0 }

  function One(x: Step): nat { 1 }

  lemma {:induction false} CountsWeigh(ts: seq<Tree>)
    ensures CountForest(ts) == (Weigh(IsDone, PreorderAll(ts)), Weigh(One, PreorderAll(ts)))
  {
    if ts != [] {
      CountsWeigh(ts[0].kids);
      CountsWeigh(ts[1..]);
      var t := ts[0];
      WeighSplit(IsDone, Preorder(t), PreorderAll(ts[1..]));
      WeighSplit(One, Preorder(t), PreorderAll(ts[1..]));
      assert Preorder(t)[1..] == PreorderAll(t.kids);
    }
  }

  lemma {:induction false} OnesAreLength(xs: seq<Step>)
    ensures Weigh(One, xs) == |xs|
  {
    if xs != [] {
      OnesAreLength(xs[1..]);
    }
  }

  /** PlanState's counts are the flat counts. */
  lemma {:induction false} CountsAreFlat(ns: seq<Step>)
    requires Ordered(ns)
    ensures CountForest(Trees(ns)) == (Weigh(IsDone, ns), |ns|)
  {
    CountsWeigh(Trees(ns));
    TreesWeighAsSteps(IsDone, ns);
    TreesWeighAsSteps(One, ns);
    OnesAreLength(ns);
  }

  // ---- The active view ----

  /** activeNodes: settled steps drop out, and what is active below them hangs on the nearest active ancestor. */
  function Active(ts: seq<Tree>, parent: nat): seq<Tree>
  {
    if ts == [] then []
    else
      var t := ts[0];
      (if t.step.status.InProgress? then [Tree(t.step.(parent := parent), Active(t.kids, t.step.ord))]
       else Active(t.kids, parent)) + Active(ts[1..], parent)
  }

  // ---- ToNodeView's titles ----

  function Decimal(n: nat): string
  {
    var digit := [(n % 10) as char + '0'];
    if n < 10 then digit else Decimal(n / 10) + digit
  }

  predicate Digits(s: string) { forall i :: 0 <= i < |s| ==> '0' <= s[i] <= '9' }

  /** The number a string of digits reads as. */
  function Value(s: string): nat
    requires Digits(s)
  {
    if s == [] then 0 else Value(s[..|s| - 1]) * 10 + (s[|s| - 1] - '0') as nat
  }

  /** An ordinal is written in digits that read back as it, with no zero in front of others. */
  lemma {:induction false} DecimalReads(n: nat)
    ensures Decimal(n) != "" && Digits(Decimal(n)) && Value(Decimal(n)) == n
    ensures n > 0 ==> Decimal(n)[0] != '0'
  {
    var digit := [(n % 10) as char + '0'];
    if n < 10 {
      assert digit[..0] == "";
    } else {
      DecimalReads(n / 10);
      assert Decimal(n)[..|Decimal(n)| - 1] == Decimal(n / 10);
    }
  }

  /** No step is shown without a title; a title it has is kept, and the rest of the step with it. */
  lemma {:induction false} TitlesShow(x: Step)
    ensures x.title != "" ==> Titled(x) == x
    ensures x.title == "" ==> Titled(x) == x.(title := Titled(x).title) && Digits(Titled(x).title) && Value(Titled(x).title) == x.ord
    ensures Titled(x).title != ""
  {
    DecimalReads(x.ord);
  }

  /** A step without a title is shown under its ordinal. */
  function Titled(x: Step): Step { if x.title == "" then x.(title := Decimal(x.ord)) else x }

  function TitledSteps(xs: seq<Step>): seq<Step>
  {
    if xs == [] then [] else [Titled(xs[0])] + TitledSteps(xs[1..])
  }

  function TitledTrees(ts: seq<Tree>): seq<Tree>
  {
    if ts == [] then [] else [Tree(Titled(ts[0].step), TitledTrees(ts[0].kids))] + TitledTrees(ts[1..])
  }

  lemma {:induction false} TitledSplit(a: seq<Step>, b: seq<Step>)
    ensures TitledSteps(a + b) == TitledSteps(a) + TitledSteps(b)
  {
    if a == [] {
      assert a + b == b;
    } else {
      assert (a + b)[1..] == a[1..] + b;
      TitledSplit(a[1..], b);
    }
  }

  lemma {:induction false} TitledTreesSplit(a: seq<Tree>, b: seq<Tree>)
    ensures TitledTrees(a + b) == TitledTrees(a) + TitledTrees(b)
    decreases |a|
  {
    if a == [] {
      assert a + b == b;
    } else {
      assert (a + b)[1..] == a[1..] + b;
      TitledTreesSplit(a[1..], b);
    }
  }

  /** Titling changes no listing and no count but for the titles. */
  lemma {:induction false} TitlesKeepTheListing(ts: seq<Tree>)
    ensures PreorderAll(TitledTrees(ts)) == TitledSteps(PreorderAll(ts)) && CountForest(TitledTrees(ts)) == CountForest(ts)
  {
    if ts != [] {
      var t, rest := ts[0], ts[1..];
      var u, more := Tree(Titled(t.step), TitledTrees(t.kids)), TitledTrees(rest);
      assert u.step.status == t.step.status;
      hide Titled;
      assert TitledTrees(ts) == [u] + more && ([u] + more)[1..] == more;
      TitlesKeepTheListing(t.kids);
      TitlesKeepTheListing(rest);
      TitledSplit(Preorder(t), PreorderAll(rest));
      assert Preorder(t)[1..] == PreorderAll(t.kids);
    }
  }

  /** The active view of the titled trees is the titled active view. */
  lemma {:induction false} TitlesKeepTheActiveView(ts: seq<Tree>, parent: nat)
    ensures Active(TitledTrees(ts), parent) == TitledTrees(Active(ts, parent))
  {
    if ts != [] {
      var t, rest := ts[0], ts[1..];
      var u, more := Tree(Titled(t.step), TitledTrees(t.kids)), TitledTrees(rest);
      assert u.step.status == t.step.status && u.step.ord == t.step.ord;
      hide Titled;
      TitlesKeepTheActiveView(t.kids, if t.step.status.InProgress? then t.step.ord else parent);
      TitlesKeepTheActiveView(rest, parent);
      ActiveTitled(t, parent);
      var here := if t.step.status.InProgress? then [Tree(t.step.(parent := parent), Active(t.kids, t.step.ord))] else Active(t.kids, parent);
      TitledTreesSplit(here, Active(rest, parent));
      ActiveCons(u, more, parent);
      hide Active;
      hide TitledTrees;
    }
  }

  lemma {:induction false} ActiveCons(t: Tree, rest: seq<Tree>, parent: nat)
    ensures Active([t] + rest, parent) ==
            (if t.step.status.InProgress? then [Tree(t.step.(parent := parent), Active(t.kids, t.step.ord))]
             else Active(t.kids, parent)) + Active(rest, parent)
  {
    assert ([t] + rest)[1..] == rest;
  }

  lemma {:induction false} ActiveTitled(t: Tree, parent: nat)
    requires var p := if t.step.status.InProgress? then t.step.ord else parent;
             Active(TitledTrees(t.kids), p) == TitledTrees(Active(t.kids, p))
    ensures t.step.status.InProgress? ==>
              TitledTrees([Tree(t.step.(parent := parent), Active(t.kids, t.step.ord))]) ==
              [Tree(Titled(t.step).(parent := parent), Active(TitledTrees(t.kids), t.step.ord))]
  {
    var one := Tree(t.step.(parent := parent), Active(t.kids, t.step.ord));
    assert [one][1..] == [];
  }

  function OnlyActive(xs: seq<Step>): seq<Step>
  {
    if xs == [] then [] else (if xs[0].status.InProgress? then [xs[0]] else []) + OnlyActive(xs[1..])
  }

  /** The steps without regard to where they hang. */
  function Unhung(xs: seq<Step>): (us: seq<Step>)
    ensures |us| == |xs| && forall i :: 0 <= i < |xs| ==> us[i] == xs[i].(parent := 0)
  {
    if xs == [] then [] else [xs[0].(parent := 0)] + Unhung(xs[1..])
  }

  lemma {:induction false} OnlyActiveSplit(a: seq<Step>, b: seq<Step>)
    ensures OnlyActive(a + b) == OnlyActive(a) + OnlyActive(b)
  {
    if a == [] {
      assert a + b == b;
    } else {
      OnlyActiveSplit(a[1..], b);
      var all, first := a + b, if a[0].status.InProgress? then [a[0]] else [];
      assert all[1..] == a[1..] + b && all[0] == a[0];
      assert OnlyActive(all) == first + OnlyActive(all[1..]) && OnlyActive(a) == first + OnlyActive(a[1..]);
      hide OnlyActive;
      Assoc(first, OnlyActive(a[1..]), OnlyActive(b));
    }
  }

  lemma {:induction false} UnhungSplit(a: seq<Step>, b: seq<Step>)
    ensures Unhung(a + b) == Unhung(a) + Unhung(b)
  {
    hide Unhung;
    var u, v, w := Unhung(a + b), Unhung(a), Unhung(b);
    assert forall i :: 0 <= i < |a| ==> u[i] == v[i];
    assert forall i :: 0 <= i < |b| ==> u[|a| + i] == w[i];
  }

  lemma {:induction false} PreorderSplit(a: seq<Tree>, b: seq<Tree>)
    ensures PreorderAll(a + b) == PreorderAll(a) + PreorderAll(b)
  {
    if a == [] {
      assert a + b == b;
    } else {
      PreorderSplit(a[1..], b);
      assert (a + b)[1..] == a[1..] + b;
      Assoc(Preorder(a[0]), PreorderAll(a[1..]), PreorderAll(b));
    }
  }

  /** PlanActive lists exactly the in-progress steps, in the order PlanState does. */
  lemma {:induction false} ActiveListsInOrder(ts: seq<Tree>, parent: nat)
    ensures Unhung(PreorderAll(Active(ts, parent))) == Unhung(OnlyActive(PreorderAll(ts)))
  {
    if ts != [] {
      var t := ts[0];
      var here := if t.step.status.InProgress? then [Tree(t.step.(parent := parent), Active(t.kids, t.step.ord))] else Active(t.kids, parent);
      ActiveListsInOrder(t.kids, if t.step.status.InProgress? then t.step.ord else parent);
      ActiveListsInOrder(ts[1..], parent);
      PreorderSplit(here, Active(ts[1..], parent));
      UnhungSplit(PreorderAll(here), PreorderAll(Active(ts[1..], parent)));
      OnlyActiveSplit(Preorder(t), PreorderAll(ts[1..]));
      UnhungSplit(OnlyActive(Preorder(t)), OnlyActive(PreorderAll(ts[1..])));
      ActiveHere(t, parent, here);
    }
  }

  lemma {:induction false} ActiveHere(t: Tree, parent: nat, here: seq<Tree>)
    requires here == if t.step.status.InProgress? then [Tree(t.step.(parent := parent), Active(t.kids, t.step.ord))] else Active(t.kids, parent)
    requires var p := if t.step.status.InProgress? then t.step.ord else parent;
             Unhung(PreorderAll(Active(t.kids, p))) == Unhung(OnlyActive(PreorderAll(t.kids)))
    ensures Unhung(PreorderAll(here)) == Unhung(OnlyActive(Preorder(t)))
  {
    var all := PreorderAll(t.kids);
    assert ([t.step] + all)[1..] == all;
    if t.step.status.InProgress? {
      var kids := PreorderAll(Active(t.kids, t.step.ord));
      var top := t.step.(parent := parent);
      assert here[1..] == [] && PreorderAll(here) == [top] + kids;
      assert ([top] + kids)[1..] == kids;
      assert ([t.step] + OnlyActive(all))[1..] == OnlyActive(all);
    } else {
      assert [] + OnlyActive(all) == OnlyActive(all);
    }
  }

  /** In the view each step's parent field names the step it hangs under. */
  ghost predicate Parented(ts: seq<Tree>, parent: nat)
  {
    forall t :: t in ts ==> t.step.parent == parent && Parented(t.kids, t.step.ord)
  }

  lemma {:induction false} ActiveIsParented(ts: seq<Tree>, parent: nat)
    ensures Parented(Active(ts, parent), parent)
  {
    if ts != [] {
      var t := ts[0];
      ActiveIsParented(t.kids, if t.step.status.InProgress? then t.step.ord else parent);
      ActiveIsParented(ts[1..], parent);
    }
  }

  /** The nearest in-progress step at or above an ordinal; 0 when there is none, or the chain is broken first. */
  ghost function Nearest(ns: seq<Step>, ord: nat): nat
    decreases ord
  {
    if i :| 0 <= i < |ns| && ns[i].ord == ord then
      if ns[i].status.InProgress? || ns[i].parent >= ord then ord else Nearest(ns, ns[i].parent)
    else 0
  }

  lemma {:induction false} NearestAt(ns: seq<Step>, p: nat)
    requires Ordered(ns) && p < |ns|
    ensures Nearest(ns, ns[p].ord) == if ns[p].status.InProgress? then ns[p].ord else Nearest(ns, ns[p].parent)
  {
  }

  ghost predicate HangsRight(ns: seq<Step>, x: Step)
  {
    exists i :: 0 <= i < |ns| && ns[i].ord == x.ord && x.parent == Nearest(ns, ns[i].parent)
  }

  lemma {:induction false} ActiveHangs(ns: seq<Step>, lo: int, ps: seq<nat>, anc: nat)
    requires Ordered(ns) && -1 <= lo < |ns| && |ps| <= |ns|
    requires forall p :: p in ps ==> p < |ns| && Nearest(ns, ns[p].parent) == anc
    ensures forall x :: x in PreorderAll(Active(GrowAll(ns, lo, ps), anc)) ==> HangsRight(ns, x)
    decreases |ns| - lo, |ps|
  {
    if ps != [] {
      assert ps[0] in ps && forall p :: p in ps[1..] ==> p in ps;
      ActiveHangs(ns, lo, ps[1..], anc);
      var p, rest := ps[0], GrowAll(ns, lo, ps[1..]);
      if lo < p {
        var t, kids := Grow(ns, p), Pick(|ns|, KidSet(ns, ns[p].ord));
        PickIn(|ns|, KidSet(ns, ns[p].ord));
        NearestAt(ns, p);
        var below := if ns[p].status.InProgress? then ns[p].ord else anc;
        ActiveHangs(ns, p, kids, below);
        var ts := [t] + rest;
        assert GrowAll(ns, lo, ps) == ts && ts[1..] == rest && t.step == ns[p] && t.kids == GrowAll(ns, p, kids);
        var here := if ns[p].status.InProgress? then [Tree(t.step.(parent := anc), Active(t.kids, below))] else Active(t.kids, below);
        assert Active(ts, anc) == here + Active(rest, anc);
        PreorderSplit(here, Active(rest, anc));
        if ns[p].status.InProgress? {
          assert here[1..] == [] && PreorderAll(here) == [t.step.(parent := anc)] + PreorderAll(Active(t.kids, below));
          assert HangsRight(ns, t.step.(parent := anc));
        }
        hide HangsRight;
        hide Active;
        hide PreorderAll;
        hide GrowAll;
      }
    }
  }

  /** PlanActive hangs each step on its nearest in-progress ancestor, or at the top when none is reached. */
  lemma {:induction false} ActiveHangsOnNearest(ns: seq<Step>)
    requires Ordered(ns)
    ensures forall x :: x in PreorderAll(Active(Trees(ns), 0)) ==> HangsRight(ns, x)
  {
    var roots := Pick(|ns|, RootSet(ns));
    PickIn(|ns|, RootSet(ns));
    forall p | p in roots
      ensures p < |ns| && Nearest(ns, ns[p].parent) == 0
    {
      assert !HasOrd(ns, ns[p].parent);
    }
    if |ns| > 0 {
      ActiveHangs(ns, -1, roots, 0);
    }
  }

  // ---- Subtree ----

  /** ord hangs, by live steps, at or under root. */
  ghost predicate Below(ns: seq<Step>, ord: nat, root: nat)
    decreases ord
  {
    ord == root || exists i :: 0 <= i < |ns| && ns[i].ord == ord && ns[i].parent < ord && Below(ns, ns[i].parent, root)
  }

  /** Subtree before its sort: each step at or under root once, although the walk keeps no visited set. */
  method Walk(ns: seq<Step>, root: nat) returns (out: seq<nat>)
    requires Ordered(ns)
    ensures Distinct(out) && forall o :: o in out <==> Below(ns, o, root)
  {
    var children := Children(ns);
    out := [root];
    var queue := [root];
    ghost var i := 0;
    while queue != []
      invariant i <= |out| && queue == out[i..] && Walked(ns, root, out, i)
      decreases |ns| + 1 - i
    {
      var cur := queue[0];
      var kids := Kids(children, cur);
      WalkOn(ns, root, out, i, kids);
      queue := queue[1..] + kids;
      out := out + kids;
      i := i + 1;
    }
    WalkDone(ns, root, out);
  }

  ghost predicate IsKid(ns: seq<Step>, n: nat, o: nat, p: nat)
  {
    exists i :: 0 <= i < n && i < |ns| && ns[i].ord == o && ns[i].parent == p
  }

  method Children(ns: seq<Step>) returns (children: map<nat, seq<nat>>)
    requires Ordered(ns)
    ensures forall p: nat :: Distinct(Kids(children, p)) && forall o :: o in Kids(children, p) <==> IsKid(ns, |ns|, o, p)
  {
    children := map[];
    for i := 0 to |ns|
      invariant forall p: nat :: Distinct(Kids(children, p)) && forall o :: o in Kids(children, p) <==> IsKid(ns, i, o, p)
    {
      ChildNext(ns, children, i);
      children := children[ns[i].parent := Kids(children, ns[i].parent) + [ns[i].ord]];
    }
  }

  lemma {:induction false} ChildNext(ns: seq<Step>, children: map<nat, seq<nat>>, i: nat)
    requires Ordered(ns) && i < |ns|
    requires forall p: nat :: Distinct(Kids(children, p)) && forall o :: o in Kids(children, p) <==> IsKid(ns, i, o, p)
    ensures var after := children[ns[i].parent := Kids(children, ns[i].parent) + [ns[i].ord]];
            forall p: nat :: Distinct(Kids(after, p)) && forall o :: o in Kids(after, p) <==> IsKid(ns, i + 1, o, p)
  {
    var after := children[ns[i].parent := Kids(children, ns[i].parent) + [ns[i].ord]];
    forall p: nat
      ensures Distinct(Kids(after, p)) && forall o :: o in Kids(after, p) <==> IsKid(ns, i + 1, o, p)
    {
      var was := Kids(children, p);
      assert Distinct(was) && forall o: nat :: o in was <==> IsKid(ns, i, o, p);
      forall o: nat
        ensures IsKid(ns, i + 1, o, p) <==> IsKid(ns, i, o, p) || (o == ns[i].ord && p == ns[i].parent)
      {
      }
      if p == ns[i].parent {
        assert !IsKid(ns, i, ns[i].ord, p);
        JoinDistinct(was, [ns[i].ord]);
        assert Kids(after, p) == was + [ns[i].ord];
      } else {
        assert Kids(after, p) == was;
      }
    }
  }

  ghost predicate Found(ns: seq<Step>, seen: seq<nat>, o: nat) { exists p :: p in seen && IsKid(ns, |ns|, o, p) }

  lemma {:induction false} FoundMore(ns: seq<Step>, seen: seq<nat>, p: nat, o: nat)
    ensures Found(ns, seen + [p], o) <==> Found(ns, seen, o) || IsKid(ns, |ns|, o, p)
  {
    hide IsKid;
    assert p in seen + [p];
    if Found(ns, seen, o) {
      var q :| q in seen && IsKid(ns, |ns|, o, q);
      assert q in seen + [p];
    }
  }

  /** out holds steps at or under root, each once; exactly those before i have had their children appended. */
  ghost predicate Walked(ns: seq<Step>, root: nat, out: seq<nat>, i: nat)
    requires i <= |out|
  {
    && Distinct(out) && |out| > 0 && out[0] == root
    && (forall o :: o in out ==> o >= root && Below(ns, o, root))
    && (forall k :: 1 <= k < |out| ==> Found(ns, out[..i], out[k]))
    && (forall o: nat, p :: p in out[..i] && IsKid(ns, |ns|, o, p) ==> o in out)
  }

  ghost function Ords(ns: seq<Step>): set<nat> { set i | 0 <= i < |ns| :: ns[i].ord }

  lemma {:induction false} OrdCount(ns: seq<Step>)
    ensures |Ords(ns)| <= |ns|
  {
    if ns != [] {
      var front := ns[..|ns| - 1];
      OrdCount(front);
      assert forall i :: 0 <= i < |front| ==> front[i] == ns[i];
      assert Ords(ns) == Ords(front) + {ns[|ns| - 1].ord};
    }
  }

  lemma {:induction false} WalkBound(ns: seq<Step>, root: nat, out: seq<nat>, i: nat)
    requires i <= |out| && Walked(ns, root, out, i)
    ensures |out| <= |ns| + 1
  {
    OrdCount(ns);
    forall o | o in out
      ensures o in Ords(ns) + {root}
    {
      var k :| 0 <= k < |out| && out[k] == o;
      assert k > 0 ==> Found(ns, out[..i], out[k]);
    }
    DistinctBound(out, Ords(ns) + {root});
  }

  lemma {:induction false} OneParent(ns: seq<Step>, o: nat, p: nat, q: nat)
    requires Ordered(ns) && IsKid(ns, |ns|, o, p) && IsKid(ns, |ns|, o, q)
    ensures p == q && p < o
  {
  }

  /** A child of the step at i is new to the walk: it comes after root, and everyone else met hangs elsewhere. */
  lemma {:induction false} KidIsNew(ns: seq<Step>, root: nat, out: seq<nat>, i: nat, o: nat)
    requires Ordered(ns) && i < |out| && Walked(ns, root, out, i) && IsKid(ns, |ns|, o, out[i])
    ensures o !in out && o >= root && Below(ns, o, root)
  {
    var cur := out[i];
    assert cur in out && cur !in out[..i];
    OneParent(ns, o, cur, cur);
    forall k | 0 <= k < |out|
      ensures out[k] != o
    {
      assert k > 0 ==> Found(ns, out[..i], out[k]);
    }
  }

  lemma {:induction false} WalkOn(ns: seq<Step>, root: nat, out: seq<nat>, i: nat, kids: seq<nat>)
    requires Ordered(ns) && i < |out| && Walked(ns, root, out, i)
    requires Distinct(kids) && forall o :: o in kids <==> IsKid(ns, |ns|, o, out[i])
    ensures i <= |ns| && Walked(ns, root, out + kids, i + 1)
  {
    WalkBound(ns, root, out, i);
    hide Below;
    hide IsKid;
    var cur, next := out[i], out + kids;
    forall o | o in kids
      ensures o !in out && o >= root && Below(ns, o, root)
    {
      KidIsNew(ns, root, out, i, o);
    }
    JoinDistinct(out, kids);
    assert next[..i + 1] == out[..i] + [cur];
    forall k | 1 <= k < |next|
      ensures Found(ns, next[..i + 1], next[k])
    {
      FoundMore(ns, out[..i], cur, next[k]);
      assert k >= |out| ==> next[k] in kids;
      hide Found;
    }
    hide Distinct;
    hide Found;
  }

  lemma {:induction false} WalkDone(ns: seq<Step>, root: nat, out: seq<nat>)
    requires Ordered(ns) && Walked(ns, root, out, |out|)
    ensures forall o :: o in out <==> Below(ns, o, root)
  {
    assert out[..|out|] == out;
    forall o: nat | Below(ns, o, root)
      ensures o in out
    {
      BelowFound(ns, root, out, o);
    }
  }

  lemma {:induction false} BelowFound(ns: seq<Step>, root: nat, out: seq<nat>, o: nat)
    requires root in out && Below(ns, o, root)
    requires forall o: nat, p :: p in out && IsKid(ns, |ns|, o, p) ==> o in out
    ensures o in out
    decreases o
  {
    if o != root {
      var i :| 0 <= i < |ns| && ns[i].ord == o && ns[i].parent < o && Below(ns, ns[i].parent, root);
      BelowFound(ns, root, out, ns[i].parent);
      assert IsKid(ns, |ns|, o, ns[i].parent);
    }
  }

  // ---- The sorted answer ----

  ghost predicate Ascending(xs: seq<nat>) { forall i, j :: 0 <= i < j < |xs| ==> xs[i] < xs[j] }

  function Insert(xs: seq<nat>, x: nat): seq<nat>
  {
    if xs == [] then [x] else if x < xs[0] then [x] + xs else [xs[0]] + Insert(xs[1..], x)
  }

  lemma {:induction false} InsertKeeps(xs: seq<nat>, x: nat)
    requires Ascending(xs) && x !in xs
    ensures Ascending(Insert(xs, x)) && forall y :: y in Insert(xs, x) <==> y == x || y in xs
  {
    if xs != [] && x >= xs[0] {
      assert xs[0] in xs && forall y :: y in xs <==> y == xs[0] || y in xs[1..];
      InsertKeeps(xs[1..], x);
      AscendingCons(xs[0], Insert(xs[1..], x));
    } else if xs != [] {
      AscendingCons(x, xs);
    }
  }

  lemma {:induction false} AscendingCons(x: nat, xs: seq<nat>)
    requires Ascending(xs) && forall y :: y in xs ==> x < y
    ensures Ascending([x] + xs)
  {
    var all := [x] + xs;
    forall i, j | 0 <= i < j < |all|
      ensures all[i] < all[j]
    {
      assert all[j] == xs[j - 1] && xs[j - 1] in xs;
    }
  }

  /** Subtree: the ordinals at or under root, ascending; an unknown root still names itself and what hangs on it. */
  method Subtree(ns: seq<Step>, root: nat) returns (out: seq<nat>)
    requires Ordered(ns)
    ensures Ascending(out) && forall o :: o in out <==> Below(ns, o, root)
  {
    var walked := Walk(ns, root);
    hide Below;
    out := [];
    for i := 0 to |walked|
      invariant Ascending(out) && forall o :: o in out <==> o in walked[..i]
    {
      assert walked[..i + 1] == walked[..i] + [walked[i]] && walked[i] !in walked[..i];
      InsertKeeps(out, walked[i]);
      out := Insert(out, walked[i]);
    }
    assert walked[..|walked|] == walked;
  }
}
