// One turn's plan: internal/plan/write.go, the rollup of internal/plan/tree.go, the ordinals of
// internal/domain/plancache.go, and the two stores that age on separate clocks (internal/dream/prune.go).
module Plans {
  import opened Common
  import opened PlanTrees

  const MAX_ORD: nat := 0xFFFF_FFFF

  // ---- Rollup ----

  function Join(parts: seq<string>): string
  {
    if parts == [] then "" else if |parts| == 1 then parts[0] else parts[0] + "; " + Join(parts[1..])
  }

  ghost function KidsAt(ns: seq<Step>, i: nat): seq<nat>
    requires i < |ns|
  {
    Pick(|ns|, KidSet(ns, ns[i].ord))
  }

  /** The text of a step is the library's to write: nothing there, or a fold of its own. */
  predicate LibraryOwned(s: Step) { s.summary == "" || s.folded }

  ghost predicate Folds(ns: seq<Step>, i: nat)
    requires i < |ns|
  {
    KidsAt(ns, i) != [] && ns[i].status.Done? && LibraryOwned(ns[i]) &&
    forall k :: k in KidsAt(ns, i) && k < |ns| ==> ns[k].status.Terminal()
  }

  /** The summary a step holds once everything under it has been folded. */
  ghost function Sum(ns: seq<Step>, i: nat): string
    requires Ordered(ns) && i < |ns|
    decreases |ns| - i, |ns| + 1
  {
    if !Folds(ns, i) then ns[i].summary
    else
      var parts := Parts(ns, i, KidsAt(ns, i));
      if parts == [] then ns[i].summary else Join(parts)
  }

  /** The nonempty summaries at positions behind lo, in order. */
  ghost function Parts(ns: seq<Step>, lo: int, ps: seq<nat>): seq<string>
    requires Ordered(ns) && -1 <= lo < |ns| && |ps| <= |ns|
    decreases |ns| - lo, |ps|
  {
    if ps == [] then []
    else (if lo < ps[0] < |ns| && Sum(ns, ps[0]) != "" then [Sum(ns, ps[0])] else []) + Parts(ns, lo, ps[1..])
  }

  ghost function RolledStep(ns: seq<Step>, i: nat, now: int): Step
    requires Ordered(ns) && i < |ns|
  {
    if Sum(ns, i) == ns[i].summary then ns[i] else ns[i].(summary := Sum(ns, i), folded := true, updatedAt := now)
  }

  /** The steps after one RollupTree. */
  ghost function Rolled(ns: seq<Step>, now: int): (r: seq<Step>)
    requires Ordered(ns)
    ensures |r| == |ns| && (forall i :: 0 <= i < |ns| ==> r[i] == RolledStep(ns, i, now)) && Ordered(r)
  {
    hide Sum;
    seq(|ns|, i requires 0 <= i < |ns| => RolledStep(ns, i, now))
  }

  /** A rollup changes no status, ordinal or parent, and no summary a host wrote. */
  lemma {:induction false} RollupTouchesOnlyItsOwn(ns: seq<Step>, i: nat, now: int)
    requires Ordered(ns) && i < |ns|
    ensures var r := Rolled(ns, now);
            && r[i].status == ns[i].status && r[i].ord == ns[i].ord && r[i].parent == ns[i].parent
            && (!LibraryOwned(ns[i]) ==> r[i] == ns[i]) && (LibraryOwned(ns[i]) ==> LibraryOwned(r[i]))
  {
  }

  lemma {:induction false} SameShape(ns: seq<Step>, r: seq<Step>, i: nat)
    requires |r| == |ns| && i < |ns| && forall k :: 0 <= k < |ns| ==> r[k].ord == ns[k].ord && r[k].parent == ns[k].parent
    ensures KidsAt(r, i) == KidsAt(ns, i)
  {
    assert KidSet(r, r[i].ord) == KidSet(ns, ns[i].ord);
  }

  lemma {:induction false} KidsBehind(ns: seq<Step>, i: nat)
    requires Ordered(ns) && i < |ns|
    ensures forall k :: k in KidsAt(ns, i) ==> i < k < |ns|
    ensures forall j :: 0 <= j < |KidsAt(ns, i)| ==> i < KidsAt(ns, i)[j] < |ns|
  {
    PickIn(|ns|, KidSet(ns, ns[i].ord));
    forall j | 0 <= j < |KidsAt(ns, i)|
      ensures i < KidsAt(ns, i)[j] < |ns|
    {
      assert KidsAt(ns, i)[j] in KidsAt(ns, i);
    }
  }

  /** After one pass every step holds the summary a second pass would give it. */
  lemma {:induction false} SettledSum(ns: seq<Step>, i: nat, now: int)
    requires Ordered(ns) && i < |ns|
    ensures Sum(Rolled(ns, now), i) == Rolled(ns, now)[i].summary == Sum(ns, i)
    decreases |ns| - i, |ns| + 1
  {
    var r := Rolled(ns, now);
    SameShape(ns, r, i);
    KidsBehind(ns, i);
    SettledParts(ns, i, KidsAt(ns, i), now);
    assert Folds(ns, i) ==> Folds(r, i);
    assert Folds(r, i) ==> Folds(ns, i);
  }

  lemma {:induction false} SettledParts(ns: seq<Step>, lo: int, ps: seq<nat>, now: int)
    requires Ordered(ns) && -1 <= lo < |ns| && |ps| <= |ns|
    ensures Parts(Rolled(ns, now), lo, ps) == Parts(ns, lo, ps)
    decreases |ns| - lo, |ps|
  {
    if ps != [] {
      SettledParts(ns, lo, ps[1..], now);
      if lo < ps[0] < |ns| {
        SettledSum(ns, ps[0], now);
      }
    }
  }

  /** Rollup fixpoint: a second pass writes nothing. */
  lemma {:induction false} RollupIsIdempotent(ns: seq<Step>, now: int, later: int)
    requires Ordered(ns)
    ensures Rolled(Rolled(ns, now), later) == Rolled(ns, now)
  {
    var r := Rolled(ns, now);
    forall i | 0 <= i < |ns|
      ensures RolledStep(r, i, later) == r[i]
    {
      SettledSum(ns, i, now);
      hide Sum;
    }
    hide Sum;
  }

  /** The texts a step's direct children hold, without the empty ones, in the order they were planned. */
  ghost function ChildTexts(ns: seq<Step>, ps: seq<nat>): seq<string>
  {
    if ps == [] then [] else (if ps[0] < |ns| && ns[ps[0]].summary != "" then [ns[ps[0]].summary] else []) + ChildTexts(ns, ps[1..])
  }

  /** A Done step with children, all of them settled, whose text is empty or a fold: spelled out over the plan. */
  ghost predicate Foldable(ns: seq<Step>, i: nat)
    requires i < |ns|
  {
    && ns[i].status == Done && (ns[i].summary == "" || ns[i].folded)
    && (exists p: nat :: p < |ns| && ns[p].parent == ns[i].ord)
    && forall p: nat :: p < |ns| && ns[p].parent == ns[i].ord ==> ns[p].status == Done || ns[p].status == Failed
  }

  lemma {:induction false} FoldableIsFolds(ns: seq<Step>, i: nat)
    requires i < |ns|
    ensures Foldable(ns, i) <==> Folds(ns, i)
  {
    var ks := KidsAt(ns, i);
    PickIn(|ns|, KidSet(ns, ns[i].ord));
    hide Pick;
    assert forall p: nat :: p in ks <==> p < |ns| && ns[p].parent == ns[i].ord;
    if ks != [] {
      assert ks[0] in ks;
    }
  }

  /**
   * After a pass every foldable step any of whose children has a text holds the join of those texts, marked as a fold;
   * every other step stands as it did.
   */
  lemma {:induction false} FoldsHoldTheirJoin(ns: seq<Step>, i: nat, now: int)
    requires Ordered(ns) && i < |ns|
    ensures var r := Rolled(ns, now);
            var texts := ChildTexts(r, KidsAt(r, i));
            && (Foldable(r, i) <==> Foldable(ns, i))
            && (Foldable(ns, i) && texts != [] ==> r[i].summary == Join(texts))
            && (!Foldable(ns, i) || texts == [] ==> r[i] == ns[i])
            && (r[i] != ns[i] ==> r[i] == ns[i].(summary := Join(texts), folded := true, updatedAt := now))
  {
    var r := Rolled(ns, now);
    SettledSum(ns, i, now);
    KidsBehind(r, i);
    TextsAreParts(ns, r, i, KidsAt(r, i), now);
    SameShape(ns, r, i);
    SettledParts(ns, i, KidsAt(ns, i), now);
    FoldableIsFolds(ns, i);
    FoldableIsFolds(r, i);
    hide Foldable;
    assert Folds(r, i) ==> Folds(ns, i);
    assert Folds(ns, i) ==> Folds(r, i);
    SumUnfolds(ns, i);
    hide Sum;
    hide Parts;
    assert ChildTexts(r, KidsAt(r, i)) == Parts(ns, i, KidsAt(ns, i));
    assert r[i] == RolledStep(ns, i, now);
  }

  lemma {:induction false} TextsAreParts(ns: seq<Step>, r: seq<Step>, lo: nat, ps: seq<nat>, now: int)
    requires Ordered(ns) && r == Rolled(ns, now) && lo < |ns| && |ps| <= |ns| && forall p :: p in ps ==> lo < p < |ns|
    ensures ChildTexts(r, ps) == Parts(r, lo, ps)
    decreases |ps|
  {
    if ps != [] {
      assert ps[0] in ps && forall p :: p in ps[1..] ==> p in ps;
      TextsAreParts(ns, r, lo, ps[1..], now);
      SettledSum(ns, ps[0], now);
    }
  }

  // ---- What a fold reads like ----

  /** Where part k starts in the joined text: behind the parts before it and a "; " after each. */
  function Offset(parts: seq<string>, k: nat): nat
    requires k <= |parts|
  {
    if k == 0 then 0 else Offset(parts, k - 1) + |parts[k - 1]| + 2
  }

  lemma {:induction false} OffsetTail(parts: seq<string>, k: nat)
    requires 0 < k <= |parts|
    ensures Offset(parts, k) == |parts[0]| + 2 + Offset(parts[1..], k - 1)
  {
    if k > 1 {
      OffsetTail(parts, k - 1);
    }
  }

  predicate Holds(text: string, at: nat, part: string) { at + |part| <= |text| && text[at..at + |part|] == part }

  /** The joined text holds every part whole, in order, with "; " between one and the next and nothing else. */
  lemma {:induction false} JoinReads(parts: seq<string>, k: nat)
    requires k < |parts|
    ensures Holds(Join(parts), Offset(parts, k), parts[k])
    ensures k + 1 < |parts| ==> Holds(Join(parts), Offset(parts, k) + |parts[k]|, "; ")
    ensures k + 1 == |parts| ==> Offset(parts, k) + |parts[k]| == |Join(parts)|
  {
    if |parts| > 1 {
      var head, rest, part := parts[0] + "; ", Join(parts[1..]), parts[k];
      assert Join(parts) == head + rest;
      if k > 0 {
        JoinReads(parts[1..], k - 1);
        OffsetTail(parts, k);
        var at := Offset(parts[1..], k - 1);
        hide Offset;
        hide Join;
        Behind(head, rest, at, part);
        if k + 1 < |parts| {
          Behind(head, rest, at + |part|, "; ");
        }
      } else {
        Ahead(part, "; ", rest);
      }
    }
  }

  lemma {:induction false} Behind(head: string, rest: string, at: nat, part: string)
    requires Holds(rest, at, part)
    ensures Holds(head + rest, |head| + at, part)
  {
    assert (head + rest)[|head| + at..|head| + at + |part|] == rest[at..at + |part|];
  }

  lemma {:induction false} Ahead(part: string, gap: string, rest: string)
    ensures Holds(part + gap + rest, 0, part) && Holds(part + gap + rest, |part|, gap)
  {
    var text := part + gap + rest;
    assert text[0..|part|] == part && text[|part|..|part| + |gap|] == gap;
  }

  lemma {:induction false} TextsSplit(ns: seq<Step>, a: seq<nat>, b: seq<nat>)
    ensures ChildTexts(ns, a + b) == ChildTexts(ns, a) + ChildTexts(ns, b)
  {
    if a == [] {
      assert a + b == b;
    } else {
      assert (a + b)[1..] == a[1..] + b;
      TextsSplit(ns, a[1..], b);
    }
  }

  /** A step's children are the steps that name it as their parent, in the order they were planned. */
  lemma {:induction false} ChildrenAre(ns: seq<Step>, i: nat)
    requires i < |ns|
    ensures forall p: nat :: p in KidsAt(ns, i) <==> p < |ns| && ns[p].parent == ns[i].ord
    ensures forall j, k :: 0 <= j < k < |KidsAt(ns, i)| ==> KidsAt(ns, i)[j] < KidsAt(ns, i)[k]
  {
    PickIn(|ns|, KidSet(ns, ns[i].ord));
    PickAscends(|ns|, KidSet(ns, ns[i].ord));
  }

  /**
   * A folded step reads as its children's texts in planned order: the text of each child that has one stands whole,
   * behind those of the children before it.
   */
  lemma {:induction false} FoldsReadInOrder(ns: seq<Step>, i: nat, now: int, a: seq<nat>, p: nat, b: seq<nat>)
    requires Ordered(ns) && i < |ns| && Foldable(ns, i) && KidsAt(Rolled(ns, now), i) == a + [p] + b
    requires p < |ns| && Rolled(ns, now)[p].summary != ""
    ensures var r := Rolled(ns, now);
            var texts, k := ChildTexts(r, a + [p] + b), |ChildTexts(r, a)|;
            k < |texts| && texts[k] == r[p].summary && Holds(r[i].summary, Offset(texts, k), r[p].summary)
  {
    hide Sum;
    hide Pick;
    hide KidsAt;
    FoldsHoldTheirJoin(ns, i, now);
    var r := Rolled(ns, now);
    hide Rolled;
    hide Foldable;
    TextAmong(r, a, p, b);
    JoinReads(ChildTexts(r, a + [p] + b), |ChildTexts(r, a)|);
    hide Join;
    hide Offset;
  }

  lemma {:induction false} TextAmong(r: seq<Step>, a: seq<nat>, p: nat, b: seq<nat>)
    requires p < |r| && r[p].summary != ""
    ensures ChildTexts(r, a + [p] + b) == ChildTexts(r, a) + [r[p].summary] + ChildTexts(r, b)
  {
    TextsSplit(r, a, [p]);
    TextsSplit(r, a + [p], b);
    assert [p][1..] == [];
    assert ChildTexts(r, [p]) == [r[p].summary] + ChildTexts(r, []);
  }

  // ---- The turn ----

  datatype Outcome<+T> = Ok(value: T) | NotFound | Refused

  /** records maps each content slot of the turn to the plan step it names, 0 for none. */
  class PlanTurn {
    var nodes: seq<Step>
    var records: map<nat, nat>

    ghost predicate Valid()
      reads this
    {
      Ordered(nodes) && (forall i :: 0 <= i < |nodes| ==> nodes[i].ord <= MAX_ORD) && forall r :: r in records ==> records[r] <= MAX_ORD
    }

    constructor ()
      ensures Valid() && nodes == [] && records == map[]
    {
      nodes, records := [], map[];
    }

    /** The last 32-bit ordinal is still spoken of. */
    ghost predicate Exhausted()
      reads this
    {
      (exists i :: 0 <= i < |nodes| && nodes[i].ord == MAX_ORD) || exists x :: x in records && records[x] == MAX_ORD
    }

    method HasSeq(ord: nat) returns (r: bool)
      ensures r <==> HasOrd(nodes, ord)
    {
      for i := 0 to |nodes|
        invariant forall j :: 0 <= j < i ==> nodes[j].ord != ord
      {
        if nodes[i].ord == ord {
          return true;
        }
      }
      return false;
    }

    /** MaxNodeSeq: the highest ordinal a surviving record names. */
    method MaxNodeSeq() returns (top: nat)
      requires Valid()
      ensures top <= MAX_ORD && (forall r :: r in records ==> records[r] <= top) && (top == 0 || exists r :: r in records && records[r] == top)
    {
      top := 0;
      var todo := records.Keys;
      while todo != {}
        invariant todo <= records.Keys && top <= MAX_ORD
        invariant forall r :: r in records && r !in todo ==> records[r] <= top
        invariant top == 0 || exists r :: r in records && records[r] == top
        decreases |todo|
      {
        var r :| r in todo;
        if records[r] > top {
          top := records[r];
        }
        todo := todo - {r};
      }
    }

    /** NextSeq: one above everything live or reserved, in 32 bits. */
    method NextSeq(reserved: nat) returns (next: nat)
      requires Valid() && reserved <= MAX_ORD
      ensures next <= MAX_ORD
      ensures next == 0 <==> reserved == MAX_ORD || exists i :: 0 <= i < |nodes| && nodes[i].ord == MAX_ORD
      ensures next > 0 ==> reserved < next && forall i :: 0 <= i < |nodes| ==> nodes[i].ord < next
      ensures next > 1 ==> reserved == next - 1 || exists i :: 0 <= i < |nodes| && nodes[i].ord == next - 1
    {
      var top := 0;
      for i := 0 to |nodes|
        invariant top <= MAX_ORD && (forall j :: 0 <= j < i ==> nodes[j].ord <= top)
        invariant top == 0 || exists j :: 0 <= j < i && nodes[j].ord == top
      {
        if nodes[i].ord > top {
          top := nodes[i].ord;
        }
      }
      if reserved > top {
        top := reserved;
      }
      next := (top + 1) % (MAX_ORD + 1);
    }

    /**
     * CreateNode: the new ordinal is above every live step, every parent a live step names and every step a
     * surviving record names, so the new step inherits nobody's children and nobody's content. The one refusal
     * besides a missing parent is a turn that has used its last ordinal.
     */
    method CreateNode(parent: nat, title: string, now: int) returns (r: Outcome<nat>)
      requires Valid()
      modifies this`nodes
      ensures Valid() && (!r.Ok? ==> nodes == old(nodes))
      ensures r.NotFound? <==> parent != 0 && !HasOrd(old(nodes), parent)
      ensures r.Refused? <==> (parent == 0 || HasOrd(old(nodes), parent)) && old(Exhausted())
      ensures r.Ok? ==>
                && nodes == old(nodes) + [Step(r.value, parent, title, InProgress, "", false, now, 0, now)]
                && (forall i :: 0 <= i < |old(nodes)| ==> old(nodes)[i].ord < r.value && old(nodes)[i].parent < r.value)
                && (forall x :: x in records ==> records[x] < r.value) && parent < r.value
      ensures r.Ok? && r.value > 1 ==> HasOrd(old(nodes), r.value - 1) || exists x :: x in records && records[x] == r.value - 1
    {
      if parent != 0 {
        var known := HasSeq(parent);
        if !known {
          return NotFound;
        }
      }
      var reserved := MaxNodeSeq();
      var ord := NextSeq(reserved);
      if ord == 0 {
        return Refused;
      }
      nodes := nodes + [Step(ord, parent, title, InProgress, "", false, now, 0, now)];
      return Ok(ord);
    }

    /** AppendArchive: content may name only a live step. */
    method AppendContent(slot: nat, ord: nat) returns (ok: bool)
      requires Valid()
      modifies this`records
      ensures Valid() && (ok <==> ord == 0 || HasOrd(nodes, ord))
      ensures records == if ok then old(records)[slot := ord] else old(records)
    {
      if ord != 0 {
        var known := HasSeq(ord);
        if !known {
          return false;
        }
      }
      records := records[slot := ord];
      return true;
    }

    /** PruneContentStage on this turn: any records may go, the steps stay. */
    method PruneContent(expired: set<nat>)
      requires Valid()
      modifies this`records
      ensures Valid() && records == old(records) - expired
    {
      records := records - expired;
    }

    /** PrunePlanStage on this turn: any steps may go, parents before their children too; the records stay. */
    method PruneNodes(doomed: set<nat>)
      requires Valid()
      modifies this`nodes
      ensures Valid() && forall x :: x in nodes <==> x in old(nodes) && x.ord !in doomed
    {
      var kept: seq<Step>, all := [], nodes;
      for i := 0 to |all|
        invariant forall x :: x in kept <==> x in all[..i] && x.ord !in doomed
        invariant Ordered(kept)
      {
        KeptBelow(all, kept, i);
        assert all[..i + 1] == all[..i] + [all[i]];
        if all[i].ord !in doomed {
          kept := kept + [all[i]];
        }
      }
      assert all[..|all|] == all;
      assert forall i :: 0 <= i < |kept| ==> kept[i] in kept;
      nodes := kept;
    }

    /** UpdateNode: a blank field keeps what is stored; a summary the host states is the host's from then on. */
    method UpdateNode(ord: nat, status: Status, title: string, summary: string, now: int) returns (r: Outcome<()>)
      requires Valid()
      modifies this`nodes
      ensures Valid() && |nodes| == |old(nodes)| && r == if HasOrd(old(nodes), ord) then Ok(()) else NotFound
      ensures forall i :: 0 <= i < |nodes| && old(nodes)[i].ord != ord ==> nodes[i] == old(nodes)[i]
      ensures forall i :: 0 <= i < |nodes| && old(nodes)[i].ord == ord ==> Restates(old(nodes)[i], nodes[i], status, title, summary, now)
    {
      for i := 0 to |nodes|
        invariant nodes == old(nodes) && forall j :: 0 <= j < i ==> nodes[j].ord != ord
      {
        if nodes[i].ord == ord {
          nodes := nodes[i := Restated(nodes[i], status, title, summary, now)];
          return Ok(());
        }
      }
      return NotFound;
    }

    /** RollupTree: bottom-up over the linked steps. */
    method RollupTree(now: int)
      requires Valid()
      modifies this`nodes
      ensures Valid() && nodes == Rolled(old(nodes), now)
    {
      hide Sum;
      hide Pick;
      ghost var ns := nodes;
      var kids, roots := Link(nodes);
      var snapshot := nodes;
      PickIn(|ns|, RootSet(ns));
      ghost var done: set<nat> := {};
      for r := 0 to |roots|
        invariant PartlyRolled(ns, nodes, done, now) && forall j :: 0 <= j < r ==> roots[j] in done
      {
        assert roots[r] in roots;
        var _, more := RollupNode(snapshot, kids, roots[r], now, done);
        done := more;
      }
      AllDone(ns, done);
      assert nodes == Rolled(ns, now);
    }

    method RollupNode(ns: seq<Step>, kids: map<nat, seq<nat>>, i: nat, now: int, ghost done: set<nat>)
      returns (summary: string, ghost done': set<nat>)
      requires Ordered(ns) && i < |ns| && PartlyRolled(ns, nodes, done, now)
      requires forall k :: 0 <= k < |ns| ==> Kids(kids, ns[k].ord) == KidsAt(ns, k)
      modifies this`nodes
      ensures PartlyRolled(ns, nodes, done', now) && done <= done' && i in done' && summary == Sum(ns, i)
      decreases |ns| - i
    {
      hide Sum;
      hide Pick;
      var mine := Kids(kids, ns[i].ord);
      KidsBehind(ns, i);
      var sums: seq<string> := [];
      done' := done;
      for k := 0 to |mine|
        invariant PartlyRolled(ns, nodes, done', now) && done <= done'
        invariant |sums| == k && forall j :: 0 <= j < k ==> mine[j] in done' && sums[j] == Sum(ns, mine[j])
      {
        assert mine[k] in mine;
        var s, more := RollupNode(ns, kids, mine[k], now, done');
        sums, done' := sums + [s], more;
      }
      summary := Fold(ns, i, mine, sums);
      if summary != ns[i].summary {
        nodes := nodes[i := nodes[i].(summary := summary, folded := true, updatedAt := now)];
      }
      done' := done' + {i};
    }
  }

  /** What rollupNode makes of one step once its children's summaries are known. */
  method Fold(ns: seq<Step>, i: nat, mine: seq<nat>, sums: seq<string>) returns (summary: string)
    requires Ordered(ns) && i < |ns| && mine == KidsAt(ns, i) && |sums| == |mine|
    requires forall j :: 0 <= j < |mine| ==> i < mine[j] < |ns| && sums[j] == Sum(ns, mine[j])
    ensures summary == Sum(ns, i)
  {
    hide Sum;
    hide Parts;
    hide Pick;
    SumUnfolds(ns, i);
    summary := ns[i].summary;
    if mine == [] || !ns[i].status.Done? || (summary != "" && !ns[i].folded) {
      return;
    }
    var settled, parts := CollectParts(ns, i, mine, sums);
    if !settled || parts == [] {
      return;
    }
    summary := Join(parts);
  }

  /** The scan of the children: their nonempty summaries in order, given up at the first one that is not settled. */
  method CollectParts(ns: seq<Step>, i: nat, mine: seq<nat>, sums: seq<string>) returns (settled: bool, parts: seq<string>)
    requires Ordered(ns) && i < |ns| && |sums| == |mine| <= |ns|
    requires forall j :: 0 <= j < |mine| ==> i < mine[j] < |ns| && sums[j] == Sum(ns, mine[j])
    ensures settled <==> forall k :: k in mine ==> k < |ns| && ns[k].status.Terminal()
    ensures settled ==> parts == Parts(ns, i, mine)
  {
    hide Sum;
    hide Parts;
    parts := [];
    assert mine[0..] == mine;
    for k := 0 to |mine|
      invariant forall j :: 0 <= j < k ==> ns[mine[j]].status.Terminal()
      invariant Parts(ns, i, mine) == parts + Parts(ns, i, mine[k..])
    {
      if !ns[mine[k]].status.Terminal() {
        assert mine[k] in mine;
        return false, [];
      }
      PartsNext(ns, i, mine, k);
      Assoc(parts, if sums[k] != "" then [sums[k]] else [], Parts(ns, i, mine[k + 1..]));
      if sums[k] != "" {
        parts := parts + [sums[k]];
      }
    }
    assert mine[|mine|..] == [];
    NoParts(ns, i);
    assert Parts(ns, i, mine) == parts;
    return true, parts;
  }

  lemma {:induction false} SumUnfolds(ns: seq<Step>, i: nat)
    requires Ordered(ns) && i < |ns|
    ensures Sum(ns, i) == if Folds(ns, i) && Parts(ns, i, KidsAt(ns, i)) != [] then Join(Parts(ns, i, KidsAt(ns, i))) else ns[i].summary
  {
  }

  lemma {:induction false} PartsNext(ns: seq<Step>, lo: nat, ps: seq<nat>, k: nat)
    requires Ordered(ns) && lo < |ns| && |ps| <= |ns| && k < |ps| && lo < ps[k] < |ns|
    ensures Parts(ns, lo, ps[k..]) == (if Sum(ns, ps[k]) != "" then [Sum(ns, ps[k])] else []) + Parts(ns, lo, ps[k + 1..])
  {
    assert ps[k..][1..] == ps[k + 1..];
  }

  lemma {:induction false} NoParts(ns: seq<Step>, lo: nat)
    requires Ordered(ns) && lo < |ns|
    ensures Parts(ns, lo, []) == []
  {
  }

  lemma {:induction false} KeptBelow(ns: seq<Step>, kept: seq<Step>, i: nat)
    requires Ordered(ns) && i < |ns| && forall x :: x in kept ==> x in ns[..i]
    ensures forall j :: 0 <= j < |kept| ==> kept[j].ord < ns[i].ord
  {
    forall j | 0 <= j < |kept|
      ensures kept[j].ord < ns[i].ord
    {
      assert kept[j] in kept;
      var k :| 0 <= k < i && ns[..i][k] == kept[j];
      assert ns[k] == kept[j];
    }
  }

  /** An updated step, field by field. */
  ghost predicate Restates(was: Step, step: Step, status: Status, title: string, summary: string, now: int)
  {
    && step.ord == was.ord && step.parent == was.parent && step.createdAt == was.createdAt && step.status == status && step.updatedAt == now
    && (title != "" ==> step.title == title) && (title == "" ==> step.title == was.title)
    && (summary != "" ==> step.summary == summary && !step.folded)
    && (summary == "" ==> step.summary == was.summary && step.folded == was.folded)
    && (status.InProgress? ==> step.finishedAt == 0)
    && (!status.InProgress? && was.finishedAt == 0 ==> step.finishedAt == now)
    && (!status.InProgress? && was.finishedAt != 0 ==> step.finishedAt == was.finishedAt)
  }

  function Restated(s: Step, status: Status, title: string, summary: string, now: int): Step
  {
    s.(status := status,
       summary := if summary != "" then summary else s.summary,
       folded := if summary != "" then false else s.folded,
       title := if title != "" then title else s.title,
       finishedAt := if !status.Terminal() then 0 else if s.finishedAt == 0 then now else s.finishedAt,
       updatedAt := now)
  }

  /** The steps in done have been rolled, the others stand; a rolled step's children were rolled before it. */
  ghost predicate PartlyRolled(ns: seq<Step>, cur: seq<Step>, done: set<nat>, now: int)
  {
    && Ordered(ns) && |cur| == |ns|
    && (forall i :: 0 <= i < |ns| ==> cur[i] == if i in done then RolledStep(ns, i, now) else ns[i])
    && (forall i, k :: i in done && i < |ns| && k in KidsAt(ns, i) ==> k in done)
  }

  /** With every root rolled, every step is: a step's parent comes before it. */
  lemma {:induction false} AllDone(ns: seq<Step>, done: set<nat>)
    requires Ordered(ns) && forall i, k :: i in done && i < |ns| && k in KidsAt(ns, i) ==> k in done
    requires forall r :: r in Pick(|ns|, RootSet(ns)) ==> r in done
    ensures forall i :: 0 <= i < |ns| ==> i in done
  {
    forall i | 0 <= i < |ns|
      ensures i in done
    {
      Reached(ns, done, i);
    }
  }

  lemma {:induction false} Reached(ns: seq<Step>, done: set<nat>, i: nat)
    requires Ordered(ns) && i < |ns| && forall i, k :: i in done && i < |ns| && k in KidsAt(ns, i) ==> k in done
    requires forall r :: r in Pick(|ns|, RootSet(ns)) ==> r in done
    ensures i in done
  {
    PickIn(|ns|, RootSet(ns));
    if HasOrd(ns, ns[i].parent) {
      var p :| 0 <= p < |ns| && ns[p].ord == ns[i].parent;
      assert p < i;
      Reached(ns, done, p);
      PickIn(|ns|, KidSet(ns, ns[p].ord));
    }
  }
}
