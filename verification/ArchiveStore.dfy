// The content store of a domain: AppendBatch, DropExpiredArchives, DeleteTopicArchives and QueryArchivesL4 over the
// records and their mirror (internal/content/content.go, internal/repo/l4layer.go).
module ArchiveStores {
  import opened Common
  import opened Archives

  /** The records after a batch, entry by entry. */
  function WriteAll(rs: Records, arcs: seq<Archive>): Records
  {
    if arcs == [] then rs
    else
      var last := arcs[|arcs| - 1];
      WriteAll(rs, arcs[..|arcs| - 1])[last.id := last]
  }

  function Expired(rs: Records, cutoff: int): set<ArchiveId> { set id | id in rs && rs[id].createdAt < cutoff }

  function OfTopics(rs: Records, topics: seq<TopicId>): set<ArchiveId> { set id | id in rs && rs[id].topic in topics }

  // ---- Queries ----

  datatype Query = Query(ids: seq<ArchiveId>, topic: Option<TopicId>, ctype: Option<nat>, kind: Option<nat>, nodes: seq<nat>,
                         keyword: string, start: int, end: int, limit: int)
  {
    /** Nothing but ids is asked for. */
    predicate IdsOnly() {
      ids != [] && topic.None? && ctype.None? && kind.None? && nodes == [] && keyword == "" && start == 0 && end == 0
    }
  }

  /** matchesArchiveQuery; mentions is the case-insensitive substring test. */
  predicate Matches(mentions: (string, string) -> bool, a: Archive, q: Query)
  {
    && (q.ids != [] ==> a.id in q.ids) && (q.topic.Some? ==> a.topic == q.topic.value) && (q.kind.Some? ==> a.kind == q.kind.value)
    && (q.nodes != [] ==> a.node in q.nodes) && (q.ctype.Some? ==> a.ctype == q.ctype.value)
    && (q.keyword != "" ==> mentions(a.body, q.keyword)) && (q.start > 0 ==> a.createdAt >= q.start) && (q.end > 0 ==> a.createdAt <= q.end)
  }

  /** compareArchives: by slot inside one topic, by time and then id across topics. */
  predicate Before(oneTopic: bool, a: Archive, b: Archive)
  {
    if oneTopic then a.seqno < b.seqno else a.createdAt < b.createdAt || (a.createdAt == b.createdAt && a.id < b.id)
  }

  ghost predicate Sorted(oneTopic: bool, xs: seq<Archive>) { forall i, j :: 0 <= i < j < |xs| ==> Before(oneTopic, xs[i], xs[j]) }

  ghost predicate WeaklySorted(oneTopic: bool, xs: seq<Archive>) { forall i, j :: 0 <= i < j < |xs| ==> !Before(oneTopic, xs[j], xs[i]) }

  /** The full answer before the limit: every matching record once, in order. */
  ghost predicate Lists(mentions: (string, string) -> bool, rs: Records, q: Query, xs: seq<Archive>)
  {
    Sorted(q.topic.Some?, xs) && forall a :: a in xs <==> a in rs.Values && Matches(mentions, a, q)
  }

  /** There is one such answer, whatever path produced it. */
  lemma {:induction false} ListingUnique(mentions: (string, string) -> bool, rs: Records, q: Query, xs: seq<Archive>, ys: seq<Archive>)
    requires Lists(mentions, rs, q, xs) && Lists(mentions, rs, q, ys)
    ensures xs == ys
  {
    SortedUnique(q.topic.Some?, xs, ys);
  }

  lemma {:induction false} SortedUnique(one: bool, xs: seq<Archive>, ys: seq<Archive>)
    requires Sorted(one, xs) && Sorted(one, ys) && forall a :: a in xs <==> a in ys
    ensures xs == ys
    decreases |xs|
  {
    if xs == [] {
      if ys != [] {
        var a := Head(ys);
      }
    } else {
      assert xs[0] in xs && ys != [];
      assert ys[0] in ys;
      assert xs[0] == ys[0];
      forall a
        ensures a in xs[1..] <==> a in ys[1..]
      {
        NotHead(one, xs, a);
        NotHead(one, ys, a);
      }
      SortedUnique(one, xs[1..], ys[1..]);
    }
  }

  lemma {:induction false} Head(xs: seq<Archive>) returns (a: Archive)
    requires xs != []
    ensures a in xs
  {
    a := xs[0];
  }

  lemma {:induction false} NotHead(one: bool, xs: seq<Archive>, a: Archive)
    requires Sorted(one, xs) && xs != []
    ensures a in xs[1..] <==> a in xs && a != xs[0]
  {
    assert a in xs <==> a == xs[0] || a in xs[1..];
  }

  function InsertBy(one: bool, xs: seq<Archive>, a: Archive): seq<Archive>
  {
    if xs == [] then [a] else if Before(one, a, xs[0]) then [a] + xs else [xs[0]] + InsertBy(one, xs[1..], a)
  }

  lemma {:induction false} InsertSorts(one: bool, xs: seq<Archive>, a: Archive)
    requires WeaklySorted(one, xs)
    ensures WeaklySorted(one, InsertBy(one, xs, a)) && multiset(InsertBy(one, xs, a)) == multiset(xs) + multiset{a}
  {
    if xs != [] {
      assert xs == [xs[0]] + xs[1..];
      if Before(one, a, xs[0]) {
        WeakCons(one, a, xs);
      } else {
        InsertSorts(one, xs[1..], a);
        var rest := InsertBy(one, xs[1..], a);
        forall x | x in rest
          ensures !Before(one, x, xs[0])
        {
          assert x in multiset(rest);
          assert x == a || x in xs[1..];
        }
        WeakCons(one, xs[0], rest);
      }
    }
  }

  lemma {:induction false} WeakCons(one: bool, a: Archive, xs: seq<Archive>)
    requires WeaklySorted(one, xs) && forall x :: x in xs ==> !Before(one, x, a)
    ensures WeaklySorted(one, [a] + xs)
  {
    var all := [a] + xs;
    forall i, j | 0 <= i < j < |all|
      ensures !Before(one, all[j], all[i])
    {
      assert all[j] == xs[j - 1] && xs[j - 1] in xs;
    }
  }

  /** slices.SortFunc. */
  method SortArchives(one: bool, xs: seq<Archive>) returns (ys: seq<Archive>)
    ensures WeaklySorted(one, ys) && multiset(ys) == multiset(xs)
  {
    ys := [];
    for i := 0 to |xs|
      invariant WeaklySorted(one, ys) && multiset(ys) == multiset(xs[..i])
    {
      assert xs[..i + 1] == xs[..i] + [xs[i]];
      InsertSorts(one, ys, xs[i]);
      ys := InsertBy(one, ys, xs[i]);
    }
    assert xs[..|xs|] == xs;
  }

  lemma {:induction false} DistinctCounts(xs: seq<Archive>)
    ensures Distinct(xs) <==> forall a :: multiset(xs)[a] <= 1
  {
    if xs != [] {
      var rest := xs[1..];
      DistinctCounts(rest);
      assert xs == [xs[0]] + rest;
      assert forall a :: multiset(xs)[a] == multiset(rest)[a] + if a == xs[0] then 1 else 0;
      assert multiset(rest)[xs[0]] > 0 <==> xs[0] in rest;
      assert Distinct(xs) <==> Distinct(rest) && xs[0] !in rest;
    }
  }

  /** Sorting distinct records that the order tells apart sorts them strictly; a repeated one never can be. */
  lemma {:induction false} StrictIffDistinct(one: bool, xs: seq<Archive>, ys: seq<Archive>)
    requires WeaklySorted(one, ys) && multiset(ys) == multiset(xs)
    requires forall a, b :: a in xs && b in xs && a != b ==> Before(one, a, b) || Before(one, b, a)
    ensures Sorted(one, ys) <==> Distinct(xs)
  {
    DistinctCounts(xs);
    DistinctCounts(ys);
    forall a
      ensures a in xs <==> a in ys
    {
      assert a in multiset(xs) <==> a in multiset(ys);
    }
    if Distinct(ys) {
      forall i, j | 0 <= i < j < |ys|
        ensures Before(one, ys[i], ys[j])
      {
        assert ys[i] in xs && ys[j] in xs && ys[i] != ys[j];
      }
    }
    if Sorted(one, ys) {
      forall i, j | 0 <= i < j < |ys|
        ensures ys[i] != ys[j]
      {
        assert Before(one, ys[i], ys[j]);
      }
    }
  }

  /** newest: the tail of an ascending result. */
  function Newest(xs: seq<Archive>, limit: int): seq<Archive>
  {
    if limit <= 0 || |xs| <= limit then xs else xs[|xs| - limit..]
  }

  predicate Repeated(ids: seq<ArchiveId>, rs: Records, id: ArchiveId) { id in rs && multiset(ids)[id] > 1 }

  /** The records the ids name that do not come before this one. */
  function NotBefore(ids: seq<ArchiveId>, rs: Records, id: ArchiveId): set<ArchiveId>
    requires id in rs
  {
    set x | x in ids && x in rs && !Before(false, rs[x], rs[id])
  }

  /** Every repeated id is far enough back that the limit keeps at most one of its rows. */
  ghost predicate RepeatsCutOff(ids: seq<ArchiveId>, rs: Records, limit: int)
  {
    forall id :: Repeated(ids, rs, id) ==> 0 < limit <= |NotBefore(ids, rs, id)|
  }

  /** out is the newest part of the one full listing. */
  ghost predicate Answers(mentions: (string, string) -> bool, rs: Records, q: Query, out: seq<Archive>)
  {
    exists all :: Lists(mentions, rs, q, all) && out == Newest(all, q.limit)
  }

  // ---- What an answer holds, on its own fields ----

  /** Every row answered is a record that passes each filter the query sets. */
  ghost predicate Asked(mentions: (string, string) -> bool, rs: Records, q: Query, out: seq<Archive>)
  {
    forall a :: a in out ==>
      && a.id in rs && rs[a.id] == a
      && (q.ids == [] || a.id in q.ids)
      && (q.topic == None || q.topic == Some(a.topic))
      && (q.kind == None || q.kind == Some(a.kind))
      && (q.nodes == [] || a.node in q.nodes)
      && (q.ctype == None || q.ctype == Some(a.ctype))
      && (q.keyword == "" || mentions(a.body, q.keyword))
      && (0 < q.start ==> q.start <= a.createdAt)
      && (0 < q.end ==> a.createdAt <= q.end)
  }

  /** Every record not answered fails one of the filters, or the limit is spent on rows behind it in the order. */
  ghost predicate LeftOut(mentions: (string, string) -> bool, rs: Records, q: Query, out: seq<Archive>)
  {
    forall a :: a in rs.Values && a !in out ==>
      || (q.ids != [] && a.id !in q.ids)
      || (q.topic.Some? && a.topic != q.topic.value)
      || (q.kind.Some? && a.kind != q.kind.value)
      || (q.nodes != [] && a.node !in q.nodes)
      || (q.ctype.Some? && a.ctype != q.ctype.value)
      || (q.keyword != "" && !mentions(a.body, q.keyword))
      || (0 < q.start && a.createdAt < q.start)
      || (0 < q.end < a.createdAt)
      || (|out| == q.limit && forall b :: b in out ==> NotAfter(q, a, b))
  }

  /** Inside one topic the smaller slot comes first; otherwise the older stamp, and the smaller id at the same stamp. */
  predicate NotAfter(q: Query, a: Archive, b: Archive)
  {
    if q.topic != None then a.seqno <= b.seqno else a.createdAt <= b.createdAt && (a.createdAt == b.createdAt ==> a.id <= b.id)
  }

  /** The rows are in ascending order, and there are no more than the limit. */
  ghost predicate Ascends(q: Query, out: seq<Archive>)
  {
    (q.limit > 0 ==> |out| <= q.limit) && forall i, j :: 0 <= i < j < |out| ==> NotAfter(q, out[i], out[j])
  }

  lemma {:induction false} NewestReads(mentions: (string, string) -> bool, rs: Records, q: Query, sorted: seq<Archive>)
    requires forall id :: id in rs ==> rs[id].id == id
    requires forall a :: a in sorted <==> a in rs.Values && Matches(mentions, a, q)
    requires WeaklySorted(q.topic.Some?, sorted)
    ensures var out := Newest(sorted, q.limit); Asked(mentions, rs, q, out) && LeftOut(mentions, rs, q, out) && Ascends(q, out)
  {
    var out := Newest(sorted, q.limit);
    NewestAscends(q, sorted);
    NewestIsLast(q, sorted);
    hide Newest;
    hide WeaklySorted;
    hide NotAfter;
    hide Ascends;
    assert Asked(mentions, rs, q, out) by {
      hide LeftOut;
      forall a | a in out
        ensures a in rs.Values && Matches(mentions, a, q)
      {
        assert a in sorted;
      }
    }
    hide Asked;
    forall a | a in rs.Values && a !in out
      ensures !Matches(mentions, a, q) || (|out| == q.limit && forall b :: b in out ==> NotAfter(q, a, b))
    {
      hide Matches;
    }
  }

  lemma {:induction false} NewestAscends(q: Query, sorted: seq<Archive>)
    requires WeaklySorted(q.topic.Some?, sorted)
    ensures Ascends(q, Newest(sorted, q.limit)) && forall a :: a in Newest(sorted, q.limit) ==> a in sorted
  {
    var out := Newest(sorted, q.limit);
    var cut := |sorted| - |out|;
    assert out == sorted[cut..];
    forall i, j | 0 <= i < j < |out|
      ensures NotAfter(q, out[i], out[j])
    {
      assert !Before(q.topic.Some?, sorted[cut + j], sorted[cut + i]);
    }
  }

  lemma {:induction false} NewestIsLast(q: Query, sorted: seq<Archive>)
    requires WeaklySorted(q.topic.Some?, sorted)
    ensures var out := Newest(sorted, q.limit);
            forall a :: a in sorted && a !in out ==> |out| == q.limit && forall b :: b in out ==> NotAfter(q, a, b)
  {
    var out := Newest(sorted, q.limit);
    var cut := |sorted| - |out|;
    assert out == sorted[cut..] && sorted == sorted[..cut] + out;
    hide Newest;
    forall a, b | a in sorted && a !in out && b in out
      ensures NotAfter(q, a, b)
    {
      assert a in sorted[..cut];
      var i :| 0 <= i < cut && sorted[i] == a;
      var j :| 0 <= j < |out| && out[j] == b;
      assert !Before(q.topic.Some?, sorted[cut + j], sorted[i]);
    }
  }

  /** out is the newest part of the rows the ids name, each as often as it is named. */
  ghost predicate AnswersEach(rs: Records, q: Query, out: seq<Archive>)
  {
    exists all :: WeaklySorted(q.topic.Some?, all) && multiset(all) == multiset(Found(q.ids, rs)) && out == Newest(all, q.limit)
  }

  function Found(ids: seq<ArchiveId>, rs: Records): seq<Archive>
  {
    if ids == [] then [] else (if ids[0] in rs then [rs[ids[0]]] else []) + Found(ids[1..], rs)
  }

  lemma {:induction false} FoundNext(ids: seq<ArchiveId>, rs: Records, i: nat)
    requires i < |ids|
    ensures Found(ids[i..], rs) == (if ids[i] in rs then [rs[ids[i]]] else []) + Found(ids[i + 1..], rs)
  {
    assert ids[i..][1..] == ids[i + 1..];
  }

  /** Found lists the records the ids name, each as often as its id is listed. */
  lemma {:induction false} FoundFacts(ids: seq<ArchiveId>, rs: Records)
    requires forall id :: id in rs ==> rs[id].id == id
    ensures forall a :: a in Found(ids, rs) <==> a.id in ids && a.id in rs && rs[a.id] == a
    ensures forall id :: id in rs ==> multiset(Found(ids, rs))[rs[id]] == multiset(ids)[id]
  {
    if ids != [] {
      var rest := ids[1..];
      FoundFacts(rest, rs);
      assert ids == [ids[0]] + rest;
      assert forall x :: x in ids <==> x == ids[0] || x in rest;
      if ids[0] in rs {
        assert Found(ids, rs) == [rs[ids[0]]] + Found(rest, rs);
      } else {
        assert Found(ids, rs) == Found(rest, rs);
      }
    }
  }

  /** The one disagreement: an id asked for twice by itself is answered twice, where a full scan answers once. */
  lemma {:induction false} RepeatedIdAnswersTwice(a: Archive)
    ensures Found([a.id, a.id], map[a.id := a]) == [a, a] && !RepeatsCutOff([a.id, a.id], map[a.id := a], 0)
    ensures Query([a.id, a.id], None, None, None, [], "", 0, 0, 0).IdsOnly()
  {
    var ids, rs := [a.id, a.id], map[a.id := a];
    assert ids[1..] == [a.id] && [a.id][1..] == [];
    assert Found([a.id], rs) == [a] + Found([], rs) == [a];
    assert Found(ids, rs) == [a] + Found([a.id], rs);
    assert Repeated(ids, rs, a.id);
  }

  // ---- What a limit keeps of a listing with repeats ----

  ghost predicate Total(one: bool, xs: seq<Archive>)
  {
    forall a, b :: a in xs && b in xs && a != b ==> Before(one, a, b) || Before(one, b, a)
  }

  /** The last n of xs, all of it when there are fewer. */
  function Tail(xs: seq<Archive>, n: nat): seq<Archive> { if |xs| <= n then xs else xs[|xs| - n..] }

  /** A sorted list with each record once. */
  function Once(xs: seq<Archive>): seq<Archive>
  {
    if xs == [] then []
    else
      var front, last := xs[..|xs| - 1], xs[|xs| - 1];
      if last in front then Once(front) else Once(front) + [last]
  }

  lemma {:induction false} OnceSorts(one: bool, xs: seq<Archive>)
    requires WeaklySorted(one, xs) && Total(one, xs)
    ensures Sorted(one, Once(xs)) && (forall a :: a in Once(xs) <==> a in xs) && |Once(xs)| <= |xs|
  {
    if xs != [] {
      var front, last := xs[..|xs| - 1], xs[|xs| - 1];
      assert xs == front + [last];
      OnceSorts(one, front);
      forall a | a in Once(front) && a != last
        ensures Before(one, a, last)
      {
        var i :| 0 <= i < |front| && front[i] == a;
        assert xs[i] == a && last in xs;
      }
    }
  }

  ghost function Later(one: bool, xs: seq<Archive>, z: Archive): set<Archive> { set y | y in xs && !Before(one, y, z) }

  ghost predicate FarBack(one: bool, xs: seq<Archive>, n: nat)
  {
    forall z :: multiset(xs)[z] > 1 ==> |Later(one, xs, z)| >= n
  }

  lemma {:induction false} FrontSorted(one: bool, front: seq<Archive>, last: Archive)
    requires WeaklySorted(one, front + [last]) && Total(one, front + [last])
    ensures WeaklySorted(one, front) && Total(one, front)
    ensures forall y :: y in front && y != last ==> Before(one, y, last)
  {
    var xs := front + [last];
    assert forall i :: 0 <= i < |front| ==> xs[i] == front[i];
    assert forall y :: y in front ==> y in xs;
    forall y | y in front && y != last
      ensures Before(one, y, last)
    {
      var i :| 0 <= i < |front| && front[i] == y;
      assert xs[i] == y && xs[|front|] == last && last in xs;
    }
  }

  /** The last n rows are the last n different ones exactly when every repeated row has n different ones from it on. */
  lemma {:induction false} TailOfRepeats(one: bool, xs: seq<Archive>, n: nat)
    requires WeaklySorted(one, xs) && Total(one, xs)
    ensures Tail(xs, n) == Tail(Once(xs), n) <==> FarBack(one, xs, n)
    decreases |xs|
  {
    hide WeaklySorted;
    hide Total;
    hide FarBack;
    if xs == [] || n == 0 {
      NothingKept(one, xs, n);
    } else {
      hide Tail;
      var front, last := xs[..|xs| - 1], xs[|xs| - 1];
      assert xs == front + [last];
      if last in front {
        assert Once(xs) == Once(front);
        hide Once;
        LastRepeats(one, front, last, n);
      } else {
        assert Once(xs) == Once(front) + [last];
        hide Once;
        FrontSorted(one, front, last);
        TailOfRepeats(one, front, n - 1);
        LastIsNew(one, front, last, n);
        OneRowMore(front, Once(front), last, n);
      }
    }
  }

  lemma {:induction false} NothingKept(one: bool, xs: seq<Archive>, n: nat)
    requires xs == [] || n == 0
    ensures Tail(xs, n) == Tail(Once(xs), n) && FarBack(one, xs, n)
  {
    assert n == 0 ==> Tail(xs, 0) == [] == Tail(Once(xs), 0);
  }

  lemma {:induction false} OneRowMore(xs: seq<Archive>, ys: seq<Archive>, last: Archive, n: nat)
    requires n > 0
    ensures Tail(xs + [last], n) == Tail(ys + [last], n) <==> Tail(xs, n - 1) == Tail(ys, n - 1)
  {
    TailSnoc(xs, last, n);
    TailSnoc(ys, last, n);
    var x, y := Tail(xs, n - 1), Tail(ys, n - 1);
    assert (x + [last])[..|x|] == x && (y + [last])[..|y|] == y;
  }

  lemma {:induction false} TailSnoc(xs: seq<Archive>, last: Archive, n: nat)
    requires n > 0
    ensures Tail(xs + [last], n) == Tail(xs, n - 1) + [last]
  {
  }

  lemma {:induction false} LastIsNew(one: bool, front: seq<Archive>, last: Archive, n: nat)
    requires WeaklySorted(one, front + [last]) && Total(one, front + [last]) && last !in front && n > 0
    ensures FarBack(one, front + [last], n) <==> FarBack(one, front, n - 1)
  {
    var xs := front + [last];
    forall z | z in front
      ensures |Later(one, xs, z)| == |Later(one, front, z)| + 1
    {
      assert z in xs && last in xs;
      assert !Before(one, last, z);
      assert Later(one, xs, z) == Later(one, front, z) + {last};
    }
    assert multiset(front)[last] == 0;
    assert forall z :: multiset(xs)[z] > 1 <==> multiset(front)[z] > 1;
    assert forall z :: multiset(front)[z] > 1 ==> z in front;
  }

  /** A list that ends in last, and its front as well, ends in two of it; listed once it ends in one. */
  lemma {:induction false} EndsInTwo(one: bool, front: seq<Archive>, last: Archive)
    requires WeaklySorted(one, front + [last]) && Total(one, front + [last]) && last in front
    ensures front[|front| - 1] == last
    ensures Sorted(one, Once(front)) && Once(front) != [] && Once(front)[|Once(front)| - 1] == last
  {
    FrontSorted(one, front, last);
    OnceSorts(one, front);
    var i :| 0 <= i < |front| && front[i] == last;
    assert front[|front| - 1] in front;
    var d := Once(front);
    var k :| 0 <= k < |d| && d[k] == last;
    assert d[|d| - 1] in front;
    assert k < |d| - 1 ==> Before(one, last, d[|d| - 1]);
  }

  lemma {:induction false} LastRepeats(one: bool, front: seq<Archive>, last: Archive, n: nat)
    requires WeaklySorted(one, front + [last]) && Total(one, front + [last]) && last in front && n > 0
    ensures Tail(front + [last], n) == Tail(Once(front), n) <==> FarBack(one, front + [last], n)
  {
    var xs, d := front + [last], Once(front);
    FrontSorted(one, front, last);
    EndsInTwo(one, front, last);
    hide WeaklySorted;
    hide Total;
    hide Once;
    OnlyItself(one, front, last);
    if n == 1 {
      assert FarBack(one, xs, 1) by { EveryRowIsLater(one, xs); }
    } else {
      assert !FarBack(one, xs, n);
      hide FarBack;
      OneAgainstTwo(one, front, d, last, n);
    }
  }

  lemma {:induction false} OneAgainstTwo(one: bool, front: seq<Archive>, d: seq<Archive>, last: Archive, n: nat)
    requires front != [] && front[|front| - 1] == last && Sorted(one, d) && d != [] && d[|d| - 1] == last && n >= 2
    ensures Tail(front + [last], n) != Tail(d, n)
  {
    var t, u := Tail(front + [last], n), Tail(d, n);
    assert t[|t| - 1] == t[|t| - 2] == last;
    assert |u| >= 2 ==> u[|u| - 2] == d[|d| - 2] && Before(one, d[|d| - 2], last);
  }

  lemma {:induction false} OnlyItself(one: bool, front: seq<Archive>, last: Archive)
    requires last in front && forall y :: y in front && y != last ==> Before(one, y, last)
    ensures Later(one, front + [last], last) == {last} && multiset(front + [last])[last] > 1
  {
    assert multiset(front)[last] > 0;
  }

  lemma {:induction false} EveryRowIsLater(one: bool, xs: seq<Archive>)
    ensures FarBack(one, xs, 1)
  {
    forall z | multiset(xs)[z] > 1
      ensures |Later(one, xs, z)| >= 1
    {
      assert z in Later(one, xs, z);
    }
  }

  /** The order tells any two records a query selects apart. */
  lemma {:induction false} OrderTellsApart(hash: (TopicId, nat) -> ArchiveId, mentions: (string, string) -> bool, rs: Records, q: Query, a: Archive, b: Archive)
    requires Addressed(hash, rs) && a in rs.Values && b in rs.Values && a != b
    requires Matches(mentions, a, q) && Matches(mentions, b, q)
    ensures Before(q.topic.Some?, a, b) || Before(q.topic.Some?, b, a)
  {
    assert a.id in rs && rs[a.id] == a && b.id in rs && rs[b.id] == b;
  }

  method Filter(mentions: (string, string) -> bool, q: Query, xs: seq<Archive>) returns (ys: seq<Archive>)
    ensures forall a :: a in ys <==> a in xs && Matches(mentions, a, q)
    ensures Distinct(xs) ==> Distinct(ys)
    ensures (forall a :: a in xs ==> Matches(mentions, a, q)) ==> ys == xs
  {
    ys := [];
    for i := 0 to |xs|
      invariant forall a :: a in ys <==> a in xs[..i] && Matches(mentions, a, q)
      invariant Distinct(xs) ==> Distinct(ys)
      invariant (forall a :: a in xs ==> Matches(mentions, a, q)) ==> ys == xs[..i]
    {
      hide Matches;
      assert xs[..i + 1] == xs[..i] + [xs[i]] && xs[i] in xs;
      if Matches(mentions, xs[i], q) {
        assert Distinct(xs) ==> xs[i] !in xs[..i];
        if Distinct(xs) {
          JoinDistinct(ys, [xs[i]]);
        }
        ys := ys + [xs[i]];
      }
    }
    assert xs[..|xs|] == xs;
  }

  class ArchiveStore {
    const hash: (TopicId, nat) -> ArchiveId
    const mentions: (string, string) -> bool
    var records: Records
    var index: L4Index

    ghost predicate Valid()
      reads this, index
    {
      Addressed(hash, records) && Mirrors(index.byTopic, records) && forall id :: id in records ==> records[id].seqno <= MAX_SEQ
    }

    /** A domain's context: its records, with the mirror rebuilt from them. */
    constructor (hash: (TopicId, nat) -> ArchiveId, mentions: (string, string) -> bool, records: Records)
      requires Addressed(hash, records) && forall id :: id in records ==> records[id].seqno <= MAX_SEQ
      ensures Valid() && this.records == records && fresh(index)
    {
      var idx := BuildL4(records, hash);
      this.hash, this.mentions, this.records, index := hash, mentions, records, idx;
    }

    /** AppendBatch: slots allocated or kept as named, one batch of writes, then the mirror. */
    method AppendBatch(topic: TopicId, drafts: seq<Archive>) returns (slots: seq<nat>)
      requires Valid() && forall i :: 0 <= i < |drafts| ==> drafts[i].seqno <= MAX_SEQ
      modifies this`records, index
      ensures Valid() && |slots| == |drafts|
      ensures Written(hash, old(records), topic, drafts, slots, records)
      ensures forall i :: 0 <= i < |slots| ==> slots[i] <= MAX_SEQ && (drafts[i].seqno != 0 ==> slots[i] == drafts[i].seqno)
      ensures forall i, top: nat :: 0 <= i < |slots| && drafts[i].seqno == 0 && IsTop(top, Held(old(records), topic)) ==>
                Fitting(slots, Held(old(records), topic), i, Peak(top, NamedSlots(drafts)[..i]))
    {
      var top := index.MaxSeq(topic);
      HeldByMirror(index.byTopic, records, topic, top);
      hide Mirrors;
      assert forall s: nat, s': nat :: hash(topic, s) == hash(topic, s') ==> s == s';
      hide Addressed;
      hide Written;
      var named := NamedSlots(drafts);
      assert forall other: nat :: IsTop(other, Held(records, topic)) ==> other == top;
      hide Held;
      hide IsTop;
      hide Peak;
      hide Fitting;
      slots := AllocateSlots(top, Held(records, topic), named);
      BatchIsWritten(hash, records, topic, drafts, slots);
      var arcs := Prepared(hash, topic, drafts, slots);
      BoundedWrites(records, arcs);
      ghost var was := records;
      records := WriteAll(records, arcs);
      MirrorBatch(arcs, was);
    }

    /** The mirror takes the batch one record at a time, in batch order. */
    method MirrorBatch(arcs: seq<Archive>, ghost rs: Records)
      requires Mirrors(index.byTopic, rs) && Addressed(hash, rs) && forall i :: 0 <= i < |arcs| ==> arcs[i].id == hash(arcs[i].topic, arcs[i].seqno)
      modifies index
      ensures Mirrors(index.byTopic, WriteAll(rs, arcs)) && Addressed(hash, WriteAll(rs, arcs))
    {
      hide Mirrors;
      hide Addressed;
      assert arcs[..0] == [];
      for i := 0 to |arcs|
        invariant Mirrors(index.byTopic, WriteAll(rs, arcs[..i])) && Addressed(hash, WriteAll(rs, arcs[..i]))
      {
        assert arcs[..i + 1][..i] == arcs[..i] && arcs[..i + 1][i] == arcs[i];
        index.Append(arcs[i], hash, WriteAll(rs, arcs[..i]));
      }
      assert arcs[..|arcs|] == arcs;
    }

    /** DropExpiredArchives: exactly the records from before the cutoff, out of both. */
    method DropExpired(cutoff: int)
      requires Valid()
      modifies this`records, index
      ensures Valid() && records == old(records) - Expired(old(records), cutoff)
    {
      var expired := index.ExpiredBefore(cutoff);
      ExpiredByMirror(index.byTopic, records, cutoff, expired);
      hide Mirrors;
      LessAddressed(hash, records, Expired(records, cutoff));
      hide Addressed;
      hide Taken;
      ForgetExpired(expired, records);
      records := records - Taken(expired, expired.Keys);
    }

    method ForgetExpired(expired: map<TopicId, set<ArchiveId>>, ghost rs: Records)
      requires Mirrors(index.byTopic, rs)
      requires forall t, id :: t in expired && id in expired[t] ==> id in rs && rs[id].topic == t
      modifies index
      ensures Mirrors(index.byTopic, rs - Taken(expired, expired.Keys))
    {
      hide Mirrors;
      var todo := expired.Keys;
      assert expired.Keys - todo == {} && rs - Taken(expired, {}) == rs;
      while todo != {}
        invariant todo <= expired.Keys && Mirrors(index.byTopic, rs - Taken(expired, expired.Keys - todo))
        decreases |todo|
      {
        var t :| t in todo;
        TakenMore(rs, expired, todo, t);
        index.RemoveIDs(t, expired[t], rs - Taken(expired, expired.Keys - todo));
        todo := todo - {t};
      }
      assert expired.Keys - {} == expired.Keys;
    }

    /** DeleteTopicArchives: everything the topics own, out of both. */
    method DeleteTopics(topics: seq<TopicId>)
      requires Valid()
      modifies this`records, index
      ensures Valid() && records == old(records) - OfTopics(old(records), topics)
    {
      hide Mirrors;
      var doomed := Doomed(topics);
      LessAddressed(hash, records, doomed);
      hide Addressed;
      ForgetTopics(topics, records);
      records := records - doomed;
    }

    method Doomed(topics: seq<TopicId>) returns (doomed: set<ArchiveId>)
      requires Mirrors(index.byTopic, records)
      ensures doomed == OfTopics(records, topics)
    {
      hide Mirrors;
      doomed := {};
      for i := 0 to |topics|
        invariant doomed == OfTopics(records, topics[..i])
      {
        var ids := index.AllIDs(topics[i], records);
        assert topics[..i + 1] == topics[..i] + [topics[i]];
        doomed := doomed + set id | id in ids;
      }
      assert topics[..|topics|] == topics;
    }

    method ForgetTopics(topics: seq<TopicId>, ghost rs: Records)
      requires Mirrors(index.byTopic, rs)
      modifies index
      ensures Mirrors(index.byTopic, rs - OfTopics(rs, topics))
    {
      hide Mirrors;
      assert rs - OfTopics(rs, topics[..0]) == rs;
      for i := 0 to |topics|
        invariant Mirrors(index.byTopic, rs - OfTopics(rs, topics[..i]))
      {
        RemoveTopicMirrors(index.byTopic, rs - OfTopics(rs, topics[..i]), topics[i]);
        OneTopicMore(rs, topics, i);
        index.RemoveTopic(topics[i]);
      }
      assert topics[..|topics|] == topics;
    }

    /**
     * QueryArchivesL4. A topic-scoped query through the mirror and a full scan, of one topic or of all, give the
     * newest part of the one full listing. A query by ids alone gives the newest part of one row per id that names a
     * record; that is the same exactly when the limit cuts off all but one row of every repeated id.
     */
    method QueryArchives(q: Query, indexed: bool) returns (out: seq<Archive>)
      requires Valid()
      ensures Answers(mentions, records, q, out) <==> !q.IdsOnly() || RepeatsCutOff(q.ids, records, q.limit)
      ensures q.IdsOnly() ==> AnswersEach(records, q, out)
      ensures Asked(mentions, records, q, out) && LeftOut(mentions, records, q, out) && Ascends(q, out)
    {
      var xs: seq<Archive>;
      if q.topic.Some? && indexed {
        var ids := index.AllIDs(q.topic.value, records);
        xs := ReadArchives(ids);
      } else if q.IdsOnly() {
        xs := ListByID(q.ids);
      } else {
        xs := CollectAll();
      }
      var filtered := Filter(mentions, q, xs);
      var sorted := SortArchives(q.topic.Some?, filtered);
      Answered(hash, mentions, records, q, xs, filtered, sorted);
      NewestReads(mentions, records, q, sorted);
      out := Newest(sorted, q.limit);
      if q.IdsOnly() {
        IdsAnswered(mentions, records, q, sorted);
      }
    }

    method ReadArchives(ids: seq<ArchiveId>) returns (xs: seq<Archive>)
      requires Valid() && (forall id :: id in ids ==> id in records)
      requires forall i, j :: 0 <= i < j < |ids| ==> ids[i] in records && ids[j] in records && records[ids[i]].seqno < records[ids[j]].seqno
      ensures Distinct(xs) && forall a :: a in xs <==> a in records.Values && a.id in ids
    {
      xs := [];
      for i := 0 to |ids|
        invariant |xs| == i && forall j :: 0 <= j < i ==> ids[j] in records && xs[j] == records[ids[j]]
      {
        assert ids[i] in ids;
        xs := xs + [records[ids[i]]];
      }
      hide Mirrors;
      forall a | a in records.Values && a.id in ids
        ensures a in xs
      {
        var i :| 0 <= i < |ids| && ids[i] == a.id;
        assert xs[i] == a;
      }
      forall a | a in xs
        ensures a in records.Values && a.id in ids
      {
        var i :| 0 <= i < |xs| && xs[i] == a;
        assert ids[i] in ids && records[ids[i]] == a;
      }
    }

    /** listByID: ids that name nothing are skipped, the others answered as often as they are listed. */
    method ListByID(ids: seq<ArchiveId>) returns (xs: seq<Archive>)
      ensures xs == Found(ids, records)
    {
      xs := [];
      assert ids[0..] == ids && ids[|ids|..] == [];
      assert Found(ids[|ids|..], records) == [];
      hide Found;
      for i := 0 to |ids|
        invariant Found(ids, records) == xs + Found(ids[i..], records)
      {
        FoundNext(ids, records, i);
        Assoc(xs, if ids[i] in records then [records[ids[i]]] else [], Found(ids[i + 1..], records));
        if ids[i] in records {
          xs := xs + [records[ids[i]]];
        }
      }
    }

    method CollectAll() returns (xs: seq<Archive>)
      requires Valid()
      ensures Distinct(xs) && forall a :: a in xs <==> a in records.Values
    {
      hide Mirrors;
      xs := [];
      var todo := records.Keys;
      while todo != {}
        invariant todo <= records.Keys && Distinct(xs)
        invariant forall a :: a in xs <==> a in records.Values && a.id !in todo
        decreases |todo|
      {
        var id :| id in todo;
        assert records[id] !in xs;
        JoinDistinct(xs, [records[id]]);
        xs := xs + [records[id]];
        todo := todo - {id};
      }
    }
  }

  function Prepared(hash: (TopicId, nat) -> ArchiveId, topic: TopicId, drafts: seq<Archive>, slots: seq<nat>): (arcs: seq<Archive>)
    requires |slots| == |drafts|
    ensures |arcs| == |drafts|
    ensures forall i :: 0 <= i < |drafts| ==> arcs[i] == AtAddress(hash, topic, drafts[i], slots[i])
  {
    seq(|drafts|, i requires 0 <= i < |drafts| => AtAddress(hash, topic, drafts[i], slots[i]))
  }

  /** A draft at its address; an event carries no medium. */
  function AtAddress(hash: (TopicId, nat) -> ArchiveId, topic: TopicId, draft: Archive, slot: nat): Archive
  {
    var placed := draft.(topic := topic, seqno := slot, id := hash(topic, slot));
    if draft.kind == KIND_EVENT then placed.(ctype := CONTENT_TEXT) else placed
  }

  /**
   * What a batch leaves: at each address it names the last draft sent there, field by field, and every other record as
   * it stood.
   */
  ghost predicate Written(hash: (TopicId, nat) -> ArchiveId, was: Records, topic: TopicId, drafts: seq<Archive>, slots: seq<nat>, rs: Records)
    requires |slots| == |drafts|
  {
    && (forall id :: (forall i :: 0 <= i < |slots| ==> hash(topic, slots[i]) != id) ==> (id in rs <==> id in was))
    && (forall id :: id in was && (forall i :: 0 <= i < |slots| ==> hash(topic, slots[i]) != id) ==> id in rs && rs[id] == was[id])
    && forall i :: 0 <= i < |slots| && (forall j :: i < j < |slots| ==> slots[j] != slots[i]) ==>
         Stands(rs, hash(topic, slots[i]), topic, slots[i], drafts[i])
  }

  ghost predicate Stands(rs: Records, id: ArchiveId, topic: TopicId, slot: nat, draft: Archive)
  {
    && id in rs && rs[id].id == id && rs[id].topic == topic && rs[id].seqno == slot && rs[id].kind == draft.kind
    && rs[id].node == draft.node && rs[id].createdAt == draft.createdAt && rs[id].body == draft.body
    && rs[id].ctype == if draft.kind == KIND_EVENT then CONTENT_TEXT else draft.ctype
  }

  lemma {:induction false} BatchIsWritten(hash: (TopicId, nat) -> ArchiveId, was: Records, topic: TopicId, drafts: seq<Archive>, slots: seq<nat>)
    requires |slots| == |drafts| && forall s: nat, s': nat :: hash(topic, s) == hash(topic, s') ==> s == s'
    ensures Written(hash, was, topic, drafts, slots, WriteAll(was, Prepared(hash, topic, drafts, slots)))
  {
    var arcs := Prepared(hash, topic, drafts, slots);
    var rs := WriteAll(was, arcs);
    forall id | forall i :: 0 <= i < |slots| ==> hash(topic, slots[i]) != id
      ensures id in rs <==> id in was
      ensures id in was ==> id in rs && rs[id] == was[id]
    {
      NotWritten(was, arcs, id);
    }
    forall i | 0 <= i < |slots| && forall j :: i < j < |slots| ==> slots[j] != slots[i]
      ensures Stands(rs, hash(topic, slots[i]), topic, slots[i], drafts[i])
    {
      LastWrite(was, arcs, i);
    }
  }

  lemma {:induction false} NotWritten(rs: Records, arcs: seq<Archive>, id: ArchiveId)
    requires forall i :: 0 <= i < |arcs| ==> arcs[i].id != id
    ensures id in WriteAll(rs, arcs) <==> id in rs
    ensures id in rs ==> WriteAll(rs, arcs)[id] == rs[id]
  {
    if arcs != [] {
      NotWritten(rs, arcs[..|arcs| - 1], id);
    }
  }

  lemma {:induction false} LastWrite(rs: Records, arcs: seq<Archive>, i: nat)
    requires i < |arcs| && forall j :: i < j < |arcs| ==> arcs[j].id != arcs[i].id
    ensures arcs[i].id in WriteAll(rs, arcs) && WriteAll(rs, arcs)[arcs[i].id] == arcs[i]
  {
    if i < |arcs| - 1 {
      var front := arcs[..|arcs| - 1];
      assert forall j :: 0 <= j < |front| ==> front[j] == arcs[j];
      LastWrite(rs, front, i);
      assert arcs[|arcs| - 1].id != arcs[i].id;
    }
  }

  /** The slots the caller asked for, 0 for any. */
  function NamedSlots(drafts: seq<Archive>): (named: seq<nat>)
    ensures |named| == |drafts| && forall i :: 0 <= i < |drafts| ==> named[i] == drafts[i].seqno
  {
    seq(|drafts|, i requires 0 <= i < |drafts| => drafts[i].seqno)
  }

  lemma {:induction false} BoundedWrites(rs: Records, arcs: seq<Archive>)
    requires (forall id :: id in rs ==> rs[id].seqno <= MAX_SEQ) && forall a :: a in arcs ==> a.seqno <= MAX_SEQ
    ensures forall id :: id in WriteAll(rs, arcs) ==> WriteAll(rs, arcs)[id].seqno <= MAX_SEQ
  {
    if arcs != [] {
      assert arcs[|arcs| - 1] in arcs;
      BoundedWrites(rs, arcs[..|arcs| - 1]);
    }
  }

  ghost function Held(rs: Records, topic: TopicId): set<nat> { set id | id in rs && rs[id].topic == topic :: rs[id].seqno }

  lemma {:induction false} HeldByMirror(m: ByTopic, rs: Records, topic: TopicId, top: nat)
    requires Mirrors(m, rs) && (forall e :: e in Of(m, topic) ==> e.seqno <= top) && (top == 0 || exists e :: e in Of(m, topic) && e.seqno == top)
    requires forall id :: id in rs ==> rs[id].seqno <= MAX_SEQ
    ensures top <= MAX_SEQ && IsTop(top, Held(rs, topic))
  {
    forall h | h in Held(rs, topic)
      ensures h <= top
    {
      var id :| id in rs && rs[id].topic == topic && rs[id].seqno == h;
      assert EntryOf(rs[id]) in Of(m, topic);
    }
    if top != 0 {
      var e :| e in Of(m, topic) && e.seqno == top;
      assert e.id in rs && rs[e.id].topic == topic && rs[e.id].seqno == top;
    }
  }

  lemma {:induction false} LessAddressed(hash: (TopicId, nat) -> ArchiveId, rs: Records, gone: set<ArchiveId>)
    requires Addressed(hash, rs)
    ensures Addressed(hash, rs - gone)
  {
  }

  lemma {:induction false} OneTopicMore(rs: Records, topics: seq<TopicId>, i: nat)
    requires i < |topics|
    ensures var left := rs - OfTopics(rs, topics[..i]);
            left - OfTopics(left, [topics[i]]) == rs - OfTopics(rs, topics[..i + 1])
  {
    assert topics[..i + 1] == topics[..i] + [topics[i]];
    var left := rs - OfTopics(rs, topics[..i]);
    forall id
      ensures id in left - OfTopics(left, [topics[i]]) <==> id in rs - OfTopics(rs, topics[..i + 1])
    {
    }
  }

  /** The ids the given topics lose. */
  function Taken(expired: map<TopicId, set<ArchiveId>>, topics: set<TopicId>): set<ArchiveId>
  {
    set t, id | t in topics && t in expired && id in expired[t] :: id
  }

  lemma {:induction false} TakenMore(rs: Records, expired: map<TopicId, set<ArchiveId>>, todo: set<TopicId>, t: TopicId)
    requires t in todo && todo <= expired.Keys
    ensures (rs - Taken(expired, expired.Keys - todo)) - expired[t] == rs - Taken(expired, expired.Keys - (todo - {t}))
  {
    var a, b := Taken(expired, expired.Keys - todo), Taken(expired, expired.Keys - (todo - {t}));
    assert b == a + expired[t];
  }

  lemma {:induction false} ExpiredByMirror(m: ByTopic, rs: Records, cutoff: int, expired: map<TopicId, set<ArchiveId>>)
    requires Mirrors(m, rs) && (forall t :: t in expired <==> t in m)
    requires forall t :: t in expired ==> expired[t] == set e | e in m[t] && e.createdAt < cutoff :: e.id
    ensures Taken(expired, expired.Keys) == Expired(rs, cutoff)
    ensures forall t, id :: t in expired && id in expired[t] ==> id in rs && rs[id].topic == t
  {
    forall t, id | t in expired && id in expired[t]
      ensures id in rs && rs[id].createdAt < cutoff && rs[id].topic == t
    {
      var e :| e in m[t] && e.createdAt < cutoff && e.id == id;
      assert e in Of(m, t);
    }
    forall id | id in rs && rs[id].createdAt < cutoff
      ensures rs[id].topic in expired && id in expired[rs[id].topic]
    {
      assert EntryOf(rs[id]) in Of(m, rs[id].topic);
      assert rs[id].topic in m;
    }
    hide Mirrors;
  }

  lemma {:induction false} RemoveTopicMirrors(m: ByTopic, rs: Records, t: TopicId)
    requires Mirrors(m, rs)
    ensures Mirrors(m - {t}, rs - OfTopics(rs, [t]))
  {
    hide Rising;
    forall u: TopicId
      ensures Of(m - {t}, u) == if u == t then [] else Of(m, u)
    {
    }
    var left := rs - OfTopics(rs, [t]);
    assert forall id :: id in left <==> id in rs && rs[id].topic != t;
  }

  lemma {:induction false} Answered(hash: (TopicId, nat) -> ArchiveId, mentions: (string, string) -> bool, rs: Records, q: Query,
                                    xs: seq<Archive>, filtered: seq<Archive>, sorted: seq<Archive>)
    requires Addressed(hash, rs) && WeaklySorted(q.topic.Some?, sorted) && multiset(sorted) == multiset(filtered)
    requires (forall a :: a in filtered <==> a in xs && Matches(mentions, a, q)) && (Distinct(xs) ==> Distinct(filtered))
    requires (forall a :: a in xs ==> Matches(mentions, a, q)) ==> filtered == xs
    requires if q.IdsOnly() then xs == Found(q.ids, rs)
             else Distinct(xs) && forall a :: (a in xs ==> a in rs.Values) && (a in rs.Values && Matches(mentions, a, q) ==> a in xs)
    ensures !q.IdsOnly() ==> Lists(mentions, rs, q, sorted)
    ensures q.IdsOnly() ==> multiset(sorted) == multiset(Found(q.ids, rs)) && Total(false, sorted)
    ensures q.IdsOnly() ==> forall a :: a in sorted <==> a in rs.Values && Matches(mentions, a, q)
  {
    if q.IdsOnly() {
      FoundFacts(q.ids, rs);
      assert forall a :: a in xs ==> Matches(mentions, a, q);
    }
    forall a
      ensures a in sorted <==> a in rs.Values && Matches(mentions, a, q)
    {
      assert a in multiset(sorted) <==> a in multiset(filtered);
    }
    forall a, b | a in filtered && b in filtered && a != b
      ensures Before(q.topic.Some?, a, b) || Before(q.topic.Some?, b, a)
    {
      OrderTellsApart(hash, mentions, rs, q, a, b);
    }
    hide Matches;
    StrictIffDistinct(q.topic.Some?, filtered, sorted);
  }

  /** The ids path, limit included: the answer is the full scan's exactly when the limit cuts the repeats off. */
  lemma {:induction false} IdsAnswered(mentions: (string, string) -> bool, rs: Records, q: Query, sorted: seq<Archive>)
    requires q.IdsOnly() && (forall id :: id in rs ==> rs[id].id == id)
    requires WeaklySorted(false, sorted) && Total(false, sorted) && multiset(sorted) == multiset(Found(q.ids, rs))
    requires forall a :: a in sorted <==> a in rs.Values && Matches(mentions, a, q)
    ensures Answers(mentions, rs, q, Newest(sorted, q.limit)) <==> RepeatsCutOff(q.ids, rs, q.limit)
  {
    hide Matches;
    var d, n := Once(sorted), if q.limit > 0 then q.limit else |sorted| + 1;
    OnceSorts(false, sorted);
    TailOfRepeats(false, sorted, n);
    assert Newest(sorted, q.limit) == Tail(sorted, n) && Newest(d, q.limit) == Tail(d, n);
    assert Lists(mentions, rs, q, d);
    if Answers(mentions, rs, q, Newest(sorted, q.limit)) {
      var all :| Lists(mentions, rs, q, all) && Newest(sorted, q.limit) == Newest(all, q.limit);
      ListingUnique(mentions, rs, q, all, d);
    }
    RepeatsOfIds(rs, q.ids, sorted, q.limit, n);
  }

  lemma {:induction false} RepeatsOfIds(rs: Records, ids: seq<ArchiveId>, sorted: seq<Archive>, limit: int, n: nat)
    requires (forall id :: id in rs ==> rs[id].id == id) && multiset(sorted) == multiset(Found(ids, rs))
    requires n == if limit > 0 then limit else |sorted| + 1
    ensures FarBack(false, sorted, n) <==> RepeatsCutOff(ids, rs, limit)
  {
    FoundFacts(ids, rs);
    forall a
      ensures a in sorted <==> a.id in ids && a.id in rs && rs[a.id] == a
    {
      assert a in multiset(sorted) <==> a in Found(ids, rs);
    }
    hide Found;
    forall id | Repeated(ids, rs, id)
      ensures multiset(sorted)[rs[id]] > 1 && |Later(false, sorted, rs[id])| == |NotBefore(ids, rs, id)| <= |sorted|
    {
      LaterIds(rs, ids, sorted, id);
    }
    forall z | multiset(sorted)[z] > 1
      ensures z.id in rs && rs[z.id] == z && Repeated(ids, rs, z.id)
    {
      assert z in sorted;
    }
  }

  lemma {:induction false} LaterIds(rs: Records, ids: seq<ArchiveId>, sorted: seq<Archive>, id: ArchiveId)
    requires id in rs && (forall x :: x in rs ==> rs[x].id == x)
    requires forall a :: a in sorted <==> a.id in ids && a.id in rs && rs[a.id] == a
    ensures |Later(false, sorted, rs[id])| == |NotBefore(ids, rs, id)| <= |sorted|
  {
    var rows, names := Later(false, sorted, rs[id]), NotBefore(ids, rs, id);
    assert rows == set x | x in names :: rs[x];
    ImageSize(names, rs);
    ElementsBound(sorted, rows);
  }

  lemma {:induction false} ImageSize(names: set<ArchiveId>, rs: Records)
    requires names <= rs.Keys && forall x :: x in rs ==> rs[x].id == x
    ensures |set x | x in names :: rs[x]| == |names|
    decreases |names|
  {
    if names != {} {
      var x :| x in names;
      ImageSize(names - {x}, rs);
      assert (set y | y in names :: rs[y]) == (set y | y in names - {x} :: rs[y]) + {rs[x]};
    }
  }

  lemma {:induction false} ElementsBound(xs: seq<Archive>, some: set<Archive>)
    requires forall a :: a in some ==> a in xs
    ensures |some| <= |xs|
  {
    if xs != [] {
      ElementsBound(xs[1..], some - {xs[0]});
    }
  }
}
