// Importing knowledge into L3 graphs: internal/graph/import.go, the field merge of internal/cap/knowledge/nodemerge.go
// and the two passes of ImportL3 (internal/l3.go).
module GraphImports {
  import opened Common

  type GraphId = nat
  type Key = (GraphId, string)

  datatype Node = Node(ntype: string, content: string, keywords: seq<string>, source: Option<string>, updatedAt: int)
  {
    /** Everything but the clock. */
    function Said(): Node { this.(updatedAt := 0) }
  }

  datatype Relation = Relation(kind: nat, titles: seq<string>)

  datatype Item = Item(domain: string, title: string, ntype: string, content: string, keywords: seq<string>, source: string,
                       related: seq<Relation>)

  datatype Mode = Skip | Merge | Overwrite

  const EDGE_KINDS: nat := 6

  // ---- Field merging ----

  predicate StandsAt(hay: string, needle: string, i: nat) { i + |needle| <= |hay| && hay[i..i + |needle|] == needle }

  predicate Contains(hay: string, needle: string)
  {
    exists i: nat | i <= |hay| :: StandsAt(hay, needle, i)
  }

  function MergeContent(was: string, more: string): string
  {
    if more == "" then was
    else if was == "" then more
    else if was == more || Contains(was, more) then was
    else if Contains(more, was) then more
    else was + "\n" + more
  }

  lemma {:induction false} ContainsAt(hay: string, needle: string, i: nat)
    requires StandsAt(hay, needle, i)
    ensures Contains(hay, needle)
  {
  }

  lemma {:induction false} ContainsItself(s: string)
    ensures Contains(s, s) && Contains(s, "")
  {
    assert s[0..0 + |s|] == s && s[0..0 + |""|] == "";
    ContainsAt(s, s, 0);
    ContainsAt(s, "", 0);
  }

  lemma {:induction false} ContainsTransitive(a: string, b: string, c: string)
    requires Contains(a, b) && Contains(b, c)
    ensures Contains(a, c)
  {
    var i: nat :| i <= |a| && StandsAt(a, b, i);
    var j: nat :| j <= |b| && StandsAt(b, c, j);
    var part := a[i + j..i + j + |c|];
    forall t | 0 <= t < |c|
      ensures part[t] == c[t]
    {
      assert c[t] == b[j..j + |c|][t] == b[j + t];
      assert b[j + t] == a[i..i + |b|][j + t] == a[i + (j + t)];
    }
    assert part == c;
    ContainsAt(a, c, i + j);
  }

  /** Merged content always holds both the old text and the new. */
  lemma {:induction false} MergedHoldsBoth(was: string, more: string)
    ensures Contains(MergeContent(was, more), was) && Contains(MergeContent(was, more), more)
    ensures MergeContent(was, more) == if Contains(was, more) then was else if Contains(more, was) then more else was + "\n" + more
  {
    ContainsItself(was);
    ContainsItself(more);
    if more != "" && was != "" && !Contains(was, more) && !Contains(more, was) && was != more {
      var r := was + "\n" + more;
      assert r[0..0 + |was|] == was && r[|was| + 1..|was| + 1 + |more|] == more;
      ContainsAt(r, was, 0);
      ContainsAt(r, more, |was| + 1);
    }
  }

  lemma {:induction false} MergeAbsorbs(was: string, more: string)
    requires Contains(was, more)
    ensures MergeContent(was, more) == was
  {
  }

  /** common.Union: the second list's new words behind the first, which is kept as it is. */
  function Union(a: seq<string>, b: seq<string>): seq<string>
    decreases b
  {
    if b == [] then a else Union(if b[0] in a then a else a + [b[0]], b[1..])
  }

  lemma {:induction false} UnionHolds(a: seq<string>, b: seq<string>)
    ensures forall w :: w in Union(a, b) <==> w in a || w in b
    ensures a <= Union(a, b) && (Distinct(a) ==> Distinct(Union(a, b)))
    decreases b
  {
    if b != [] {
      UnionHolds(if b[0] in a then a else a + [b[0]], b[1..]);
      assert forall w :: w in b <==> w == b[0] || w in b[1..];
    }
  }

  lemma {:induction false} UnionAbsorbs(a: seq<string>, b: seq<string>)
    requires forall w :: w in b ==> w in a
    ensures Union(a, b) == a
    decreases b
  {
    if b != [] {
      assert b[0] in b && forall w :: w in b[1..] ==> w in b;
      UnionAbsorbs(a, b[1..]);
    }
  }

  function SourceOf(s: string): Option<string> { if s == "" then None else Some(s) }

  function Created(item: Item, now: int): Node { Node(item.ntype, item.content, item.keywords, SourceOf(item.source), now) }

  /** MergeFields and OverwriteFields; Skip leaves a held node as stored. */
  function Applied(mode: Mode, n: Node, item: Item, now: int): Node
  {
    match mode
    case Skip => n
    case Merge =>
      Node(if item.ntype != "" then item.ntype else n.ntype, MergeContent(n.content, item.content),
           Union(n.keywords, item.keywords), if item.source != "" then Some(item.source) else n.source, now)
    case Overwrite => Created(item, now)
  }

  /** What one item makes of the node its title names. */
  function Hit(mode: Mode, n: Option<Node>, item: Item, now: int): Node
  {
    match n
    case None => Created(item, now)
    case Some(x) => Applied(mode, x, item, now)
  }

  // ---- One node through a batch ----

  /** The node at key k after the items, in order; at says which graph a domain is. */
  function Fold(mode: Mode, n: Option<Node>, items: seq<Item>, at: string -> GraphId, k: Key, now: int): Option<Node>
  {
    if items == [] then n
    else
      var before, last := Fold(mode, n, items[..|items| - 1], at, k, now), items[|items| - 1];
      if (at(last.domain), last.title) == k then Some(Hit(mode, before, last, now)) else before
  }

  predicate Hits(items: seq<Item>, at: string -> GraphId, k: Key)
  {
    exists i | 0 <= i < |items| :: (at(items[i].domain), items[i].title) == k
  }

  lemma {:induction false} HitsSnoc(items: seq<Item>, at: string -> GraphId, k: Key)
    requires items != []
    ensures Hits(items, at, k) <==>
            Hits(items[..|items| - 1], at, k) || (at(items[|items| - 1].domain), items[|items| - 1].title) == k
  {
    var front := items[..|items| - 1];
    assert forall i :: 0 <= i < |front| ==> front[i] == items[i];
    if Hits(front, at, k) {
      var i :| 0 <= i < |front| && (at(front[i].domain), front[i].title) == k;
      assert (at(items[i].domain), items[i].title) == k;
    }
  }

  /** A key no item names is left alone; one an item names exists afterwards. */
  lemma {:induction false} FoldHeld(mode: Mode, n: Option<Node>, items: seq<Item>, at: string -> GraphId, k: Key, now: int)
    ensures !Hits(items, at, k) ==> Fold(mode, n, items, at, k, now) == n
    ensures Hits(items, at, k) || n.Some? ==> Fold(mode, n, items, at, k, now).Some?
  {
    if items != [] {
      FoldHeld(mode, n, items[..|items| - 1], at, k, now);
      HitsSnoc(items, at, k);
      hide Hit;
      hide Hits;
    }
  }

  /** Overwriting depends on the last item for the key and on nothing before it. */
  lemma {:induction false} OverwriteForgets(n: Option<Node>, m: Option<Node>, items: seq<Item>, at: string -> GraphId, k: Key, now: int, later: int)
    requires Hits(items, at, k)
    ensures var a, b := Fold(Overwrite, n, items, at, k, now), Fold(Overwrite, m, items, at, k, later);
            a.Some? && b.Some? && a.value.Said() == b.value.Said()
  {
    if items != [] {
      var front, last := items[..|items| - 1], items[|items| - 1];
      HitsSnoc(items, at, k);
      if (at(last.domain), last.title) != k {
        OverwriteForgets(n, m, front, at, k, now, later);
      }
      hide Hits;
    }
  }

  lemma {:induction false} SkipKeeps(n: Node, items: seq<Item>, at: string -> GraphId, k: Key, now: int)
    ensures Fold(Skip, Some(n), items, at, k, now) == Some(n)
  {
    if items != [] {
      SkipKeeps(n, items[..|items| - 1], at, k, now);
    }
  }

  /** n already says everything the item has to add. */
  ghost predicate Absorbs(n: Node, item: Item)
  {
    Contains(n.content, item.content) && forall w :: w in item.keywords ==> w in n.keywords
  }

  ghost predicate AbsorbsAll(n: Node, items: seq<Item>, at: string -> GraphId, k: Key)
  {
    forall i :: 0 <= i < |items| && (at(items[i].domain), items[i].title) == k ==> Absorbs(n, items[i])
  }

  lemma {:induction false} HitAbsorbs(n: Option<Node>, item: Item, now: int)
    ensures Absorbs(Hit(Merge, n, item, now), item)
    ensures n.Some? ==> forall other :: Absorbs(n.value, other) ==> Absorbs(Hit(Merge, n, item, now), other)
  {
    ContainsItself(item.content);
    if n.Some? {
      var r := Hit(Merge, n, item, now);
      MergedHoldsBoth(n.value.content, item.content);
      UnionHolds(n.value.keywords, item.keywords);
      forall other | Absorbs(n.value, other)
        ensures Absorbs(r, other)
      {
        ContainsTransitive(r.content, n.value.content, other.content);
      }
    }
  }

  /** After a merge the node absorbs every item that named it. */
  lemma {:induction false} MergeAbsorbsAll(n: Option<Node>, items: seq<Item>, at: string -> GraphId, k: Key, now: int)
    requires Fold(Merge, n, items, at, k, now).Some?
    ensures AbsorbsAll(Fold(Merge, n, items, at, k, now).value, items, at, k)
  {
    if items != [] {
      var front, last := items[..|items| - 1], items[|items| - 1];
      FoldHeld(Merge, n, front, at, k, now);
      var before := Fold(Merge, n, front, at, k, now);
      if before.Some? {
        MergeAbsorbsAll(n, front, at, k, now);
      }
      HitAbsorbs(before, last, now);
      forall i | 0 <= i < |items| && (at(items[i].domain), items[i].title) == k
        ensures Absorbs(Fold(Merge, n, items, at, k, now).value, items[i])
      {
        if i < |front| {
          assert front[i] == items[i];
          assert Hits(front, at, k);
        }
      }
    }
  }

  /** The type and source the batch leaves, whatever it started from: the last one said, else the one there was. */
  function LastType(items: seq<Item>, at: string -> GraphId, k: Key, start: string): string
  {
    if items == [] then start
    else
      var last := items[|items| - 1];
      if (at(last.domain), last.title) == k && last.ntype != "" then last.ntype else LastType(items[..|items| - 1], at, k, start)
  }

  function LastSource(items: seq<Item>, at: string -> GraphId, k: Key, start: Option<string>): Option<string>
  {
    if items == [] then start
    else
      var last := items[|items| - 1];
      if (at(last.domain), last.title) == k && last.source != "" then Some(last.source) else LastSource(items[..|items| - 1], at, k, start)
  }

  lemma {:induction false} LastSaid(n: Option<Node>, items: seq<Item>, at: string -> GraphId, k: Key, now: int)
    requires Fold(Merge, n, items, at, k, now).Some?
    ensures var r := Fold(Merge, n, items, at, k, now).value;
            && r.ntype == LastType(items, at, k, if n.Some? then n.value.ntype else "")
            && r.source == LastSource(items, at, k, if n.Some? then n.value.source else None)
  {
    if items != [] {
      var front := items[..|items| - 1];
      if Fold(Merge, n, front, at, k, now).Some? {
        LastSaid(n, front, at, k, now);
      } else {
        FoldHeld(Merge, n, front, at, k, now);
        NothingSaid(front, at, k);
      }
      hide MergeContent;
      hide Union;
    }
  }

  lemma {:induction false} NothingSaid(items: seq<Item>, at: string -> GraphId, k: Key)
    requires !Hits(items, at, k)
    ensures forall start :: LastType(items, at, k, start) == start
    ensures forall start :: LastSource(items, at, k, start) == start
  {
    if items != [] {
      HitsSnoc(items, at, k);
      NothingSaid(items[..|items| - 1], at, k);
      hide Hits;
    }
  }

  lemma {:induction false} LastAgain(items: seq<Item>, at: string -> GraphId, k: Key, t: string, s: Option<string>)
    ensures LastType(items, at, k, LastType(items, at, k, t)) == LastType(items, at, k, t)
    ensures LastSource(items, at, k, LastSource(items, at, k, s)) == LastSource(items, at, k, s)
  {
    LastTypeEither(items, at, k, t, LastType(items, at, k, t));
    LastSourceEither(items, at, k, s, LastSource(items, at, k, s));
  }

  lemma {:induction false} LastTypeEither(items: seq<Item>, at: string -> GraphId, k: Key, a: string, b: string)
    ensures LastType(items, at, k, a) == LastType(items, at, k, b) || (LastType(items, at, k, a) == a && LastType(items, at, k, b) == b)
  {
    if items != [] {
      LastTypeEither(items[..|items| - 1], at, k, a, b);
    }
  }

  lemma {:induction false} LastSourceEither(items: seq<Item>, at: string -> GraphId, k: Key, a: Option<string>, b: Option<string>)
    ensures LastSource(items, at, k, a) == LastSource(items, at, k, b) || (LastSource(items, at, k, a) == a && LastSource(items, at, k, b) == b)
  {
    if items != [] {
      LastSourceEither(items[..|items| - 1], at, k, a, b);
    }
  }

  /** Merging items a node already absorbs changes neither its text nor its words. */
  lemma {:induction false} AbsorbedTwice(n: Node, items: seq<Item>, at: string -> GraphId, k: Key, now: int)
    requires AbsorbsAll(n, items, at, k)
    ensures var r := Fold(Merge, Some(n), items, at, k, now);
            r.Some? && r.value.content == n.content && r.value.keywords == n.keywords
  {
    if items != [] {
      var front, last := items[..|items| - 1], items[|items| - 1];
      assert forall i :: 0 <= i < |front| ==> front[i] == items[i];
      AbsorbedTwice(n, front, at, k, now);
      if (at(last.domain), last.title) == k {
        assert Absorbs(n, items[|items| - 1]);
        MergeAbsorbs(n.content, last.content);
        UnionAbsorbs(n.keywords, last.keywords);
      }
      hide MergeContent;
      hide Union;
      hide Contains;
    }
  }

  /**
   * Import idempotence, one node: running the same items over it again in the same mode changes nothing but its
   * clock, repeated titles included.
   */
  lemma {:induction false} NodeSettles(mode: Mode, n: Option<Node>, items: seq<Item>, at: string -> GraphId, k: Key, now: int, later: int)
    requires Fold(mode, n, items, at, k, now).Some?
    ensures var once := Fold(mode, n, items, at, k, now);
            var twice := Fold(mode, once, items, at, k, later);
            twice.Some? && twice.value.Said() == once.value.Said()
  {
    var once := Fold(mode, n, items, at, k, now);
    match mode {
      case Skip => SkipKeeps(once.value, items, at, k, later);
      case Overwrite =>
        FoldHeld(mode, once, items, at, k, later);
        if Hits(items, at, k) {
          OverwriteForgets(n, once, items, at, k, now, later);
        }
      case Merge =>
        MergeAbsorbsAll(n, items, at, k, now);
        AbsorbedTwice(once.value, items, at, k, later);
        LastSaid(n, items, at, k, now);
        LastSaid(once, items, at, k, later);
        LastAgain(items, at, k, if n.Some? then n.value.ntype else "", if n.Some? then n.value.source else None);
        hide Fold;
        hide LastType;
        hide LastSource;
    }
  }

  // ---- What a node says after a batch ----

  predicate Names(items: seq<Item>, at: string -> GraphId, k: Key, i: int)
  {
    0 <= i < |items| && at(items[i].domain) == k.0 && items[i].title == k.1
  }

  ghost predicate FirstToName(items: seq<Item>, at: string -> GraphId, k: Key, i: int)
  {
    Names(items, at, k, i) && forall j :: j < i ==> !Names(items, at, k, j)
  }

  ghost predicate LastToName(items: seq<Item>, at: string -> GraphId, k: Key, i: int)
  {
    Names(items, at, k, i) && forall j :: i < j ==> !Names(items, at, k, j)
  }

  /** The node says just what the item says. */
  ghost predicate Says(n: Node, item: Item, now: int)
  {
    && n.ntype == item.ntype && n.content == item.content && n.keywords == item.keywords && n.updatedAt == now
    && (item.source == "" ==> n.source == None) && (item.source != "" ==> n.source == Some(item.source))
  }

  lemma {:induction false} NamesFront(items: seq<Item>, at: string -> GraphId, k: Key, n: nat)
    requires n <= |items|
    ensures forall i :: Names(items[..n], at, k, i) <==> i < n && Names(items, at, k, i)
    ensures Hits(items, at, k) <==> exists i :: Names(items, at, k, i)
  {
    if Hits(items, at, k) {
      var i :| 0 <= i < |items| && (at(items[i].domain), items[i].title) == k;
      assert Names(items, at, k, i);
    }
  }

  /** Skipping: a node that was there stays as stored; one that was not says what the first item naming it says. */
  lemma {:induction false} SkipSays(n: Option<Node>, items: seq<Item>, at: string -> GraphId, k: Key, now: int, i: nat)
    requires FirstToName(items, at, k, i)
    ensures var r := Fold(Skip, n, items, at, k, now);
            && r.Some?
            && (n.Some? ==> r == n)
            && (n.None? ==> Says(r.value, items[i], now))
  {
    if n.Some? {
      SkipKeeps(n.value, items, at, k, now);
    } else {
      var front := items[..|items| - 1];
      NamesFront(items, at, k, |front|);
      NamesFront(front, at, k, |front|);
      if i == |front| {
        FoldHeld(Skip, n, front, at, k, now);
      } else {
        assert Names(front, at, k, i);
        SkipSays(n, front, at, k, now, i);
      }
    }
  }

  /** Overwriting: the node says what the last item naming it says, whatever it said before. */
  lemma {:induction false} OverwriteSays(n: Option<Node>, items: seq<Item>, at: string -> GraphId, k: Key, now: int, i: nat)
    requires LastToName(items, at, k, i)
    ensures var r := Fold(Overwrite, n, items, at, k, now); r.Some? && Says(r.value, items[i], now)
  {
    var front := items[..|items| - 1];
    if i < |front| {
      NamesFront(items, at, k, |front|);
      assert !Names(items, at, k, |front|) && Names(front, at, k, i);
      OverwriteSays(n, front, at, k, now, i);
    }
  }

  /** Merging: one item alone makes a node that was not there say what it says. */
  lemma {:induction false} MergeCreates(items: seq<Item>, at: string -> GraphId, k: Key, now: int, i: nat)
    requires FirstToName(items, at, k, i) && LastToName(items, at, k, i)
    ensures var r := Fold(Merge, None, items, at, k, now); r.Some? && Says(r.value, items[i], now)
  {
    var front := items[..|items| - 1];
    NamesFront(items, at, k, |front|);
    NamesFront(front, at, k, |front|);
    if i == |front| {
      FoldHeld(Merge, None, front, at, k, now);
    } else {
      assert !Names(items, at, k, |front|) && Names(front, at, k, i);
      MergeCreates(front, at, k, now, i);
    }
  }

  /** Merging: the text holds the old text and every item's, the words are exactly the old ones and every item's. */
  lemma {:induction false} MergeHolds(n: Option<Node>, items: seq<Item>, at: string -> GraphId, k: Key, now: int)
    requires Hits(items, at, k)
    ensures var r := Fold(Merge, n, items, at, k, now);
            && r.Some? && r.value.updatedAt == now
            && (n.Some? ==> Contains(r.value.content, n.value.content) && n.value.keywords <= r.value.keywords)
            && (forall i :: Names(items, at, k, i) ==> Contains(r.value.content, items[i].content))
            && forall w :: w in r.value.keywords <==> (n.Some? && w in n.value.keywords) || exists i :: Names(items, at, k, i) && w in items[i].keywords
  {
    FoldHeld(Merge, n, items, at, k, now);
    MergeAbsorbsAll(n, items, at, k, now);
    MergeKeeps(n, items, at, k, now);
    hide Fold;
    forall i | Names(items, at, k, i)
      ensures Absorbs(Fold(Merge, n, items, at, k, now).value, items[i])
    {
    }
    hide Contains;
  }

  /** Merging adds to the text and the words behind what is there, stamps the node, and adds no word nobody said. */
  lemma {:induction false} MergeKeeps(n: Option<Node>, items: seq<Item>, at: string -> GraphId, k: Key, now: int)
    ensures var r := Fold(Merge, n, items, at, k, now);
            && (n.Some? ==> r.Some? && Contains(r.value.content, n.value.content) && n.value.keywords <= r.value.keywords)
            && (Hits(items, at, k) && r.Some? ==> r.value.updatedAt == now)
            && (r.Some? ==> forall w :: w in r.value.keywords ==>
                 (n.Some? && w in n.value.keywords) || exists i :: Names(items, at, k, i) && w in items[i].keywords)
  {
    if items == [] {
      if n.Some? {
        ContainsItself(n.value.content);
      }
    } else {
      var front, last := items[..|items| - 1], items[|items| - 1];
      MergeKeeps(n, front, at, k, now);
      HitsSnoc(items, at, k);
      NamesFront(items, at, k, |front|);
      hide Hits;
      MergeStep(n, Fold(Merge, n, front, at, k, now), last, now);
      hide Contains;
      hide MergeContent;
      hide Union;
    }
  }

  lemma {:induction false} MergeStep(n: Option<Node>, was: Option<Node>, item: Item, now: int)
    requires n.Some? ==> was.Some? && Contains(was.value.content, n.value.content) && n.value.keywords <= was.value.keywords
    ensures var r := Hit(Merge, was, item, now);
            && r.updatedAt == now
            && (n.Some? ==> Contains(r.content, n.value.content) && n.value.keywords <= r.keywords)
            && forall w :: w in r.keywords ==> w in item.keywords || (was.Some? && w in was.value.keywords)
  {
    if was.Some? {
      MergedHoldsBoth(was.value.content, item.content);
      UnionHolds(was.value.keywords, item.keywords);
      var r := Hit(Merge, was, item, now);
      if n.Some? {
        ContainsTransitive(r.content, was.value.content, n.value.content);
      }
    }
  }

  /** Item i is the last one naming the node that gives it a type. */
  ghost predicate TypeFrom(items: seq<Item>, at: string -> GraphId, k: Key, i: int)
  {
    Names(items, at, k, i) && items[i].ntype != "" && forall j :: i < j && Names(items, at, k, j) ==> items[j].ntype == ""
  }

  ghost predicate SourceFrom(items: seq<Item>, at: string -> GraphId, k: Key, i: int)
  {
    Names(items, at, k, i) && items[i].source != "" && forall j :: i < j && Names(items, at, k, j) ==> items[j].source == ""
  }

  /** Merging: the type and the source are the last ones said, and the old ones where nothing is said. */
  lemma {:induction false} MergeSaysLast(n: Option<Node>, items: seq<Item>, at: string -> GraphId, k: Key, now: int)
    requires Hits(items, at, k)
    ensures var r := Fold(Merge, n, items, at, k, now);
            && r.Some?
            && (forall i :: TypeFrom(items, at, k, i) ==> r.value.ntype == items[i].ntype)
            && (forall i :: SourceFrom(items, at, k, i) ==> r.value.source == Some(items[i].source))
            && ((forall i :: Names(items, at, k, i) ==> items[i].ntype == "") ==> r.value.ntype == if n.Some? then n.value.ntype else "")
            && ((forall i :: Names(items, at, k, i) ==> items[i].source == "") ==> r.value.source == if n.Some? then n.value.source else None)
  {
    FoldHeld(Merge, n, items, at, k, now);
    LastSaid(n, items, at, k, now);
    hide Fold;
    var t, s := if n.Some? then n.value.ntype else "", if n.Some? then n.value.source else None;
    forall i | TypeFrom(items, at, k, i)
      ensures LastType(items, at, k, t) == items[i].ntype
    {
      TypeSaid(items, at, k, t, i);
    }
    forall i | SourceFrom(items, at, k, i)
      ensures LastSource(items, at, k, s) == Some(items[i].source)
    {
      SourceSaid(items, at, k, s, i);
    }
    if forall i :: Names(items, at, k, i) ==> items[i].ntype == "" {
      TypeUnsaid(items, at, k, t);
    }
    if forall i :: Names(items, at, k, i) ==> items[i].source == "" {
      SourceUnsaid(items, at, k, s);
    }
    hide TypeFrom;
    hide SourceFrom;
    hide LastType;
    hide LastSource;
    hide Names;
  }

  lemma {:induction false} TypeSaid(items: seq<Item>, at: string -> GraphId, k: Key, start: string, i: int)
    requires TypeFrom(items, at, k, i)
    ensures LastType(items, at, k, start) == items[i].ntype
  {
    var front, last := items[..|items| - 1], |items| - 1;
    NamesFront(items, at, k, last);
    if i < last {
      assert Names(items, at, k, last) ==> items[last].ntype == "";
      assert TypeFrom(front, at, k, i);
      TypeSaid(front, at, k, start, i);
    }
  }

  lemma {:induction false} TypeUnsaid(items: seq<Item>, at: string -> GraphId, k: Key, start: string)
    requires forall i :: Names(items, at, k, i) ==> items[i].ntype == ""
    ensures LastType(items, at, k, start) == start
  {
    if items != [] {
      var front, last := items[..|items| - 1], |items| - 1;
      NamesFront(items, at, k, last);
      assert Names(items, at, k, last) ==> items[last].ntype == "";
      TypeUnsaid(front, at, k, start);
    }
  }

  lemma {:induction false} SourceSaid(items: seq<Item>, at: string -> GraphId, k: Key, start: Option<string>, i: int)
    requires SourceFrom(items, at, k, i)
    ensures LastSource(items, at, k, start) == Some(items[i].source)
  {
    var front, last := items[..|items| - 1], |items| - 1;
    NamesFront(items, at, k, last);
    if i < last {
      assert Names(items, at, k, last) ==> items[last].source == "";
      assert SourceFrom(front, at, k, i);
      SourceSaid(front, at, k, start, i);
    }
  }

  lemma {:induction false} SourceUnsaid(items: seq<Item>, at: string -> GraphId, k: Key, start: Option<string>)
    requires forall i :: Names(items, at, k, i) ==> items[i].source == ""
    ensures LastSource(items, at, k, start) == start
  {
    if items != [] {
      var front, last := items[..|items| - 1], |items| - 1;
      NamesFront(items, at, k, last);
      assert Names(items, at, k, last) ==> items[last].source == "";
      SourceUnsaid(front, at, k, start);
    }
  }

  // ---- Which graph a domain is ----

  type Graphs = map<GraphId, string>

  /** preferGraphID: of two slots under one label, the one whose id derives from it, else the smaller id. */
  predicate Prefer(derive: string -> GraphId, name: string, cur: GraphId, next: GraphId)
  {
    if (next == derive(name)) != (cur == derive(name)) then next == derive(name) else next < cur
  }

  ghost predicate Owns(derive: string -> GraphId, graphs: Graphs, name: string, g: GraphId)
  {
    g in graphs && graphs[g] == name && forall h :: h in graphs && graphs[h] == name && h != g ==> Prefer(derive, name, h, g)
  }

  ghost predicate Seeded(derive: string -> GraphId, graphs: Graphs, ids: map<string, GraphId>)
  {
    && (forall name :: name in ids ==> Owns(derive, graphs, name, ids[name]))
    && (forall g :: g in graphs ==> graphs[g] in ids)
  }

  /** NewImportBatch's seeding: the owner of every label, whatever order the slots are scanned in. */
  method SeedGraphs(derive: string -> GraphId, graphs: Graphs) returns (ids: map<string, GraphId>)
    ensures Seeded(derive, graphs, ids)
  {
    ids := map[];
    var todo := graphs.Keys;
    while todo != {}
      invariant todo <= graphs.Keys
      invariant forall name :: name in ids ==> Owns(derive, graphs - todo, name, ids[name])
      invariant forall g :: g in graphs && g !in todo ==> graphs[g] in ids
      decreases |todo|
    {
      var g :| g in todo;
      var name := graphs[g];
      SeedOne(derive, graphs, todo, g, ids);
      if name !in ids || Prefer(derive, name, ids[name], g) {
        ids := ids[name := g];
      }
      todo := todo - {g};
    }
    assert graphs - {} == graphs;
  }

  lemma {:induction false} SeedOne(derive: string -> GraphId, graphs: Graphs, todo: set<GraphId>, g: GraphId, ids: map<string, GraphId>)
    requires g in todo && todo <= graphs.Keys
    requires forall name :: name in ids ==> Owns(derive, graphs - todo, name, ids[name])
    requires forall h :: h in graphs && h !in todo ==> graphs[h] in ids
    ensures var name, part := graphs[g], graphs - (todo - {g});
            && (forall other :: other in ids && other != name ==> Owns(derive, part, other, ids[other]))
            && (if name !in ids || Prefer(derive, name, ids[name], g) then Owns(derive, part, name, g)
                else Owns(derive, part, name, ids[name]))
  {
    var name, part, was := graphs[g], graphs - (todo - {g}), graphs - todo;
    assert forall h :: h in part <==> h == g || h in was;
    if name in ids {
      var o := ids[name];
      assert Owns(derive, was, name, o) && o != g;
    }
  }

  /** Of the slots under one label the one whose id derives from the label, and the smallest id where there is none. */
  lemma {:induction false} OwnerIs(derive: string -> GraphId, graphs: Graphs, name: string, g: GraphId)
    ensures Owns(derive, graphs, name, g) <==>
            && g in graphs && graphs[g] == name
            && if derive(name) in graphs && graphs[derive(name)] == name then g == derive(name)
               else forall h :: h in graphs && graphs[h] == name ==> g <= h
  {
  }

  function GraphAt(derive: string -> GraphId, ids: map<string, GraphId>, d: string): GraphId
  {
    if d in ids then ids[d] else derive(d)
  }

  function At(derive: string -> GraphId, ids: map<string, GraphId>): (at: string -> GraphId)
    ensures forall d: string :: at(d) == GraphAt(derive, ids, d)
  {
    (d: string) => GraphAt(derive, ids, d)
  }

  ghost predicate Named(items: seq<Item>, d: string) { exists i :: 0 <= i < |items| && items[i].domain == d }

  lemma {:induction false} NamedMore(items: seq<Item>, i: nat, d: string)
    requires i < |items|
    ensures Named(items[..i + 1], d) <==> Named(items[..i], d) || items[i].domain == d
  {
    var front, all := items[..i], items[..i + 1];
    assert all[i] == items[i] && forall j :: 0 <= j < i ==> all[j] == front[j];
    if Named(front, d) {
      var j :| 0 <= j < |front| && front[j].domain == d;
      assert all[j].domain == d;
    }
  }

  /** The graph slots after a batch: one more for each domain that had neither a label nor a slot at its own id. */
  ghost predicate Ensured(derive: string -> GraphId, graphs: Graphs, ids: map<string, GraphId>, items: seq<Item>, after: Graphs)
  {
    && (forall g :: g in graphs ==> g in after && after[g] == graphs[g])
    && (forall g :: g in after && g !in graphs ==> after[g] !in ids && g == derive(after[g]) && Named(items, after[g]))
    && (forall i :: 0 <= i < |items| ==> GraphAt(derive, ids, items[i].domain) in after)
  }

  ghost predicate Injective(derive: string -> GraphId) { forall a: string, b: string :: derive(a) == derive(b) ==> a == b }

  /** A second batch finds every domain of the first where the first left it. */
  lemma {:induction false} ResolutionIsStable(derive: string -> GraphId, graphs: Graphs, ids: map<string, GraphId>, items: seq<Item>,
                                              after: Graphs, ids': map<string, GraphId>, i: nat)
    requires Injective(derive) && Seeded(derive, graphs, ids) && Ensured(derive, graphs, ids, items, after) && Seeded(derive, after, ids')
    requires i < |items|
    ensures GraphAt(derive, ids', items[i].domain) == GraphAt(derive, ids, items[i].domain)
  {
  }

  // ---- Relations ----

  type EdgeKey = (GraphId, nat, set<string>)

  ghost predicate ValidRelation(titles: set<Key>, g: GraphId, source: string, rel: Relation)
  {
    && rel.kind < EDGE_KINDS && rel.titles != [] && Distinct(rel.titles)
    && forall t :: t in rel.titles ==> t != "" && t != source && (g, t) in titles
  }

  function Members(source: string, rel: Relation): set<string> { {source} + set t | t in rel.titles }

  /** relationMembers: the whole member set, or no edge at all. */
  method RelationMembers(titles: set<Key>, g: GraphId, source: string, rel: Relation) returns (r: Option<set<string>>)
    ensures r.Some? <==> ValidRelation(titles, g, source, rel)
    ensures r.Some? ==> r.value == Members(source, rel)
  {
    if rel.kind >= EDGE_KINDS || rel.titles == [] {
      return None;
    }
    var members := {source};
    for i := 0 to |rel.titles|
      invariant members == {source} + set t | t in rel.titles[..i]
      invariant Distinct(rel.titles[..i]) && source !in rel.titles[..i]
      invariant forall t :: t in rel.titles[..i] ==> t != "" && t != source && (g, t) in titles
    {
      var target := rel.titles[i];
      assert target in rel.titles;
      assert rel.titles[..i + 1] == rel.titles[..i] + [target];
      if target == "" || target == source || (g, target) !in titles {
        return None;
      }
      if target in members {
        var j :| 0 <= j < i && rel.titles[..i][j] == target;
        assert rel.titles[j] == rel.titles[i];
        return None;
      }
      JoinDistinct(rel.titles[..i], [target]);
      members := members + {target};
    }
    assert rel.titles[..|rel.titles|] == rel.titles;
    return Some(members);
  }

  /** The edges a batch declares over a set of titles. */
  ghost predicate Declares(items: seq<Item>, at: string -> GraphId, titles: set<Key>, e: EdgeKey)
  {
    exists i, j :: 0 <= i < |items| && 0 <= j < |items[i].related| && DeclaredBy(items[i], j, at, titles, e)
  }

  ghost predicate DeclaredBy(item: Item, j: nat, at: string -> GraphId, titles: set<Key>, e: EdgeKey)
    requires j < |item.related|
  {
    var g, rel := at(item.domain), item.related[j];
    ValidRelation(titles, g, item.title, rel) && e == (g, rel.kind, Members(item.title, rel))
  }

  // ---- The batch ----

  datatype Pool = Pool(graphs: Graphs, nodes: map<Key, Node>, edges: set<EdgeKey>)

  ghost function Lookup(nodes: map<Key, Node>, k: Key): Option<Node> { if k in nodes then Some(nodes[k]) else None }

  /** What one import makes of the pool. */
  ghost predicate Imported(derive: string -> GraphId, mode: Mode, was: Pool, ids: map<string, GraphId>, items: seq<Item>, now: int, after: Pool)
  {
    var at := At(derive, ids);
    && Seeded(derive, was.graphs, ids) && Ensured(derive, was.graphs, ids, items, after.graphs)
    && NodesFolded(mode, was.nodes, items, at, now, after.nodes)
    && (forall e: EdgeKey :: e in after.edges <==> e in was.edges || Declares(items, at, after.nodes.Keys, e))
  }

  lemma {:induction false} FoldSameGraphs(mode: Mode, n: Option<Node>, items: seq<Item>, at: string -> GraphId, at': string -> GraphId, k: Key, now: int)
    requires forall i :: 0 <= i < |items| ==> at'(items[i].domain) == at(items[i].domain)
    ensures Fold(mode, n, items, at', k, now) == Fold(mode, n, items, at, k, now)
  {
    if items != [] {
      var front := items[..|items| - 1];
      assert forall i :: 0 <= i < |front| ==> front[i] == items[i];
      FoldSameGraphs(mode, n, front, at, at', k, now);
      assert at'(items[|items| - 1].domain) == at(items[|items| - 1].domain);
      hide Hit;
    }
  }

  lemma {:induction false} DeclaresSameGraphs(items: seq<Item>, at: string -> GraphId, at': string -> GraphId, titles: set<Key>, e: EdgeKey)
    requires forall i :: 0 <= i < |items| ==> at'(items[i].domain) == at(items[i].domain)
    requires Declares(items, at', titles, e)
    ensures Declares(items, at, titles, e)
  {
    var i, j :| 0 <= i < |items| && 0 <= j < |items[i].related| && DeclaredBy(items[i], j, at', titles, e);
    assert DeclaredBy(items[i], j, at, titles, e);
  }

  /**
   * Import idempotence: the same batch a second time, in the same mode, creates no graph, no node and no edge, and
   * leaves every node saying what it said after the first.
   */
  lemma {:induction false} ImportIsIdempotent(derive: string -> GraphId, mode: Mode, p0: Pool, ids0: map<string, GraphId>, p1: Pool,
                                              ids1: map<string, GraphId>, p2: Pool, items: seq<Item>, now: int, later: int)
    requires Injective(derive) && Imported(derive, mode, p0, ids0, items, now, p1) && Imported(derive, mode, p1, ids1, items, later, p2)
    ensures p2.graphs == p1.graphs && p2.nodes.Keys == p1.nodes.Keys && p2.edges == p1.edges
    ensures forall k :: k in p1.nodes && k in p2.nodes ==> p2.nodes[k].Said() == p1.nodes[k].Said()
  {
    var at0, at1 := At(derive, ids0), At(derive, ids1);
    forall i | 0 <= i < |items|
      ensures at1(items[i].domain) == at0(items[i].domain)
    {
      ResolutionIsStable(derive, p0.graphs, ids0, items, p1.graphs, ids1, i);
    }
    NoNewGraph(derive, p0, ids0, p1, ids1, p2, items, mode, now, later);
    hide At;
    hide Seeded;
    hide Ensured;
    forall k: Key
      ensures k in p2.nodes <==> k in p1.nodes
      ensures k in p1.nodes && k in p2.nodes ==> p2.nodes[k].Said() == p1.nodes[k].Said()
    {
      FoldSameGraphs(mode, Lookup(p1.nodes, k), items, at0, at1, k, later);
      assert Lookup(p1.nodes, k) == Fold(mode, Lookup(p0.nodes, k), items, at0, k, now);
      if k in p1.nodes {
        NodeSettles(mode, Lookup(p0.nodes, k), items, at0, k, now, later);
      } else {
        FoldHeld(mode, Lookup(p0.nodes, k), items, at0, k, now);
        FoldHeld(mode, Lookup(p1.nodes, k), items, at0, k, later);
      }
      hide Fold;
      hide Hits;
    }
    assert p2.nodes.Keys == p1.nodes.Keys;
    forall e: EdgeKey
      ensures e in p2.edges <==> e in p1.edges
    {
      if Declares(items, at1, p2.nodes.Keys, e) {
        DeclaresSameGraphs(items, at0, at1, p2.nodes.Keys, e);
      }
    }
  }

  /**
   * What an import leaves at a key, in every mode: nobody names it, and it stands as it did; skipping keeps what was there
   * and else takes the first item; overwriting takes the last; merging takes a lone item whole where nothing was.
   */
  lemma {:induction false} ImportSays(derive: string -> GraphId, mode: Mode, was: Pool, ids: map<string, GraphId>, items: seq<Item>, now: int,
                                      after: Pool, k: Key, i: nat)
    requires Imported(derive, mode, was, ids, items, now, after)
    ensures var at := At(derive, ids);
            && (!Hits(items, at, k) ==> Lookup(after.nodes, k) == Lookup(was.nodes, k))
            && (mode.Skip? && k in was.nodes ==> k in after.nodes && after.nodes[k] == was.nodes[k])
            && (mode.Skip? && k !in was.nodes && FirstToName(items, at, k, i) ==> k in after.nodes && Says(after.nodes[k], items[i], now))
            && (mode.Overwrite? && LastToName(items, at, k, i) ==> k in after.nodes && Says(after.nodes[k], items[i], now))
            && (mode.Merge? && k !in was.nodes && FirstToName(items, at, k, i) && LastToName(items, at, k, i) ==>
                  k in after.nodes && Says(after.nodes[k], items[i], now))
  {
    var at, n := At(derive, ids), Lookup(was.nodes, k);
    assert Lookup(after.nodes, k) == Fold(mode, n, items, at, k, now);
    FoldHeld(mode, n, items, at, k, now);
    if mode.Skip? && n.Some? {
      SkipKeeps(n.value, items, at, k, now);
    } else if mode.Skip? && FirstToName(items, at, k, i) {
      SkipSays(n, items, at, k, now, i);
    } else if mode.Overwrite? && LastToName(items, at, k, i) {
      OverwriteSays(n, items, at, k, now, i);
    } else if mode.Merge? && n.None? && FirstToName(items, at, k, i) && LastToName(items, at, k, i) {
      MergeCreates(items, at, k, now, i);
    }
    hide Fold;
    hide Hits;
    hide Names;
    hide Imported;
  }

  lemma {:induction false} NoNewGraph(derive: string -> GraphId, p0: Pool, ids0: map<string, GraphId>, p1: Pool, ids1: map<string, GraphId>,
                                      p2: Pool, items: seq<Item>, mode: Mode, now: int, later: int)
    requires Injective(derive) && Imported(derive, mode, p0, ids0, items, now, p1) && Imported(derive, mode, p1, ids1, items, later, p2)
    ensures p2.graphs == p1.graphs
  {
    forall i | 0 <= i < |items|
      ensures GraphAt(derive, ids1, items[i].domain) in p1.graphs
    {
      ResolutionIsStable(derive, p0.graphs, ids0, items, p1.graphs, ids1, i);
    }
    forall g | g in p2.graphs
      ensures g in p1.graphs
    {
    }
  }

  class ImportBatch {
    const derive: string -> GraphId
    const mode: Mode
    var graphs: Graphs
    var nodes: map<Key, Node>
    var edges: set<EdgeKey>

    /** The indexes built up front: domain -> graph, the titles each graph holds, the edges it carries. */
    var graphIDs: map<string, GraphId>
    var titles: set<Key>
    var keys: set<EdgeKey>

    var createdNodes: nat
    var edgesCreated: nat

    /** How the labels stood when the batch began, and the slots there were. */
    ghost const seeds: map<string, GraphId>
    ghost const slots: Graphs

    ghost predicate Valid()
      reads this
    {
      && titles == nodes.Keys && keys == edges && Seeded(derive, slots, seeds)
      && (forall d :: d in seeds ==> d in graphIDs) && (forall d :: d in graphIDs ==> graphIDs[d] == GraphAt(derive, seeds, d))
      && (forall d :: d in graphIDs ==> graphIDs[d] in graphs)
      && (forall g :: g in slots ==> g in graphs && graphs[g] == slots[g])
    }

    constructor (derive: string -> GraphId, mode: Mode, pool: Pool)
      ensures Valid() && this.derive == derive && this.mode == mode && seeds == graphIDs && slots == pool.graphs
      ensures graphs == pool.graphs && nodes == pool.nodes && edges == pool.edges && createdNodes == 0 && edgesCreated == 0
    {
      var ids := SeedGraphs(derive, pool.graphs);
      this.derive, this.mode := derive, mode;
      graphs, nodes, edges := pool.graphs, pool.nodes, pool.edges;
      graphIDs, titles, keys := ids, pool.nodes.Keys, pool.edges;
      createdNodes, edgesCreated := 0, 0;
      seeds, slots := ids, pool.graphs;
    }

    /** graphFor: the graph of a domain, its slot made only when the address holds none. */
    method GraphFor(domain: string) returns (g: GraphId)
      requires Valid()
      modifies this`graphs, this`graphIDs
      ensures Valid() && g == GraphAt(derive, seeds, domain) && graphIDs == old(graphIDs)[domain := g] && g in graphs
      ensures graphs == if domain !in old(graphIDs) && g !in old(graphs) then old(graphs)[g := domain] else old(graphs)
    {
      if domain in graphIDs {
        assert graphIDs[domain := graphIDs[domain]] == graphIDs;
        return graphIDs[domain];
      }
      g := derive(domain);
      if g !in graphs {
        graphs := graphs[g := domain];
      }
      graphIDs := graphIDs[domain := g];
    }

    /** The first pass. */
    method ImportNodes(items: seq<Item>, now: int)
      requires Valid() && graphs == slots && graphIDs == seeds
      modifies this`graphs, this`graphIDs, this`nodes, this`titles, this`createdNodes
      ensures Valid() && createdNodes - old(createdNodes) == |nodes| - |old(nodes)|
      ensures NodesFolded(mode, old(nodes), items, At(derive, seeds), now, nodes) && Ensured(derive, slots, seeds, items, graphs)
      ensures forall j :: 0 <= j < |items| ==> items[j].domain in graphIDs
    {
      ghost var at, was := At(derive, seeds), nodes;
      assert items[..0] == [];
      NothingFolded(mode, was, at, now);
      NothingEnsured(derive, slots, seeds);
      hide NodesFolded;
      hide Seeded;
      hide Ensured;
      hide At;
      hide GraphAt;
      hide Hit;
      for i := 0 to |items|
        invariant Valid() && createdNodes - old(createdNodes) == |nodes| - |was| && Reached(items, i, was, at, now)
      {
        hide Reached;
        NextNode(items, i, was, at, now);
      }
      assert items[..|items|] == items;
    }

    /** The first i items have been applied. */
    ghost predicate Reached(items: seq<Item>, i: nat, was: map<Key, Node>, at: string -> GraphId, now: int)
      requires i <= |items|
      reads this
    {
      && NodesFolded(mode, was, items[..i], at, now, nodes) && Ensured(derive, slots, seeds, items[..i], graphs)
      && forall j :: 0 <= j < i ==> items[j].domain in graphIDs
    }

    method NextNode(items: seq<Item>, i: nat, ghost was: map<Key, Node>, ghost at: string -> GraphId, now: int)
      requires Valid() && i < |items| && Reached(items, i, was, at, now) && at == At(derive, seeds)
      modifies this`graphs, this`graphIDs, this`nodes, this`titles, this`createdNodes
      ensures Valid() && createdNodes - old(createdNodes) == |nodes| - |old(nodes)| && Reached(items, i + 1, was, at, now)
    {
      hide NodesFolded;
      hide Seeded;
      hide Ensured;
      hide Hit;
      FoldedNext(mode, was, items, i, at, now, nodes);
      EnsuredNext(derive, slots, seeds, items, i, graphs, graphIDs);
      assert at(items[i].domain) == GraphAt(derive, seeds, items[i].domain);
      hide At;
      hide GraphAt;
      ImportNode(items[i], now);
    }

    /** The second pass: relations for every item, skipped nodes included. */
    method ImportAllRelations(items: seq<Item>)
      requires Valid() && forall j :: 0 <= j < |items| ==> items[j].domain in graphIDs
      modifies this`edges, this`keys, this`edgesCreated
      ensures Valid() && edgesCreated - old(edgesCreated) == |edges| - |old(edges)|
      ensures forall e: EdgeKey :: e in edges <==> e in old(edges) || Declares(items, At(derive, seeds), titles, e)
    {
      ghost var at, first := At(derive, seeds), edges;
      assert items[..0] == [];
      hide Seeded;
      for i := 0 to |items|
        invariant Valid() && edgesCreated - old(edgesCreated) == |edges| - |first|
        invariant forall e: EdgeKey :: e in edges <==> e in first || Declares(items[..i], at, titles, e)
      {
        hide Declares;
        hide DeclaresOne;
        hide At;
        ghost var was := edges;
        ImportRelations(items[i]);
        forall e: EdgeKey
          ensures e in edges <==> e in first || Declares(items[..i + 1], at, titles, e)
        {
          DeclaresNext(items, i, at, titles, e);
          assert e in was <==> e in first || Declares(items[..i], at, titles, e);
        }
      }
      assert items[..|items|] == items;
    }

    /** ImportNode: created, or what the mode makes of the node the graph holds. */
    method ImportNode(item: Item, now: int)
      requires Valid()
      modifies this`graphs, this`graphIDs, this`nodes, this`titles, this`createdNodes
      ensures Valid() && item.domain in graphIDs
      ensures var k := (GraphAt(derive, seeds, item.domain), item.title);
              && nodes == old(nodes)[k := Hit(mode, Lookup(old(nodes), k), item, now)]
              && createdNodes - old(createdNodes) == |nodes| - |old(nodes)|
              && graphs == if item.domain !in old(graphIDs) && k.0 !in old(graphs) then old(graphs)[k.0 := item.domain] else old(graphs)
      ensures graphIDs == old(graphIDs)[item.domain := GraphAt(derive, seeds, item.domain)]
    {
      hide Seeded;
      hide GraphAt;
      var g := GraphFor(item.domain);
      var k := (g, item.title);
      if k in titles {
        SameNodes(nodes, k, Applied(mode, nodes[k], item, now));
        if !mode.Skip? {
          nodes := nodes[k := Applied(mode, nodes[k], item, now)];
        } else {
          assert nodes[k := nodes[k]] == nodes;
        }
        return;
      }
      OneMoreNode(nodes, k, Created(item, now));
      nodes, titles := nodes[k := Created(item, now)], titles + {k};
      createdNodes := createdNodes + 1;
    }

    /** ImportRelations: each valid relation's edge, unless the graph carries it already. */
    method ImportRelations(item: Item)
      requires Valid() && item.domain in graphIDs
      modifies this`edges, this`keys, this`edgesCreated
      ensures Valid() && old(edges) <= edges && edgesCreated - old(edgesCreated) == |edges| - |old(edges)|
      ensures forall e: EdgeKey :: e in edges <==> e in old(edges) || DeclaresOne(item, At(derive, seeds), titles, e)
    {
      hide Seeded;
      hide DeclaredBefore;
      var g := graphIDs[item.domain];
      ghost var at := At(derive, seeds);
      ghost var was := edges;
      NoneDeclared(item, at, titles);
      for j := 0 to |item.related|
        invariant Valid() && was <= edges && edgesCreated - old(edgesCreated) == |edges| - |was|
        invariant forall e: EdgeKey :: e in edges <==> e in was || DeclaredBefore(item, j, at, titles, e)
      {
        var members := RelationMembers(titles, g, item.title, item.related[j]);
        DeclaredNext(item, j, at, titles);
        if members.Some? {
          var e := (g, item.related[j].kind, members.value);
          if e !in keys {
            edges, keys := edges + {e}, keys + {e};
            edgesCreated := edgesCreated + 1;
          }
        }
      }
    }
  }

  ghost predicate DeclaredBefore(item: Item, n: nat, at: string -> GraphId, titles: set<Key>, e: EdgeKey)
  {
    exists j :: 0 <= j < n && j < |item.related| && DeclaredBy(item, j, at, titles, e)
  }

  ghost predicate DeclaresOne(item: Item, at: string -> GraphId, titles: set<Key>, e: EdgeKey) { DeclaredBefore(item, |item.related|, at, titles, e) }

  lemma {:induction false} NoneDeclared(item: Item, at: string -> GraphId, titles: set<Key>)
    ensures forall e: EdgeKey :: !DeclaredBefore(item, 0, at, titles, e)
  {
  }

  lemma {:induction false} DeclaredNext(item: Item, j: nat, at: string -> GraphId, titles: set<Key>)
    requires j < |item.related|
    ensures forall e: EdgeKey :: DeclaredBefore(item, j + 1, at, titles, e) <==>
              DeclaredBefore(item, j, at, titles, e) || DeclaredBy(item, j, at, titles, e)
  {
  }

  ghost predicate WellFormed(items: seq<Item>) { items != [] && forall i :: 0 <= i < |items| ==> items[i].title != "" && items[i].domain != "" }

  /** The whole batch is looked at before anything is written. */
  method CheckItems(items: seq<Item>) returns (ok: bool)
    ensures ok <==> WellFormed(items)
    ensures !ok <==> items == [] || exists i :: 0 <= i < |items| && (items[i].title == "" || items[i].domain == "")
  {
    if items == [] {
      return false;
    }
    for i := 0 to |items|
      invariant forall j :: 0 <= j < i ==> items[j].title != "" && items[j].domain != ""
    {
      if items[i].title == "" || items[i].domain == "" {
        return false;
      }
    }
    return true;
  }

  /** ImportL3: refused whole, or every item's node and then every item's relations. */
  method ImportL3(derive: string -> GraphId, mode: Mode, pool: Pool, items: seq<Item>, now: int)
    returns (r: Option<Pool>, created: nat, edgesCreated: nat, ghost ids: map<string, GraphId>)
    ensures r.Some? <==> WellFormed(items)
    ensures r.Some? ==> Imported(derive, mode, pool, ids, items, now, r.value)
    ensures r.Some? ==> created == |r.value.nodes| - |pool.nodes| && edgesCreated == |r.value.edges| - |pool.edges|
  {
    var ok := CheckItems(items);
    if !ok {
      return None, 0, 0, map[];
    }
    var batch := new ImportBatch(derive, mode, pool);
    ids := batch.seeds;
    hide Seeded;
    hide NodesFolded;
    hide Ensured;
    hide Declares;
    hide At;
    batch.ImportNodes(items, now);
    batch.ImportAllRelations(items);
    r, created, edgesCreated := Some(Pool(batch.graphs, batch.nodes, batch.edges)), batch.createdNodes, batch.edgesCreated;
  }

  lemma {:induction false} OneMoreNode(nodes: map<Key, Node>, k: Key, n: Node)
    requires k !in nodes
    ensures |nodes[k := n]| == |nodes| + 1 && nodes[k := n].Keys == nodes.Keys + {k}
  {
    assert nodes[k := n].Keys == nodes.Keys + {k};
  }

  lemma {:induction false} SameNodes(nodes: map<Key, Node>, k: Key, n: Node)
    requires k in nodes
    ensures |nodes[k := n]| == |nodes| && nodes[k := n].Keys == nodes.Keys
  {
    assert nodes[k := n].Keys == nodes.Keys;
  }

  lemma {:induction false} NothingFolded(mode: Mode, nodes: map<Key, Node>, at: string -> GraphId, now: int)
    ensures NodesFolded(mode, nodes, [], at, now, nodes)
  {
  }

  ghost predicate NodesFolded(mode: Mode, was: map<Key, Node>, items: seq<Item>, at: string -> GraphId, now: int, after: map<Key, Node>)
  {
    forall k: Key :: Lookup(after, k) == Fold(mode, Lookup(was, k), items, at, k, now)
  }

  lemma {:induction false} FoldedNext(mode: Mode, was: map<Key, Node>, items: seq<Item>, i: nat, at: string -> GraphId, now: int, cur: map<Key, Node>)
    requires i < |items| && NodesFolded(mode, was, items[..i], at, now, cur)
    ensures var k := (at(items[i].domain), items[i].title);
            NodesFolded(mode, was, items[..i + 1], at, now, cur[k := Hit(mode, Lookup(cur, k), items[i], now)])
  {
    var k := (at(items[i].domain), items[i].title);
    forall x: Key
      ensures Lookup(cur[k := Hit(mode, Lookup(cur, k), items[i], now)], x) == Fold(mode, Lookup(was, x), items[..i + 1], at, x, now)
    {
      assert items[..i + 1][..i] == items[..i] && items[..i + 1][i] == items[i];
      assert Lookup(cur, x) == Fold(mode, Lookup(was, x), items[..i], at, x, now);
      hide Hit;
    }
  }

  lemma {:induction false} EnsuredNext(derive: string -> GraphId, graphs: Graphs, ids: map<string, GraphId>, items: seq<Item>, i: nat,
                                       cur: Graphs, known: map<string, GraphId>)
    requires i < |items| && Ensured(derive, graphs, ids, items[..i], cur)
    requires (forall d :: d in ids ==> d in known) && forall d :: d in known ==> known[d] == GraphAt(derive, ids, d) && known[d] in cur
    ensures var d := items[i].domain;
            var g := GraphAt(derive, ids, d);
            Ensured(derive, graphs, ids, items[..i + 1], if d !in known && g !in cur then cur[g := d] else cur)
  {
    var d := items[i].domain;
    var g := GraphAt(derive, ids, d);
    assert d !in ids ==> g == derive(d);
    assert d in known ==> g in cur;
    hide GraphAt;
    if d !in known && g !in cur {
      EnsuredAdd(derive, graphs, ids, items, i, cur, cur[g := d]);
    } else {
      EnsuredAdd(derive, graphs, ids, items, i, cur, cur);
    }
  }

  lemma {:induction false} EnsuredAdd(derive: string -> GraphId, graphs: Graphs, ids: map<string, GraphId>, items: seq<Item>, i: nat,
                                      cur: Graphs, after: Graphs)
    requires i < |items| && Ensured(derive, graphs, ids, items[..i], cur) && GraphAt(derive, ids, items[i].domain) in after
    requires forall h :: h in cur ==> h in after && after[h] == cur[h]
    requires forall h :: h in after && h !in cur ==> after[h] == items[i].domain && after[h] !in ids && h == derive(after[h])
    ensures Ensured(derive, graphs, ids, items[..i + 1], after)
  {
    var front, all := items[..i], items[..i + 1];
    assert all[i] == items[i] && forall j :: 0 <= j < i ==> all[j] == front[j];
    hide Named;
    hide GraphAt;
    forall h | h in after && h !in graphs
      ensures after[h] !in ids && h == derive(after[h]) && Named(all, after[h])
    {
      NamedMore(items, i, after[h]);
    }
    forall j | 0 <= j < |all|
      ensures GraphAt(derive, ids, all[j].domain) in after
    {
    }
  }

  lemma {:induction false} NothingEnsured(derive: string -> GraphId, graphs: Graphs, ids: map<string, GraphId>)
    ensures Ensured(derive, graphs, ids, [], graphs)
  {
  }

  lemma {:induction false} DeclaresNext(items: seq<Item>, i: nat, at: string -> GraphId, titles: set<Key>, e: EdgeKey)
    requires i < |items|
    ensures Declares(items[..i + 1], at, titles, e) <==> Declares(items[..i], at, titles, e) || DeclaresOne(items[i], at, titles, e)
  {
    var front, all := items[..i], items[..i + 1];
    assert all[i] == items[i] && forall j :: 0 <= j < i ==> all[j] == front[j];
    if Declares(front, at, titles, e) {
      var k, j :| 0 <= k < |front| && 0 <= j < |front[k].related| && DeclaredBy(front[k], j, at, titles, e);
      assert DeclaredBy(all[k], j, at, titles, e);
    }
    if DeclaresOne(items[i], at, titles, e) {
      var j :| 0 <= j < |items[i].related| && DeclaredBy(items[i], j, at, titles, e);
      assert DeclaredBy(all[i], j, at, titles, e);
    }
    hide DeclaredBy;
  }
}
