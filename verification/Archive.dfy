// The content of a domain and its Seq-sorted mirror: internal/repo/index/l4.go, internal/repo/l4layer.go and the slot
// allocation of internal/content/content.go.
module Archives {
  import opened Common

  type TopicId = nat
  type ArchiveId = nat

  const MAX_SEQ: nat := 0xFFFF_FFFF_FFFF_FFFF
  const LAST_UTTERANCE_SEQ: nat := 2

  const KIND_EVENT: nat := 1
  const CONTENT_TEXT: nat := 0

  /** A content record; body stands for the fields no index or filter looks at by name. */
  datatype Archive = Archive(id: ArchiveId, topic: TopicId, seqno: nat, kind: nat, ctype: nat, node: nat, createdAt: int, body: string)

  type Records = map<ArchiveId, Archive>

  datatype Entry = Entry(seqno: nat, id: ArchiveId, kind: nat, createdAt: int, node: nat)

  function EntryOf(a: Archive): Entry { Entry(a.seqno, a.id, a.kind, a.createdAt, a.node) }

  /** HashContent, uninterpreted: one id per (topic, slot), and every record stands at its own address. */
  ghost predicate Addressed(hash: (TopicId, nat) -> ArchiveId, rs: Records)
  {
    && (forall t: TopicId, s: nat, t': TopicId, s': nat :: hash(t, s) == hash(t', s') ==> t == t' && s == s')
    && forall id :: id in rs ==> rs[id].id == id && id == hash(rs[id].topic, rs[id].seqno)
  }

  type ByTopic = map<TopicId, seq<Entry>>

  function Of(m: ByTopic, t: TopicId): seq<Entry> { if t in m then m[t] else [] }

  ghost predicate Rising(es: seq<Entry>) { forall i, j :: 0 <= i < j < |es| ==> es[i].seqno < es[j].seqno }

  ghost predicate Neat(m: ByTopic) { forall t :: t in m ==> m[t] != [] && Rising(m[t]) }

  ghost predicate Sourced(m: ByTopic, rs: Records)
  {
    forall t: TopicId, e :: e in Of(m, t) ==> e.id in rs && rs[e.id].topic == t && EntryOf(rs[e.id]) == e
  }

  ghost predicate Complete(m: ByTopic, rs: Records)
  {
    forall id :: id in rs ==> rs[id].id == id && EntryOf(rs[id]) in Of(m, rs[id].topic)
  }

  /** m lists, per topic and Seq-ascending, one entry for each record and nothing else; no topic is listed empty. */
  ghost predicate Mirrors(m: ByTopic, rs: Records) { Neat(m) && Sourced(m, rs) && Complete(m, rs) }

  lemma {:induction false} RisingUnique(a: seq<Entry>, b: seq<Entry>)
    requires Rising(a) && Rising(b) && forall e :: e in a <==> e in b
    ensures a == b
    decreases |a|
  {
    if a == [] {
      if b != [] {
        var e := First(b);
      }
    } else {
      assert a[0] in a && a[0] in b;
      assert b[0] in b && b[0] in a;
      SmallestFirst(a, b[0]);
      SmallestFirst(b, a[0]);
      assert a[0] == b[0] by { SameSeqSameEntry(b, a[0], b[0]); }
      forall e
        ensures e in a[1..] <==> e in b[1..]
      {
        TailIn(a, e);
        TailIn(b, e);
      }
      RisingUnique(a[1..], b[1..]);
    }
  }

  lemma {:induction false} First(a: seq<Entry>) returns (e: Entry)
    requires a != []
    ensures e in a
  {
    e := a[0];
  }

  lemma {:induction false} SmallestFirst(a: seq<Entry>, e: Entry)
    requires Rising(a) && e in a
    ensures a[0].seqno <= e.seqno
  {
  }

  lemma {:induction false} SameSeqSameEntry(a: seq<Entry>, x: Entry, y: Entry)
    requires Rising(a) && x in a && y in a && x.seqno == y.seqno
    ensures x == y
  {
  }

  lemma {:induction false} TailIn(a: seq<Entry>, e: Entry)
    requires Rising(a) && a != []
    ensures e in a[1..] <==> e in a && e != a[0]
  {
    assert e in a <==> e == a[0] || e in a[1..];
  }

  /** The records fix their mirror: kept incrementally or rebuilt in any scan order, it is the same index. */
  lemma {:induction false} MirrorUnique(m: ByTopic, n: ByTopic, rs: Records)
    requires Mirrors(m, rs) && Mirrors(n, rs)
    ensures m == n
  {
    forall t: TopicId
      ensures Of(m, t) == Of(n, t) && (t in m <==> t in n)
    {
      forall e
        ensures e in Of(m, t) <==> e in Of(n, t)
      {
        if e in Of(m, t) {
          assert EntryOf(rs[e.id]) in Of(n, rs[e.id].topic);
        }
        if e in Of(n, t) {
          assert EntryOf(rs[e.id]) in Of(m, rs[e.id].topic);
        }
      }
      RisingUnique(Of(m, t), Of(n, t));
    }
    assert forall t :: t in m ==> m[t] == Of(m, t);
    assert forall t :: t in n ==> n[t] == Of(n, t);
  }

  // ---- Append ----

  /** The list with e at its Seq, in place of whatever held it. */
  ghost function Placed(es: seq<Entry>, e: Entry, at: nat): seq<Entry>
    requires at <= |es|
  {
    if at < |es| && es[at].seqno == e.seqno then es[at := e] else es[..at] + [e] + es[at..]
  }

  ghost predicate Slot(es: seq<Entry>, seqno: nat, at: nat)
  {
    at <= |es| && (forall i :: 0 <= i < at ==> es[i].seqno < seqno) && forall i :: at <= i < |es| ==> es[i].seqno >= seqno
  }

  /** slices.BinarySearchFunc: the first position whose Seq is not below the one looked for. */
  method BinarySearch(es: seq<Entry>, seqno: nat) returns (at: nat)
    requires Rising(es)
    ensures Slot(es, seqno, at)
  {
    var lo, hi := 0, |es|;
    while lo < hi
      invariant lo <= hi <= |es|
      invariant forall i :: 0 <= i < lo ==> es[i].seqno < seqno
      invariant forall i :: hi <= i < |es| ==> es[i].seqno >= seqno
      decreases hi - lo
    {
      var mid := (lo + hi) / 2;
      if es[mid].seqno < seqno {
        lo := mid + 1;
      } else {
        hi := mid;
      }
    }
    at := lo;
  }

  lemma {:induction false} PlacedRises(es: seq<Entry>, e: Entry, at: nat)
    requires Rising(es) && Slot(es, e.seqno, at)
    ensures Rising(Placed(es, e, at))
    ensures forall x :: x in Placed(es, e, at) <==> x == e || (x in es && x.seqno != e.seqno)
  {
    var r := Placed(es, e, at);
    if at < |es| && es[at].seqno == e.seqno {
      assert r[at] == e;
      forall x
        ensures x in r <==> x == e || (x in es && x.seqno != e.seqno)
      {
        if x in es && x.seqno != e.seqno {
          var i :| 0 <= i < |es| && es[i] == x;
          assert r[i] == x;
        }
        if x in r && x != e {
          var i :| 0 <= i < |r| && r[i] == x;
          assert es[i] == x && i != at;
        }
      }
    } else {
      assert forall x :: x in es <==> x in es[..at] || x in es[at..] by {
        assert es == es[..at] + es[at..];
      }
    }
  }

  class L4Index {
    var byTopic: ByTopic

    constructor ()
      ensures byTopic == map[] && Mirrors(byTopic, map[])
    {
      byTopic := map[];
    }

    /** Append: one record in, replacing whatever its (topic, Seq) held. */
    method Append(a: Archive, ghost hash: (TopicId, nat) -> ArchiveId, ghost rs: Records)
      requires Mirrors(byTopic, rs) && Addressed(hash, rs) && a.id == hash(a.topic, a.seqno)
      modifies this
      ensures Mirrors(byTopic, rs[a.id := a]) && Addressed(hash, rs[a.id := a])
    {
      var entries := Of(byTopic, a.topic);
      var at := BinarySearch(entries, a.seqno);
      AppendMirrors(byTopic, rs, hash, a, at);
      var e := EntryOf(a);
      if at < |entries| && entries[at].seqno == a.seqno {
        byTopic := byTopic[a.topic := entries[at := e]];
        return;
      }
      byTopic := byTopic[a.topic := entries[..at] + [e] + entries[at..]];
    }

    /** MaxSeq: the last entry's, 0 for a topic with none. */
    method MaxSeq(t: TopicId) returns (top: nat)
      requires forall t :: t in byTopic ==> Rising(byTopic[t])
      ensures forall e :: e in Of(byTopic, t) ==> e.seqno <= top
      ensures top == 0 || exists e :: e in Of(byTopic, t) && e.seqno == top
    {
      var entries := Of(byTopic, t);
      if entries == [] {
        return 0;
      }
      assert entries[|entries| - 1] in entries;
      return entries[|entries| - 1].seqno;
    }

    /** RemoveIDs: the counterpart of deleting records of one topic; the topic goes with its last entry. */
    method RemoveIDs(t: TopicId, ids: set<ArchiveId>, ghost rs: Records)
      requires Mirrors(byTopic, rs) && forall id :: id in ids && id in rs ==> rs[id].topic == t
      modifies this
      ensures Mirrors(byTopic, rs - ids)
    {
      RemoveMirrors(byTopic, rs, t, ids);
      var entries := Of(byTopic, t);
      var kept := Kept(entries, ids);
      KeptAll(entries, ids);
      if |kept| == |entries| {
        assert byTopic == Removed(byTopic, t, ids);
        return;
      }
      if kept == [] {
        byTopic := byTopic - {t};
        return;
      }
      byTopic := byTopic[t := kept];
    }

    method RemoveTopic(t: TopicId)
      modifies this
      ensures byTopic == old(byTopic) - {t}
    {
      byTopic := byTopic - {t};
    }

    /** ExpiredBefore: per topic, the ids of the records created before the cutoff. */
    method ExpiredBefore(cutoff: int) returns (expired: map<TopicId, set<ArchiveId>>)
      ensures forall t :: t in expired <==> t in byTopic
      ensures forall t :: t in expired ==> expired[t] == set e | e in byTopic[t] && e.createdAt < cutoff :: e.id
    {
      expired := map[];
      var todo := byTopic.Keys;
      while todo != {}
        invariant todo <= byTopic.Keys
        invariant forall t :: t in expired <==> t in byTopic && t !in todo
        invariant forall t :: t in expired ==> expired[t] == set e | e in byTopic[t] && e.createdAt < cutoff :: e.id
        decreases |todo|
      {
        var t :| t in todo;
        var ids: set<ArchiveId> := {};
        for i := 0 to |byTopic[t]|
          invariant ids == set e | e in byTopic[t][..i] && e.createdAt < cutoff :: e.id
        {
          assert byTopic[t][..i + 1] == byTopic[t][..i] + [byTopic[t][i]];
          if byTopic[t][i].createdAt < cutoff {
            ids := ids + {byTopic[t][i].id};
          }
        }
        assert byTopic[t][..|byTopic[t]|] == byTopic[t];
        expired := expired[t := ids];
        todo := todo - {t};
      }
    }

    /** AllIDs: every record of a topic, in Seq order. */
    method AllIDs(t: TopicId, ghost rs: Records) returns (ids: seq<ArchiveId>)
      requires Mirrors(byTopic, rs)
      ensures forall id :: id in ids <==> id in rs && rs[id].topic == t
      ensures forall i, j :: 0 <= i < j < |ids| ==> ids[i] in rs && ids[j] in rs && rs[ids[i]].seqno < rs[ids[j]].seqno
    {
      var entries := Of(byTopic, t);
      ids := [];
      for i := 0 to |entries|
        invariant |ids| == i && forall j :: 0 <= j < i ==> ids[j] == entries[j].id
      {
        ids := ids + [entries[i].id];
      }
      forall i | 0 <= i < |ids|
        ensures ids[i] in rs && rs[ids[i]].topic == t && rs[ids[i]].seqno == entries[i].seqno
      {
        assert entries[i] in Of(byTopic, t);
      }
      forall id | id in rs && rs[id].topic == t
        ensures id in ids
      {
        var i :| 0 <= i < |entries| && entries[i] == EntryOf(rs[id]);
        assert ids[i] == id;
      }
    }
  }

  // ---- Removal ----

  /** slices.DeleteFunc over the doomed ids. */
  function Kept(es: seq<Entry>, doomed: set<ArchiveId>): seq<Entry>
  {
    if es == [] then [] else (if es[0].id in doomed then [] else [es[0]]) + Kept(es[1..], doomed)
  }

  lemma {:induction false} KeptAll(es: seq<Entry>, doomed: set<ArchiveId>)
    ensures |Kept(es, doomed)| <= |es| && (|Kept(es, doomed)| == |es| ==> Kept(es, doomed) == es)
  {
    if es != [] {
      KeptAll(es[1..], doomed);
    }
  }

  lemma {:induction false} KeptIn(es: seq<Entry>, doomed: set<ArchiveId>)
    ensures forall e :: e in Kept(es, doomed) <==> e in es && e.id !in doomed
    ensures Rising(es) ==> Rising(Kept(es, doomed))
  {
    if es != [] {
      KeptIn(es[1..], doomed);
      assert forall e :: e in es <==> e == es[0] || e in es[1..];
      if Rising(es) {
        assert forall e :: e in es[1..] ==> es[0].seqno < e.seqno;
        RisingCons(es[0], Kept(es[1..], doomed));
      }
    }
  }

  lemma {:induction false} RisingCons(x: Entry, es: seq<Entry>)
    requires Rising(es) && forall e :: e in es ==> x.seqno < e.seqno
    ensures Rising([x] + es)
  {
    var all := [x] + es;
    forall i, j | 0 <= i < j < |all|
      ensures all[i].seqno < all[j].seqno
    {
      assert all[j] == es[j - 1] && es[j - 1] in es;
    }
  }

  function Removed(m: ByTopic, t: TopicId, doomed: set<ArchiveId>): ByTopic
  {
    var kept := Kept(Of(m, t), doomed);
    if kept == [] then m - {t} else m[t := kept]
  }

  lemma {:induction false} RemoveMirrors(m: ByTopic, rs: Records, t: TopicId, doomed: set<ArchiveId>)
    requires Mirrors(m, rs) && forall id :: id in doomed && id in rs ==> rs[id].topic == t
    ensures Mirrors(Removed(m, t, doomed), rs - doomed)
  {
    KeptIn(Of(m, t), doomed);
    hide Sourced;
    hide Complete;
    RemoveNeat(m, t, doomed);
    hide Neat;
    hide Kept;
    hide Removed;
    RemoveSourced(m, rs, t, doomed, Removed(m, t, doomed), Kept(Of(m, t), doomed));
    RemoveComplete(m, rs, t, doomed, Removed(m, t, doomed), Kept(Of(m, t), doomed));
  }

  lemma {:induction false} RemoveNeat(m: ByTopic, t: TopicId, doomed: set<ArchiveId>)
    requires Neat(m)
    ensures Neat(Removed(m, t, doomed))
    ensures forall u: TopicId :: Of(Removed(m, t, doomed), u) == if u == t then Kept(Of(m, t), doomed) else Of(m, u)
  {
    KeptIn(Of(m, t), doomed);
    var m', kept := Removed(m, t, doomed), Kept(Of(m, t), doomed);
    assert t !in m ==> kept == [];
    hide Kept;
    hide Rising;
  }

  lemma {:induction false} RemoveSourced(m: ByTopic, rs: Records, t: TopicId, doomed: set<ArchiveId>, m': ByTopic, kept: seq<Entry>)
    requires Sourced(m, rs) && forall id :: id in doomed && id in rs ==> rs[id].topic == t
    requires forall u: TopicId :: Of(m', u) == if u == t then kept else Of(m, u)
    requires forall e :: e in kept <==> e in Of(m, t) && e.id !in doomed
    ensures Sourced(m', rs - doomed)
  {
    forall u: TopicId, e | e in Of(m', u)
      ensures e.id in rs - doomed && (rs - doomed)[e.id].topic == u && EntryOf((rs - doomed)[e.id]) == e
    {
      assert e in Of(m, u);
    }
  }

  lemma {:induction false} RemoveComplete(m: ByTopic, rs: Records, t: TopicId, doomed: set<ArchiveId>, m': ByTopic, kept: seq<Entry>)
    requires Complete(m, rs) && forall u: TopicId :: Of(m', u) == if u == t then kept else Of(m, u)
    requires forall e :: e in kept <==> e in Of(m, t) && e.id !in doomed
    ensures Complete(m', rs - doomed)
  {
    forall id | id in rs - doomed
      ensures rs[id].id == id && EntryOf(rs[id]) in Of(m', rs[id].topic)
    {
      assert EntryOf(rs[id]) in Of(m, rs[id].topic);
      assert Of(m', rs[id].topic) == if rs[id].topic == t then kept else Of(m, rs[id].topic);
    }
  }

  lemma {:induction false} AppendMirrors(m: ByTopic, rs: Records, hash: (TopicId, nat) -> ArchiveId, a: Archive, at: nat)
    requires Mirrors(m, rs) && Addressed(hash, rs) && a.id == hash(a.topic, a.seqno) && Slot(Of(m, a.topic), a.seqno, at)
    ensures Mirrors(m[a.topic := Placed(Of(m, a.topic), EntryOf(a), at)], rs[a.id := a]) && Addressed(hash, rs[a.id := a])
  {
    var es := Of(m, a.topic);
    assert Rising(es);
    PlacedRises(es, EntryOf(a), at);
    var m', rs' := m[a.topic := Placed(es, EntryOf(a), at)], rs[a.id := a];
    assert forall id :: id in rs ==> ((rs[id].topic == a.topic && rs[id].seqno == a.seqno) <==> id == a.id);
    hide Placed;
    hide Rising;
    hide Slot;
    assert EntryOf(a) in m'[a.topic];
    AppendSourced(m, rs, a, m');
    AppendComplete(m, rs, a, m');
    hide Sourced;
    hide Complete;
  }

  lemma {:induction false} AppendSourced(m: ByTopic, rs: Records, a: Archive, m': ByTopic)
    requires Sourced(m, rs) && (forall t: TopicId :: t != a.topic ==> Of(m', t) == Of(m, t))
    requires forall e :: e in Of(m', a.topic) ==> e == EntryOf(a) || (e in Of(m, a.topic) && e.seqno != a.seqno)
    requires forall id :: id in rs ==> ((rs[id].topic == a.topic && rs[id].seqno == a.seqno) <==> id == a.id)
    ensures Sourced(m', rs[a.id := a])
  {
    forall t: TopicId, e | e in Of(m', t)
      ensures e.id in rs[a.id := a] && rs[a.id := a][e.id].topic == t && EntryOf(rs[a.id := a][e.id]) == e
    {
      assert (t == a.topic && e == EntryOf(a)) || e in Of(m, t);
    }
  }

  lemma {:induction false} AppendComplete(m: ByTopic, rs: Records, a: Archive, m': ByTopic)
    requires Complete(m, rs) && (forall t: TopicId :: t != a.topic ==> Of(m', t) == Of(m, t))
    requires forall e :: e in Of(m', a.topic) <==> e == EntryOf(a) || (e in Of(m, a.topic) && e.seqno != a.seqno)
    requires forall id :: id in rs ==> ((rs[id].topic == a.topic && rs[id].seqno == a.seqno) <==> id == a.id)
    ensures Complete(m', rs[a.id := a])
  {
    var rs' := rs[a.id := a];
    forall id | id in rs'
      ensures rs'[id].id == id && EntryOf(rs'[id]) in Of(m', rs'[id].topic)
    {
      if id != a.id {
        assert EntryOf(rs[id]) in Of(m, rs[id].topic);
        assert rs[id].topic == a.topic ==> EntryOf(rs[id]) in Of(m', a.topic);
      } else {
        assert EntryOf(a) in Of(m', a.topic);
      }
    }
  }

  /** BuildL4FromEngine: whatever order the scan yields the records in. */
  method BuildL4(rs: Records, ghost hash: (TopicId, nat) -> ArchiveId) returns (idx: L4Index)
    requires Addressed(hash, rs)
    ensures fresh(idx) && Mirrors(idx.byTopic, rs)
  {
    idx := new L4Index();
    var todo := rs.Keys;
    assert rs - todo == map[];
    while todo != {}
      invariant todo <= rs.Keys && fresh(idx) && Mirrors(idx.byTopic, rs - todo) && Addressed(hash, rs - todo)
      decreases |todo|
    {
      hide Mirrors;
      var id :| id in todo;
      idx.Append(rs[id], hash, rs - todo);
      assert (rs - todo)[id := rs[id]] == rs - (todo - {id});
      todo := todo - {id};
    }
    assert rs - {} == rs;
  }

  // ---- Slots ----

  ghost predicate Above(slot: nat, held: set<nat>, earlier: seq<nat>)
  {
    slot > LAST_UTTERANCE_SEQ && (forall h :: h in held ==> slot > h) && forall e :: e in earlier ==> slot > e
  }

  /** top is the highest slot held, 0 when none is. */
  ghost predicate IsTop(top: nat, held: set<nat>)
  {
    (forall h :: h in held ==> h <= top) && (top == 0 || top in held)
  }

  /** The highest slot reached after these entries if slots never ran out: a function of what the caller names. */
  function Peak(top: nat, named: seq<nat>): nat
  {
    if named == [] then Max(top, LAST_UTTERANCE_SEQ)
    else
      var before, last := Peak(top, named[..|named| - 1]), named[|named| - 1];
      if last == 0 then before + 1 else Max(before, last)
  }

  function Max(a: nat, b: nat): nat { if a > b then a else b }

  /** The 64-bit successor. */
  function Inc(n: nat): nat { if n == MAX_SEQ then 0 else n + 1 }

  /** The slots of the entries, from the one next on offer. */
  function Slots(next: nat, named: seq<nat>): seq<nat>
    decreases |named|
  {
    if named == [] then []
    else if named[0] == 0 then [next] + Slots(Inc(next), named[1..])
    else [named[0]] + Slots(if named[0] >= next then Inc(named[0]) else next, named[1..])
  }

  /**
   * AppendBatch's allocation in 64 bits: named slots are kept, and an allocated one is above the dialogue's two
   * slots, everything the topic holds and every earlier entry of the batch, exactly when what the topic holds and the
   * batch names before it leave a slot free above; it is then the lowest such slot.
   */
  method AllocateSlots(top: nat, ghost held: set<nat>, named: seq<nat>) returns (slots: seq<nat>)
    requires top <= MAX_SEQ && IsTop(top, held) && forall n :: n in named ==> n <= MAX_SEQ
    ensures slots == Slots(Inc(Max(top, LAST_UTTERANCE_SEQ)), named)
    ensures |slots| == |named|
    ensures forall i :: 0 <= i < |named| ==> slots[i] <= MAX_SEQ && (named[i] != 0 ==> slots[i] == named[i])
    ensures forall i :: 0 <= i < |named| && named[i] == 0 ==> Fitting(slots, held, i, Peak(top, named[..i]))
  {
    var next: nat := Inc(Max(top, LAST_UTTERANCE_SEQ));
    ghost var start := next;
    slots := [];
    assert named[..0] == [] && named[0..] == named;
    for i := 0 to |named|
      invariant |slots| == i && Offers(next, held, slots, Peak(top, named[..i]))
      invariant forall j :: 0 <= j < i ==> slots[j] <= MAX_SEQ && (named[j] != 0 ==> slots[j] == named[j])
      invariant forall j :: 0 <= j < i && named[j] == 0 ==> Fitting(slots, held, j, Peak(top, named[..j]))
      invariant Slots(start, named) == slots + Slots(next, named[i..])
    {
      assert named[i] in named;
      assert named[..i + 1][..i] == named[..i] && named[i..][1..] == named[i + 1..];
      var slot: nat := named[i];
      ghost var was, offered := slots, next;
      if slot == 0 {
        slot, next := next, Inc(next);
      } else if slot >= next {
        next := Inc(slot);
      }
      slots := slots + [slot];
      SlotTaken(was, held, offered, named[i], slot, next, Peak(top, named[..i]), Peak(top, named[..i + 1]));
      FittingKept(was, held, slot);
      Assoc(was, [slot], Slots(next, named[i + 1..]));
      hide Offers;
      hide Fitting;
    }
  }

  /** While a slot is free, the one behind the peak is on offer; afterwards the last one is taken. */
  ghost predicate Offers(next: nat, held: set<nat>, slots: seq<nat>, peak: nat)
  {
    && next <= MAX_SEQ && peak >= LAST_UTTERANCE_SEQ
    && (forall h :: h in held ==> h <= peak) && (forall e :: e in slots ==> e <= peak)
    && (if peak < MAX_SEQ then next == peak + 1 else MAX_SEQ in held || MAX_SEQ in slots)
  }

  /** Allocated slot i is above everything before it exactly when a slot was free, and is then the next one up. */
  ghost predicate Fitting(slots: seq<nat>, held: set<nat>, i: nat, peak: nat)
    requires i < |slots|
  {
    (Above(slots[i], held, slots[..i]) <==> peak < MAX_SEQ) && (peak < MAX_SEQ ==> slots[i] == peak + 1)
  }

  lemma {:induction false} FittingKept(slots: seq<nat>, held: set<nat>, slot: nat)
    ensures forall j, p: nat :: 0 <= j < |slots| ==> Fitting(slots + [slot], held, j, p) == Fitting(slots, held, j, p)
  {
    forall j, p: nat | 0 <= j < |slots|
      ensures Fitting(slots + [slot], held, j, p) == Fitting(slots, held, j, p)
    {
      assert (slots + [slot])[..j] == slots[..j];
    }
  }

  lemma {:induction false} SlotTaken(was: seq<nat>, held: set<nat>, offered: nat, name: nat, slot: nat, next: nat, peak: nat, peak': nat)
    requires Offers(offered, held, was, peak) && name <= MAX_SEQ
    requires slot == (if name == 0 then offered else name) && next == if name == 0 || name >= offered then Inc(slot) else offered
    requires peak' == if name == 0 then peak + 1 else Max(peak, name)
    ensures Offers(next, held, was + [slot], peak')
    ensures name == 0 ==> Fitting(was + [slot], held, |was|, peak)
  {
    var slots := was + [slot];
    assert slots[..|was|] == was && slot in slots && forall e :: e in slots ==> e in was || e == slot;
    assert MAX_SEQ in was ==> MAX_SEQ in slots;
  }

  /** A batch that names the last slot, or reaches it, gets slot 0 for its next entry. */
  lemma {:induction false} LastSlotWraps()
    ensures Slots(3, [MAX_SEQ, 0]) == [MAX_SEQ, 0] && Peak(0, [MAX_SEQ]) == MAX_SEQ
    ensures Slots(3, [MAX_SEQ - 1, 0, 0]) == [MAX_SEQ - 1, MAX_SEQ, 0] && Peak(0, [MAX_SEQ - 1, 0]) == MAX_SEQ
    ensures !Above(0, {}, [MAX_SEQ])
  {
    var a, b, c := [MAX_SEQ, 0], [MAX_SEQ - 1, 0, 0], [MAX_SEQ - 1, 0];
    assert a[1..] == [0] && [0][1..] == [] && b[1..] == [0, 0] && [0, 0][1..] == [0];
    assert Slots(0, [0]) == [0] && Slots(MAX_SEQ, [0, 0]) == [MAX_SEQ, 0];
    assert [MAX_SEQ][..0] == [] && c[..1] == [MAX_SEQ - 1] && [MAX_SEQ - 1][..0] == [];
  }
}
