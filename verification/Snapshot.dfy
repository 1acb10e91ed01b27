// Index snapshots: MAGIC(4) VERSION(1) AGENT_COUNT(4), then per agent AGENT_ID(8) COUNT(4)
// entries(16 each), then CRC32(4).
module Snapshots {
  import opened Common
  import opened Bytes

  const SNAPSHOT_MAGIC: uint32 := 0x534E4150
  const SNAPSHOT_VERSION: byte := 0x03

  /** agentID -> idHash -> frame offset, the engine's primary index. */
  type Index = map<uint64, map<uint64, nat>>

  datatype Entry = Entry(id: uint64, offset: nat)

  /** One agent section in the order it is written: the order a Go map hands out is arbitrary. */
  datatype Section = Section(agent: uint64, entries: seq<Entry>)
  {
    predicate Fits() {
      |entries| < 0x1_0000_0000 && forall e :: e in entries ==> e.offset < 0x1_0000_0000_0000_0000
    }
  }

  predicate SectionsFit(secs: seq<Section>)
  {
    |secs| < 0x1_0000_0000 && forall s :: s in secs ==> s.Fits()
  }

  function Prune(idx: Index): Index
  {
    map a | a in idx && idx[a] != map[] :: idx[a]
  }

  /** Counts and offsets are within the widths the blob gives them. */
  predicate IndexFits(idx: Index)
  {
    |idx| < 0x1_0000_0000 &&
    forall a :: a in idx ==> |idx[a]| < 0x1_0000_0000 && forall id :: id in idx[a] ==> idx[a][id] < 0x1_0000_0000_0000_0000
  }

  predicate NoEmptyDomain(idx: Index)
  {
    forall a :: a in idx ==> idx[a] != map[]
  }

  function EntriesMap(es: seq<Entry>): map<uint64, nat>
  {
    if es == [] then map[] else EntriesMap(es[..|es| - 1])[es[|es| - 1].id := es[|es| - 1].offset]
  }

  function SectionsIndex(secs: seq<Section>): Index
  {
    if secs == [] then map[]
    else SectionsIndex(secs[..|secs| - 1])[secs[|secs| - 1].agent := EntriesMap(secs[|secs| - 1].entries)]
  }

  // ---- Layout ----

  function EntryBytes(e: Entry): (b: seq<byte>)
    ensures |b| == 16
  {
    LE(e.id, 8) + LE(e.offset, 8)
  }

  function EntriesBytes(es: seq<Entry>): (b: seq<byte>)
    ensures |b| == 16 * |es|
  {
    if es == [] then [] else EntriesBytes(es[..|es| - 1]) + EntryBytes(es[|es| - 1])
  }

  function SectionBytes(s: Section): (b: seq<byte>)
    ensures |b| == 12 + 16 * |s.entries|
  {
    LE(s.agent, 8) + LE(|s.entries|, 4) + EntriesBytes(s.entries)
  }

  function SectionsBytes(secs: seq<Section>): seq<byte>
  {
    if secs == [] then [] else SectionsBytes(secs[..|secs| - 1]) + SectionBytes(secs[|secs| - 1])
  }

  function EnvelopeHead(count: nat): (b: seq<byte>)
    ensures |b| == 9
  {
    LE(SNAPSHOT_MAGIC, 4) + [SNAPSHOT_VERSION] + LE(count, 4)
  }

  function BlobBody(secs: seq<Section>): (b: seq<byte>)
    ensures |b| == 9 + |SectionsBytes(secs)|
  {
    EnvelopeHead(|secs|) + SectionsBytes(secs)
  }

  function BlobBytes(crc: Checksum, secs: seq<Section>): (b: seq<byte>)
    ensures |b| == 13 + |SectionsBytes(secs)|
  {
    BlobBody(secs) + LE(crc(BlobBody(secs)), 4)
  }

  // ---- Building ----

  /** A section holds exactly one nonempty domain of idx, every entry once. */
  predicate Renders(s: Section, idx: Index)
  {
    s.agent in idx && idx[s.agent] != map[] &&
    |s.entries| == |idx[s.agent]| && EntriesMap(s.entries) == idx[s.agent]
  }

  /** secs lists the nonempty domains of idx, each once. */
  predicate Lists(secs: seq<Section>, idx: Index)
  {
    && (forall i, j :: 0 <= i < j < |secs| ==> secs[i].agent != secs[j].agent)
    && (forall s :: s in secs ==> Renders(s, idx))
    && SectionsIndex(secs) == Prune(idx)
  }

  /** One agent's entries, in whatever order the map yields them. */
  method AppendEntries(buf: seq<byte>, m: map<uint64, nat>) returns (out: seq<byte>, ghost es: seq<Entry>)
    ensures out == buf + EntriesBytes(es)
    ensures |es| == |m| && EntriesMap(es) == m
  {
    out, es := buf, [];
    var todo := m.Keys;
    while todo != {}
      invariant todo <= m.Keys
      invariant out == buf + EntriesBytes(es)
      invariant |es| + |todo| == |m.Keys|
      invariant EntriesMap(es) == m - todo
      decreases |todo|
    {
      var id :| id in todo;
      var e := Entry(id, m[id]);
      out := out + LE(id, 8) + LE(m[id], 8);
      ghost var next := es + [e];
      assert next[..|next| - 1] == es;
      assert EntriesMap(next) == m - (todo - {id});
      es, todo := next, todo - {id};
    }
    assert m - {} == m;
  }

  /** The part of a listing written so far: todo holds the domains still to come. */
  ghost predicate ListsExcept(secs: seq<Section>, idx: Index, todo: set<uint64>)
  {
    && (forall i, j :: 0 <= i < j < |secs| ==> secs[i].agent != secs[j].agent)
    && (forall s :: s in secs ==> s.agent !in todo && Renders(s, idx))
    && SectionsIndex(secs) == Prune(idx) - todo
  }

  ghost predicate ListedSoFar(secs: seq<Section>, idx: Index, todo: set<uint64>, count: nat, sections: seq<byte>)
  {
    ListsExcept(secs, idx, todo) && count == |secs| && sections == SectionsBytes(secs)
  }

  lemma {:induction false} ListNone(idx: Index)
    ensures ListedSoFar([], idx, Prune(idx).Keys, 0, [])
  {
    assert Prune(idx) - Prune(idx).Keys == map[];
  }

  lemma {:induction false} ListAll(secs: seq<Section>, idx: Index, count: nat, sections: seq<byte>)
    requires ListedSoFar(secs, idx, {}, count, sections)
    ensures Lists(secs, idx)
  {
    assert Prune(idx) - {} == Prune(idx);
  }

  lemma {:induction false} ListOneMore(secs: seq<Section>, idx: Index, todo: set<uint64>, count: nat, sections: seq<byte>, s: Section)
    requires ListedSoFar(secs, idx, todo, count, sections)
    requires s.agent in todo && Renders(s, idx)
    ensures ListedSoFar(secs + [s], idx, todo - {s.agent}, count + 1, sections + SectionBytes(s))
  {
    var next := secs + [s];
    assert next[..|next| - 1] == secs && next[|next| - 1] == s;
    assert SectionsIndex(next) == Prune(idx) - (todo - {s.agent});
  }

  /** The agent sections, one per domain that holds a record, in whatever order the map yields them. */
  method AppendSections(idx: Index) returns (count: nat, sections: seq<byte>, ghost secs: seq<Section>)
    ensures Lists(secs, idx)
    ensures count == |secs| && sections == SectionsBytes(secs)
  {
    var todo := Prune(idx).Keys;
    count, sections, secs := 0, [], [];
    ListNone(idx);
    while todo != {}
      invariant todo <= Prune(idx).Keys
      invariant ListedSoFar(secs, idx, todo, count, sections)
      decreases |todo|
    {
      var agent :| agent in todo;
      ghost var before := sections;
      ghost var es;
      sections, es := AppendSection(sections, agent, idx[agent]);
      ListOneMore(secs, idx, todo, count, before, Section(agent, es));
      count, secs, todo := count + 1, secs + [Section(agent, es)], todo - {agent};
    }
    ListAll(secs, idx, count, sections);
  }

  method AppendSection(buf: seq<byte>, agent: uint64, m: map<uint64, nat>) returns (out: seq<byte>, ghost es: seq<Entry>)
    ensures out == buf + SectionBytes(Section(agent, es))
    ensures |es| == |m| && EntriesMap(es) == m
  {
    var head := LE(agent, 8) + LE(|m|, 4);
    out, es := AppendEntries(buf + head, m);
    assert out == buf + (head + EntriesBytes(es));
  }

  /** BuildSnapshot: every serialization it can produce lays out some listing of the index, and parses back to it. */
  method BuildSnapshot(crc: Checksum, idx: Index) returns (blob: seq<byte>, ghost secs: seq<Section>)
    ensures Lists(secs, idx)
    ensures blob == BlobBytes(crc, secs)
    ensures IndexFits(idx) ==> Parse(crc, blob) == Some(Prune(idx)) && BlobLength(blob) == Some(|blob|)
  {
    var count, sections;
    count, sections, secs := AppendSections(idx);
    blob := EnvelopeHead(count) + sections;
    blob := blob + LE(crc(blob), 4);
    if IndexFits(idx) {
      ListingFits(idx, secs);
      ParseUndoesBuild(crc, idx, secs);
      BlobLengthIgnoresSuffix(crc, secs, []);
      assert blob + [] == blob;
    }
  }

  /** A listing as long as its map holds no id twice, so each of its entries is in the map. */
  lemma {:induction false} EntriesKept(es: seq<Entry>)
    ensures |EntriesMap(es)| <= |es|
    ensures |EntriesMap(es)| == |es| ==> forall e :: e in es ==> e.id in EntriesMap(es) && EntriesMap(es)[e.id] == e.offset
  {
    if es != [] {
      var rest, last := es[..|es| - 1], es[|es| - 1];
      EntriesKept(rest);
      var m := EntriesMap(rest);
      assert EntriesMap(es).Keys == m.Keys + {last.id};
      assert last.id in m ==> m.Keys + {last.id} == m.Keys;
      assert forall e :: e in es ==> e in rest || e == last;
    }
  }

  lemma {:induction false} ListingFits(idx: Index, secs: seq<Section>)
    requires Lists(secs, idx) && IndexFits(idx)
    ensures SectionsFit(secs)
  {
    var agents := seq(|secs|, i requires 0 <= i < |secs| => secs[i].agent);
    assert forall s :: s in secs ==> Renders(s, idx);
    forall a | a in agents
      ensures a in idx
    {
      var i :| 0 <= i < |secs| && agents[i] == a;
      assert secs[i] in secs;
    }
    DistinctBound(agents, idx.Keys);
    assert |idx.Keys| == |idx|;
    forall s | s in secs
      ensures s.Fits()
    {
      EntriesKept(s.entries);
    }
  }

  // ---- Parsing ----

  function EntryAt(raw: seq<byte>, pos: nat): (e: Entry)
    requires pos + 16 <= |raw|
  {
    Pow256Widths();
    FromLEBound(raw[pos..pos + 8]);
    Entry(FromLE(raw[pos..pos + 8]), FromLE(raw[pos + 8..pos + 16]))
  }

  function EntriesAt(raw: seq<byte>, pos: nat, count: nat): (es: seq<Entry>)
    requires pos + 16 * count <= |raw|
    ensures |es| == count
    ensures forall k :: 0 <= k < count ==> es[k] == EntryAt(raw, pos + 16 * k)
  {
    seq(count, k requires 0 <= k < count => EntryAt(raw, pos + 16 * k))
  }

  datatype Parsed = Parsed(section: Section, next: nat)

  /** One agent section at pos, against the bounds parseSnapshotAgent checks. */
  function SectionAt(raw: seq<byte>, pos: nat): Option<Parsed>
  {
    if pos + 12 > |raw| - 4 then None
    else
      var count := FromLE(raw[pos + 8..pos + 12]);
      if pos + 12 + count * 16 > |raw| - 4 then None
      else
        Pow256Widths();
        FromLEBound(raw[pos..pos + 8]);
        Some(Parsed(Section(FromLE(raw[pos..pos + 8]), EntriesAt(raw, pos + 12, count)), pos + 12 + count * 16))
  }

  function SectionsAt(raw: seq<byte>, pos: nat, count: nat): Option<(seq<Section>, nat)>
  {
    if count == 0 then Some(([], pos))
    else
      match SectionsAt(raw, pos, count - 1)
      case None => None
      case Some((secs, p)) =>
        match SectionAt(raw, p)
        case None => None
        case Some(got) => Some((secs + [got.section], got.next))
  }

  predicate EnvelopeOk(crc: Checksum, raw: seq<byte>)
  {
    && |raw| >= 13
    && crc(raw[..|raw| - 4]) == FromLE(raw[|raw| - 4..])
    && FromLE(raw[0..4]) == SNAPSHOT_MAGIC
    && raw[4] == SNAPSHOT_VERSION
  }

  function Parse(crc: Checksum, raw: seq<byte>): Option<Index>
  {
    if !EnvelopeOk(crc, raw) then None
    else
      match SectionsAt(raw, 9, FromLE(raw[5..9]))
      case None => None
      case Some((secs, _)) => Some(SectionsIndex(secs))
  }

  /** parseSnapshotAgent as it runs: pos advances and the map fills entry by entry. */
  method ParseSnapshotAgent(raw: seq<byte>, at: nat)
    returns (ok: bool, agent: uint64, m: map<uint64, nat>, next: nat)
    ensures ok <==> SectionAt(raw, at).Some?
    ensures ok ==> var got := SectionAt(raw, at).value;
                   agent == got.section.agent && m == EntriesMap(got.section.entries) && next == got.next
  {
    ok, agent, m, next := false, 0, map[], 0;
    if at + 12 > |raw| - 4 {
      return;
    }
    Pow256Widths();
    FromLEBound(raw[at..at + 8]);
    agent := FromLE(raw[at..at + 8]);
    var count := FromLE(raw[at + 8..at + 12]);
    var pos := at + 12;
    if pos + count * 16 > |raw| - 4 {
      return;
    }
    for k := 0 to count
      invariant pos == at + 12 + 16 * k <= |raw|
      invariant m == EntriesMap(EntriesAt(raw, at + 12, k))
    {
      var e := EntryAt(raw, pos);
      m := m[e.id := e.offset];
      var upto := EntriesAt(raw, at + 12, k + 1);
      assert upto[..k] == EntriesAt(raw, at + 12, k);
      pos := pos + 16;
    }
    ok, next := true, pos;
  }

  method ParseSnapshot(crc: Checksum, raw: seq<byte>) returns (r: Option<Index>)
    ensures r == Parse(crc, raw)
  {
    if |raw| < 13 || crc(raw[..|raw| - 4]) != FromLE(raw[|raw| - 4..]) ||
       FromLE(raw[0..4]) != SNAPSHOT_MAGIC || raw[4] != SNAPSHOT_VERSION {
      return None;
    }
    var agentCount := FromLE(raw[5..9]);
    var pos := 9;
    var idx: Index := map[];
    for i := 0 to agentCount
      invariant SectionsAt(raw, 9, i).Some?
      invariant SectionsAt(raw, 9, i).value.1 == pos
      invariant idx == SectionsIndex(SectionsAt(raw, 9, i).value.0)
    {
      var ok, agent, m, next := ParseSnapshotAgent(raw, pos);
      SectionsAtStep(raw, 9, i);
      if !ok {
        SectionsAtFails(raw, 9, i + 1, agentCount);
        return None;
      }
      idx := idx[agent := m];
      pos := next;
    }
    return Some(idx);
  }

  lemma {:induction false} SectionsAtStep(raw: seq<byte>, pos: nat, i: nat)
    requires SectionsAt(raw, pos, i).Some?
    ensures var (secs, p) := SectionsAt(raw, pos, i).value;
            var got := SectionAt(raw, p);
            if got.None? then SectionsAt(raw, pos, i + 1).None?
            else SectionsAt(raw, pos, i + 1) == Some((secs + [got.value.section], got.value.next)) &&
                 SectionsIndex(secs + [got.value.section]) ==
                 SectionsIndex(secs)[got.value.section.agent := EntriesMap(got.value.section.entries)]
  {
    var (secs, p) := SectionsAt(raw, pos, i).value;
    var got := SectionAt(raw, p);
    if got.Some? {
      var all := secs + [got.value.section];
      assert all[..|all| - 1] == secs;
    }
  }

  lemma {:induction false} SectionsAtFails(raw: seq<byte>, pos: nat, i: nat, count: nat)
    requires i <= count && SectionsAt(raw, pos, i).None?
    ensures SectionsAt(raw, pos, count).None?
    decreases count - i
  {
    if i < count {
      SectionsAtFails(raw, pos, i + 1, count);
    }
  }

  /** snapshotBlobLength: the envelope start and the section walk, with no checksum to lean on. */
  function BlobLength(raw: seq<byte>): Option<nat>
  {
    if |raw| < 13 then None
    else if FromLE(raw[0..4]) != SNAPSHOT_MAGIC || raw[4] != SNAPSHOT_VERSION then None
    else
      match SectionsAt(raw, 9, FromLE(raw[5..9]))
      case None => None
      case Some((_, pos)) => if pos + 4 > |raw| then None else Some(pos + 4)
  }

  // ---- Round trips ----

  lemma {:induction false} EntriesBytesAt(es: seq<Entry>, k: nat)
    requires k < |es|
    ensures EntriesBytes(es)[16 * k..16 * k + 16] == EntryBytes(es[k])
  {
    var n := |es| - 1;
    var front := EntriesBytes(es[..n]);
    if k < n {
      EntriesBytesAt(es[..n], k);
      assert EntriesBytes(es)[16 * k..16 * k + 16] == front[16 * k..16 * k + 16];
    }
  }

  lemma {:induction false} EntriesAtOne(raw: seq<byte>, pos: nat, es: seq<Entry>, k: nat)
    requires k < |es| && es[k].offset < 0x1_0000_0000_0000_0000
    requires pos + 16 * |es| <= |raw| && raw[pos..pos + 16 * |es|] == EntriesBytes(es)
    ensures EntryAt(raw, pos + 16 * k) == es[k]
  {
    var block := EntriesBytes(es);
    EntriesBytesAt(es, k);
    hide EntriesBytes;
    hide EntryBytes;
    hide EntryAt;
    SubSlice(raw, pos, block, 16 * k, 16 * k + 16);
    EntryAtBytes(raw, pos + 16 * k, es[k]);
  }

  lemma {:induction false} EntriesAtBytes(raw: seq<byte>, pos: nat, es: seq<Entry>)
    requires forall e :: e in es ==> e.offset < 0x1_0000_0000_0000_0000
    requires pos + 16 * |es| <= |raw| && raw[pos..pos + 16 * |es|] == EntriesBytes(es)
    ensures EntriesAt(raw, pos, |es|) == es
  {
    var got := EntriesAt(raw, pos, |es|);
    forall k | 0 <= k < |es|
      ensures got[k] == es[k]
    {
      assert es[k] in es;
      EntriesAtOne(raw, pos, es, k);
    }
  }

  lemma {:induction false} EntryAtBytes(raw: seq<byte>, pos: nat, e: Entry)
    requires e.offset < 0x1_0000_0000_0000_0000
    requires pos + 16 <= |raw| && raw[pos..pos + 16] == EntryBytes(e)
    ensures EntryAt(raw, pos) == e
  {
    SubSlice(raw, pos, EntryBytes(e), 0, 8);
    SubSlice(raw, pos, EntryBytes(e), 8, 16);
    assert EntryBytes(e)[0..8] == LE(e.id, 8) && EntryBytes(e)[8..16] == LE(e.offset, 8);
    LE64(e.id);
    LE64(e.offset);
  }

  lemma {:induction false} SectionAtBytes(raw: seq<byte>, pos: nat, s: Section)
    requires s.Fits()
    requires pos + |SectionBytes(s)| <= |raw| - 4
    requires raw[pos..pos + |SectionBytes(s)|] == SectionBytes(s)
    ensures SectionAt(raw, pos) == Some(Parsed(s, pos + |SectionBytes(s)|))
  {
    hide LE;
    hide FromLE;
    hide EntriesBytes;
    hide EntriesAt;
    var block := SectionBytes(s);
    SubSlice(raw, pos, block, 0, 8);
    SubSlice(raw, pos, block, 8, 12);
    SubSlice(raw, pos, block, 12, |block|);
    assert block[0..8] == LE(s.agent, 8) && block[8..12] == LE(|s.entries|, 4) && block[12..] == EntriesBytes(s.entries);
    LE64(s.agent);
    LE32(|s.entries|);
    EntriesAtBytes(raw, pos + 12, s.entries);
  }

  lemma {:induction false} SectionsAtBytes(raw: seq<byte>, pos: nat, secs: seq<Section>)
    requires forall s :: s in secs ==> s.Fits()
    requires pos + |SectionsBytes(secs)| <= |raw| - 4
    requires raw[pos..pos + |SectionsBytes(secs)|] == SectionsBytes(secs)
    ensures SectionsAt(raw, pos, |secs|) == Some((secs, pos + |SectionsBytes(secs)|))
  {
    hide SectionAt;
    hide SectionBytes;
    if secs != [] {
      var n := |secs| - 1;
      var front, last, block := SectionsBytes(secs[..n]), SectionBytes(secs[n]), SectionsBytes(secs);
      assert block == front + last;
      hide SectionsBytes;
      hide SectionsAt;
      hide SectionsIndex;
      hide Section.Fits;
      SplitBlock(raw, pos, front, last);
      SectionsAtBytes(raw, pos, secs[..n]);
      SectionAtBytes(raw, pos + |front|, secs[n]);
      SectionsAtStep(raw, pos, n);
      assert secs[..n] + [secs[n]] == secs;
    }
  }

  lemma {:induction false} EnvelopeOfBlob(crc: Checksum, raw: seq<byte>, secs: seq<Section>)
    requires SectionsFit(secs)
    requires |raw| >= |BlobBytes(crc, secs)| && raw[..|BlobBytes(crc, secs)|] == BlobBytes(crc, secs)
    ensures FromLE(raw[0..4]) == SNAPSHOT_MAGIC && raw[4] == SNAPSHOT_VERSION
    ensures FromLE(raw[5..9]) == |secs|
    ensures SectionsAt(raw, 9, |secs|) == Some((secs, |BlobBytes(crc, secs)| - 4))
  {
    hide LE;
    hide FromLE;
    hide SectionsBytes;
    hide SectionsAt;
    var blob, head := BlobBytes(crc, secs), EnvelopeHead(|secs|);
    assert raw[0..|blob|] == blob;
    SubSlice(raw, 0, blob, 0, 9);
    assert blob[0..9] == head;
    SubSlice(raw, 0, head, 0, 4);
    SubSlice(raw, 0, head, 5, 9);
    assert raw[4] == raw[0..9][4] == head[4];
    assert head[0..4] == LE(SNAPSHOT_MAGIC, 4) && head[5..9] == LE(|secs|, 4);
    LE32(SNAPSHOT_MAGIC);
    LE32(|secs|);
    SubSlice(raw, 0, blob, 9, |blob| - 4);
    assert blob[9..|blob| - 4] == SectionsBytes(secs);
    SectionsAtBytes(raw, 9, secs);
  }

  /** Parsing undoes building for every order the two maps are walked in. */
  lemma {:induction false} ParseBlob(crc: Checksum, secs: seq<Section>)
    requires SectionsFit(secs)
    ensures Parse(crc, BlobBytes(crc, secs)) == Some(SectionsIndex(secs))
  {
    var blob := BlobBytes(crc, secs);
    EnvelopeOfBlob(crc, blob, secs);
    assert blob[..|blob| - 4] == BlobBody(secs);
    assert blob[|blob| - 4..] == LE(crc(BlobBody(secs)), 4);
    LE32(crc(BlobBody(secs)));
  }

  /** The round trip on the index itself: what comes back is the index without its empty domains. */
  lemma {:induction false} ParseUndoesBuild(crc: Checksum, idx: Index, secs: seq<Section>)
    requires Lists(secs, idx) && SectionsFit(secs)
    ensures Parse(crc, BlobBytes(crc, secs)) == Some(Prune(idx))
    ensures Prune(idx) == idx <==> NoEmptyDomain(idx)
  {
    ParseBlob(crc, secs);
    if Prune(idx) == idx {
      forall a | a in idx
        ensures idx[a] != map[]
      {
        assert a in Prune(idx);
      }
    }
  }

  /** The blob's end is found whatever bytes follow it. */
  lemma {:induction false} BlobLengthIgnoresSuffix(crc: Checksum, secs: seq<Section>, rest: seq<byte>)
    requires SectionsFit(secs)
    ensures BlobLength(BlobBytes(crc, secs) + rest) == Some(|BlobBytes(crc, secs)|)
  {
    EnvelopeOfBlob(crc, BlobBytes(crc, secs) + rest, secs);
  }

  // ---- What decodes is an encoding ----

  lemma {:induction false} EntryOfFields(raw: seq<byte>, pos: nat)
    requires pos + 16 <= |raw|
    ensures EntryBytes(EntryAt(raw, pos)) == raw[pos..pos + 16] && EntryAt(raw, pos).offset < 0x1_0000_0000_0000_0000
  {
    Pow256Widths();
    FromLEBound(raw[pos + 8..pos + 16]);
    LEOfFromLE(raw[pos..pos + 8]);
    LEOfFromLE(raw[pos + 8..pos + 16]);
    hide LE;
    hide FromLE;
    assert raw[pos..pos + 8] + raw[pos + 8..pos + 16] == raw[pos..pos + 16];
  }

  lemma {:induction false} EntriesOfFields(raw: seq<byte>, pos: nat, count: nat)
    requires pos + 16 * count <= |raw|
    ensures EntriesBytes(EntriesAt(raw, pos, count)) == raw[pos..pos + 16 * count]
    ensures forall e :: e in EntriesAt(raw, pos, count) ==> e.offset < 0x1_0000_0000_0000_0000
  {
    hide EntryAt;
    hide EntryBytes;
    var es := EntriesAt(raw, pos, count);
    if count > 0 {
      EntriesOfFields(raw, pos, count - 1);
      assert es[..count - 1] == EntriesAt(raw, pos, count - 1);
      EntryOfFields(raw, pos + 16 * (count - 1));
      assert raw[pos..pos + 16 * count] == raw[pos..pos + 16 * (count - 1)] + raw[pos + 16 * (count - 1)..pos + 16 * count];
    }
    forall e | e in es
      ensures e.offset < 0x1_0000_0000_0000_0000
    {
      var k :| 0 <= k < count && es[k] == e;
      EntryOfFields(raw, pos + 16 * k);
    }
  }

  /** A section that decodes is, byte for byte, the section it decodes to. */
  lemma {:induction false} SectionEncodes(raw: seq<byte>, pos: nat)
    requires SectionAt(raw, pos).Some?
    ensures var got := SectionAt(raw, pos).value;
            && got.section.Fits() && got.next == pos + |SectionBytes(got.section)| <= |raw| - 4
            && raw[pos..got.next] == SectionBytes(got.section)
  {
    var count := FromLE(raw[pos + 8..pos + 12]);
    Pow256Widths();
    FromLEBound(raw[pos..pos + 8]);
    FromLEBound(raw[pos + 8..pos + 12]);
    LEOfFromLE(raw[pos..pos + 8]);
    LEOfFromLE(raw[pos + 8..pos + 12]);
    EntriesOfFields(raw, pos + 12, count);
    assert SectionAt(raw, pos).value.section.Fits();
    hide LE;
    hide FromLE;
    hide EntriesAt;
    hide EntriesBytes;
    hide Section.Fits;
    ThreeParts(raw, pos, pos + 12 + 16 * count);
  }

  lemma {:induction false} ThreeParts(raw: seq<byte>, pos: nat, end: nat)
    requires pos + 12 <= end <= |raw|
    ensures raw[pos..end] == raw[pos..pos + 8] + raw[pos + 8..pos + 12] + raw[pos + 12..end]
  {
  }

  lemma {:induction false} SectionsEncode(raw: seq<byte>, pos: nat, count: nat)
    requires SectionsAt(raw, pos, count).Some? && pos <= |raw|
    ensures var (secs, next) := SectionsAt(raw, pos, count).value;
            && |secs| == count && (forall s :: s in secs ==> s.Fits())
            && pos <= next <= |raw| && raw[pos..next] == SectionsBytes(secs)
  {
    hide SectionAt;
    hide SectionBytes;
    if count > 0 {
      SectionsEncode(raw, pos, count - 1);
      var (secs, p) := SectionsAt(raw, pos, count - 1).value;
      SectionEncodes(raw, p);
      var got := SectionAt(raw, p).value;
      var all := secs + [got.section];
      assert all[..|all| - 1] == secs;
      assert raw[pos..got.next] == raw[pos..p] + raw[p..got.next];
    }
  }

  /** The start of a blob: magic, version, count. */
  lemma {:induction false} HeadEncodes(raw: seq<byte>)
    requires |raw| >= 9 && FromLE(raw[0..4]) == SNAPSHOT_MAGIC && raw[4] == SNAPSHOT_VERSION
    ensures raw[..9] == EnvelopeHead(FromLE(raw[5..9])) && FromLE(raw[5..9]) < 0x1_0000_0000
  {
    Pow256Widths();
    FromLEBound(raw[5..9]);
    LEOfFromLE(raw[0..4]);
    LEOfFromLE(raw[5..9]);
    hide LE;
    hide FromLE;
    assert raw[..9] == raw[0..4] + [raw[4]] + raw[5..9];
  }

  /** Where a blob's end is found, a whole blob stands: head, sections, and room for the checksum. */
  lemma {:induction false} FoundIsBlob(raw: seq<byte>) returns (secs: seq<Section>)
    requires BlobLength(raw).Some?
    ensures var n := BlobLength(raw).value; n <= |raw| && n == 13 + |SectionsBytes(secs)| && raw[..n - 4] == BlobBody(secs) && SectionsFit(secs)
  {
    HeadEncodes(raw);
    var count := FromLE(raw[5..9]);
    hide FromLE;
    hide EnvelopeHead;
    SectionsEncode(raw, 9, count);
    var got := SectionsAt(raw, 9, count).value;
    secs := got.0;
    assert raw[..got.1] == raw[..9] + raw[9..got.1];
  }

  /** What parses starts with a whole blob of the sections it parses to, and its last four bytes are the checksum of the rest. */
  lemma {:induction false} ParsedIsBlob(crc: Checksum, raw: seq<byte>) returns (secs: seq<Section>)
    requires Parse(crc, raw).Some?
    ensures SectionsFit(secs) && Parse(crc, raw).value == SectionsIndex(secs)
    ensures |BlobBody(secs)| + 4 <= |raw| && raw[..|BlobBody(secs)|] == BlobBody(secs) && raw[|raw| - 4..] == LE(crc(raw[..|raw| - 4]), 4)
  {
    HeadEncodes(raw);
    LEOfFromLE(raw[|raw| - 4..]);
    var count := FromLE(raw[5..9]);
    hide FromLE;
    hide EnvelopeHead;
    SectionsEncode(raw, 9, count);
    var got := SectionsAt(raw, 9, count).value;
    secs := got.0;
    SectionsEnd(raw, 9, count);
    assert raw[..got.1] == raw[..9] + raw[9..got.1];
  }

  lemma {:induction false} SectionsEnd(raw: seq<byte>, pos: nat, count: nat)
    requires SectionsAt(raw, pos, count).Some? && pos <= |raw| - 4
    ensures SectionsAt(raw, pos, count).value.1 <= |raw| - 4
  {
    if count > 0 {
      SectionsEnd(raw, pos, count - 1);
    }
  }

  /** A blob never starts with the zero bytes a record scan takes for unwritten space. */
  lemma {:induction false} BlobFirstByte(crc: Checksum, secs: seq<Section>)
    ensures BlobBytes(crc, secs)[0] == 0x50
  {
    FirstLE(SNAPSHOT_MAGIC, 4);
    hide LE;
    hide SectionsBytes;
    assert EnvelopeHead(|secs|)[0] == LE(SNAPSHOT_MAGIC, 4)[0];
    assert BlobBody(secs)[0] == EnvelopeHead(|secs|)[0];
    assert BlobBytes(crc, secs)[0] == BlobBody(secs)[0];
  }
}
