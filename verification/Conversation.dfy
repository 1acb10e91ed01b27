// One agent domain's conversation: internal/search.go, update.go, l2.go, domain/l2meta.go and the consolidation of
// internal/dream/compress.go, over the scene records, the topic records and their cache.
module Conversations {
  import opened Common
  import opened L2Metas
  import opened TopicForest

  const NONE: nat := 0

  datatype SceneSlot = SceneSlot(turnSeq: nat, lastUsed: int)

  type Scenes = map<SceneId, SceneSlot>

  /** The id hashes, uninterpreted. */
  datatype Ids = Ids(turn: (SceneId, nat) -> TopicId, fused: (SceneId, int, int, multiset<TopicId>) -> TopicId)

  /** Turn ids do not collide with each other or with fused ids, and none is the reserved zero. */
  ghost predicate Honest(ids: Ids)
  {
    && (forall s: SceneId, k: nat, s': SceneId, k': nat :: ids.turn(s, k) == ids.turn(s', k') ==> s == s' && k == k')
    && (forall s: SceneId, k: nat :: ids.turn(s, k) != NONE)
    && (forall s: SceneId, k: nat, s': SceneId, a: int, b: int, ms: multiset<TopicId> :: ids.turn(s, k) != ids.fused(s', a, b, ms))
  }

  // ---- Scene records ----

  /** How CurrentScene orders two scenes: last used, then the longer conversation, then the smaller id. */
  predicate Before(scenes: Scenes, a: SceneId, b: SceneId)
    requires a in scenes && b in scenes
  {
    var x, y := scenes[a], scenes[b];
    || x.lastUsed < y.lastUsed
    || (x.lastUsed == y.lastUsed && x.turnSeq < y.turnSeq)
    || (x.lastUsed == y.lastUsed && x.turnSeq == y.turnSeq && a > b)
  }

  /** The scene a domain resumes: of the last used ones the longest conversation, of those the one with the smallest id. */
  ghost predicate Resumes(scenes: Scenes, r: SceneId)
  {
    && r in scenes
    && (forall s :: s in scenes ==> scenes[s].lastUsed <= scenes[r].lastUsed)
    && (forall s :: s in scenes && scenes[s].lastUsed == scenes[r].lastUsed ==> scenes[s].turnSeq <= scenes[r].turnSeq)
    && (forall s :: s in scenes && scenes[s] == scenes[r] ==> r <= s)
  }

  /** CurrentScene: the one scene no other comes after; NONE exactly when there is no scene. */
  method CurrentScene(scenes: Scenes) returns (r: SceneId)
    requires NONE !in scenes
    ensures r == NONE <==> scenes == map[]
    ensures r != NONE ==> Resumes(scenes, r)
  {
    r := NONE;
    var todo := scenes.Keys;
    while todo != {}
      invariant todo <= scenes.Keys
      invariant r == NONE ==> todo == scenes.Keys
      invariant r != NONE ==> r in scenes && r !in todo && forall s :: s in scenes && s !in todo && s != r ==> Before(scenes, s, r)
      decreases |todo|
    {
      var s :| s in todo;
      if r == NONE || Before(scenes, r, s) {
        r := s;
      }
      todo := todo - {s};
    }
  }

  /** The scene a read is scoped to, from the domain before it. */
  ghost predicate Target(scenes: Scenes, current: SceneId, named: Option<SceneId>, newScene: bool, freshId: SceneId, s: SceneId)
  {
    if named.Some? then s == named.value
    else if newScene then s == freshId
    else if current != NONE then s == current
    else if scenes == map[] then s == freshId
    else Resumes(scenes, s)
  }

  /** What a read that names no scene and asks for no new one leaves the domain on; any other leaves it where it was. */
  ghost predicate Recalled(scenes: Scenes, current: SceneId, named: Option<SceneId>, newScene: bool, now: SceneId)
  {
    if named.None? && !newScene && current == NONE && scenes != map[] then Resumes(scenes, now) else now == current
  }

  /** Why a read is refused before it opens a turn; Ok when it is not. */
  function Refusal(scenes: Scenes, current: SceneId, named: Option<SceneId>, newScene: bool, anchor: Option<bool>): Outcome<nat>
  {
    var continues := named.None? && !newScene && (current != NONE || scenes != map[]);
    if named.Some? && newScene then InvalidQuery
    else if named.Some? && named.value !in scenes then NotFound
    else if (named.Some? || continues) && anchor.Some? then InvalidQuery
    else if named.None? && !continues && anchor == Some(false) then NotFound
    else Ok(NONE)
  }

  /** Scene s has counted one turn more, at this stamp, from none when it is new; every other scene stands. */
  ghost predicate TurnCounted(scenes: Scenes, after: Scenes, s: SceneId, stamp: int)
  {
    && s in after && after[s].lastUsed == stamp && after[s].turnSeq == (if s in scenes then scenes[s].turnSeq else 0) + 1
    && (forall x :: x in after <==> x in scenes || x == s) && forall x :: x in scenes && x != s ==> after[x] == scenes[x]
  }

  lemma {:induction false} CountedFromNew(scenes: Scenes, resolved: Scenes, after: Scenes, s: SceneId, stamp: int)
    requires TurnCounted(resolved, after, s, stamp)
    requires resolved == if s in scenes then scenes else scenes[s := SceneSlot(0, stamp)]
    ensures TurnCounted(scenes, after, s, stamp)
  {
  }

  /** SettleTarget: accepted exactly when the id is one of the turns the scene has counted. */
  method SettleTarget(ids: Ids, scene: SceneId, topic: TopicId, turnSeq: nat) returns (ok: bool)
    ensures ok <==> Minted(ids, scene, topic, turnSeq)
  {
    for k := 1 to turnSeq + 1
      invariant forall j :: 1 <= j < k ==> ids.turn(scene, j) != topic
    {
      if ids.turn(scene, k) == topic {
        return true;
      }
    }
    return false;
  }

  ghost predicate Minted(ids: Ids, scene: SceneId, topic: TopicId, turnSeq: nat)
  {
    exists k: nat :: 1 <= k <= turnSeq && ids.turn(scene, k) == topic
  }

  /** A settled turn's record: what the engine owns is written, what the host and Dream own is kept, or absent at first. */
  ghost predicate Settled(before: Topics, turn: TopicId, scene: SceneId, keywords: seq<string>, t: Topic)
  {
    && t.id == turn && t.scene == scene && t.keywords == keywords
    && (turn in before ==> t.name == before[turn].name && t.depth == before[turn].depth && t.parent == before[turn].parent)
    && (turn !in before ==> t.name == "" && t.depth == 1 && t.parent.None?)
  }

  /** From the first of these times to the last. */
  ghost predicate Spans(said: seq<int>, first: int, last: int)
  {
    first in said && last in said && forall x :: x in said ==> first <= x <= last
  }

  method Span(said: seq<int>) returns (first: int, last: int)
    requires said != []
    ensures Spans(said, first, last)
  {
    first, last := said[0], said[0];
    for i := 1 to |said|
      invariant Spans(said[..i], first, last)
    {
      assert said[..i + 1] == said[..i] + [said[i]];
      first, last := if said[i] < first then said[i] else first, if said[i] > last then said[i] else last;
    }
    assert said[..|said|] == said;
  }

  // ---- Invariants ----

  /** Every turn id stored or issued for a scene that exists is one of its own, counted, turns. */
  ghost predicate Homed(ids: Ids, scenes: Scenes, used: set<SceneId>, ts: Topics)
  {
    && (forall t :: t in ts ==> ts[t].scene in scenes)
    && (forall s: SceneId, k: nat :: ids.turn(s, k) in ts ==> s in used)
    && (forall s: SceneId, k: nat :: s in scenes && ids.turn(s, k) in ts ==> ts[ids.turn(s, k)].scene == s && k <= scenes[s].turnSeq)
  }

  /** The domain's memory: a current scene exists, and an open turn is one that scene minted. */
  ghost predicate Remembers(ids: Ids, scenes: Scenes, scene: SceneId, turn: TopicId)
  {
    && (scene == NONE ==> turn == NONE)
    && (scene != NONE ==> scene in scenes)
    && (turn != NONE ==> scene in scenes && Minted(ids, scene, turn, scenes[scene].turnSeq))
  }

  /** No turn id was issued twice, and a scene's issued turns are among those it has counted. */
  ghost predicate IssuedOnce(ids: Ids, scenes: Scenes, used: set<SceneId>, issued: seq<(SceneId, nat)>)
  {
    && Distinct(issued) && scenes.Keys <= used && NONE !in scenes
    && forall i :: i in issued ==> i.0 in used && (i.0 in scenes ==> i.1 <= scenes[i.0].turnSeq)
  }

  ghost predicate Clocked(born: map<TopicId, nat>, clock: nat) { forall t :: t in born ==> born[t] < clock }

  datatype Group = Group(members: seq<TopicId>, emptySummary: bool, keywords: seq<string>)

  datatype Outcome<+T> = Ok(value: T) | NotFound | InvalidQuery | LlmFailed | ReadFailed | WriteFailed | NotATurn

  // ---- What Dream does to the records ----

  /** CompressTopicsL2: every listed topic one level deeper under parent; one that reaches MAX_DEPTH is deleted. */
  ghost function Compressed(ts: Topics, ids: seq<TopicId>, parent: TopicId): Topics
  {
    map t | t in ts && !(t in ids && ts[t].depth + 1 >= MAX_DEPTH) :: if t in ids then SunkOne(ts[t], parent) else ts[t]
  }

  /** The reads come first, the batch of writes and then the deletes behind them. */
  method CompressTopics(ts: Topics, ids: seq<TopicId>, parent: TopicId) returns (r: Topics)
    requires Keyed(ts)
    ensures r == Compressed(ts, ids, parent)
  {
    var writes: Topics, deletes: set<TopicId> := map[], {};
    for i := 0 to |ids|
      invariant forall t :: t in writes <==> t in ids[..i] && t in ts && ts[t].depth + 1 < MAX_DEPTH
      invariant forall t :: t in writes ==> writes[t] == SunkOne(ts[t], parent)
      invariant forall t :: t in deletes <==> t in ids[..i] && t in ts && ts[t].depth + 1 >= MAX_DEPTH
    {
      assert ids[..i + 1] == ids[..i] + [ids[i]];
      if ids[i] in ts {
        var sunk := SunkOne(ts[ids[i]], parent);
        if sunk.depth >= MAX_DEPTH {
          deletes := deletes + {ids[i]};
        } else {
          writes := writes[ids[i] := sunk];
        }
      }
    }
    assert ids[..|ids|] == ids;
    r := (ts + writes) - deletes;
  }

  /** MergeScenesL2's rewrite: one batch over a scan of the domain, in any order. */
  method MergeTopics(ts: Topics, primary: SceneId, gone: seq<SceneId>) returns (r: Topics)
    requires Keyed(ts)
    ensures r == Retargeted(ts, SetOf(gone), primary)
  {
    var writes: Topics, todo := map[], ts.Keys;
    while todo != {}
      invariant todo <= ts.Keys
      invariant forall t :: t in writes <==> t in ts && t !in todo && ts[t].scene in gone
      invariant forall t :: t in writes ==> writes[t] == ts[t].(scene := primary)
      decreases |todo|
    {
      var t :| t in todo;
      if ts[t].scene in gone {
        writes := writes[t := ts[t].(scene := primary)];
      }
      todo := todo - {t};
    }
    r := ts + writes;
  }

  /** RestoreSunkTopicsL2: whatever hangs on parent comes back up a level with no parent. */
  ghost function Restored(ts: Topics, ids: seq<TopicId>, parent: TopicId): Topics
  {
    map t | t in ts :: if t in ids && ts[t].parent == Some(parent) then Risen(ts[t]) else ts[t]
  }

  function Risen(t: Topic): Topic { t.(depth := if t.depth > 1 then t.depth - 1 else t.depth, parent := None) }

  /** A level higher, the top level excepted, under nobody, and otherwise as it was. */
  predicate Rises(before: Topic, after: Topic)
  {
    && after.parent.None? && (before.depth >= 2 ==> after.depth == before.depth - 1) && (before.depth <= 1 ==> after.depth == before.depth)
    && after.(depth := before.depth, parent := before.parent) == before
  }

  method RestoreSunkTopics(ts: Topics, ids: seq<TopicId>, parent: TopicId) returns (r: Topics)
    ensures r == Restored(ts, ids, parent)
    ensures forall t :: t in ts && t in ids && ts[t].parent == Some(parent) ==> t in r && Rises(ts[t], r[t])
    ensures forall t :: t in ts && (t !in ids || ts[t].parent != Some(parent)) ==> t in r && r[t] == ts[t]
  {
    r := ts;
    for i := 0 to |ids|
      invariant r == Restored(ts, ids[..i], parent)
    {
      assert ids[..i + 1] == ids[..i] + [ids[i]];
      if ids[i] in r && r[ids[i]].parent == Some(parent) {
        r := r[ids[i] := Risen(r[ids[i]])];
      }
    }
    assert ids[..|ids|] == ids;
  }

  /** A sink that reached any part of its members before it failed is undone by the restore. */
  lemma {:induction false} RestoreUndoesSink(ts: Topics, ids: seq<TopicId>, reached: seq<TopicId>, parent: TopicId)
    requires forall t :: t in ids && t in ts ==> ts[t].depth == 1 && ts[t].parent.None?
    requires forall t :: t in reached ==> t in ids
    ensures Restored(Compressed(ts, reached, parent), ids, parent) == ts
  {
  }

  /** With the fused root written, a sink that failed, the restore and the discard leave the records as they were. */
  lemma {:induction false} UndoneGroup(ts: Topics, born: map<TopicId, nat>, ids: seq<TopicId>, reached: seq<TopicId>, root: Topic)
    requires Forest(ts, born) && root.id !in ts && (forall t :: t in reached ==> t in ids)
    requires forall t :: t in ids ==> t in ts && ts[t].parent.None?
    ensures Restored(Compressed(ts[root.id := root], reached, root.id), ids, root.id) - {root.id} == ts
  {
    RestoreUndoesSink(ts[root.id := root], ids, reached, root.id);
  }

  /** Every topic of a swallowed scene is the survivor's now, and nothing else about any topic has changed. */
  ghost predicate Moved(before: Topics, after: Topics, gone: seq<SceneId>, primary: SceneId)
  {
    && (forall t :: t in after <==> t in before)
    && (forall t :: t in before && before[t].scene in gone ==> after[t] == before[t].(scene := primary))
    && (forall t :: t in before && before[t].scene !in gone ==> after[t] == before[t])
  }

  lemma {:induction false} RetargetMoves(ts: Topics, gone: seq<SceneId>, primary: SceneId)
    ensures Moved(ts, Retargeted(ts, SetOf(gone), primary), gone, primary)
  {
  }

  // ---- The domain ----

  class Domain {
    const ids: Ids
    var scenes: Scenes
    var topics: Topics
    var scene: SceneId
    var turn: TopicId
    var meta: L2MetaIndex

    /** When each topic was first written, every scene ever created, every turn ever opened. */
    ghost var born: map<TopicId, nat>
    ghost var clock: nat
    ghost var used: set<SceneId>
    ghost var issued: seq<(SceneId, nat)>

    ghost predicate Valid()
      reads this, meta, meta.entries.Values
    {
      RecordsValid() && Mirrored()
    }

    ghost predicate RecordsValid()
      reads this
    {
      && Honest(ids) && Forest(topics, born) && Clocked(born, clock) && Homed(ids, scenes, used, topics)
      && Remembers(ids, scenes, scene, turn) && IssuedOnce(ids, scenes, used, issued)
    }

    /** The cache holds exactly the topic records, and its two tables agree. */
    ghost predicate Mirrored()
      reads this`meta, this`topics, meta, meta.entries.Values
    {
      meta.Valid() && meta.Contents() == topics
    }

    constructor (ids: Ids)
      requires Honest(ids)
      ensures Valid() && topics == map[] && scenes == map[] && fresh(meta) && fresh(meta.entries.Values)
    {
      this.ids := ids;
      scenes, topics, scene, turn := map[], map[], NONE, NONE;
      born, clock, used, issued := map[], 0, {}, [];
      meta := new L2MetaIndex();
    }

    /** A reopened file or a reclaimed context: the memory is gone and the cache is rebuilt from the records. */
    method Reopen()
      requires Valid()
      modifies this`scene, this`turn, this`meta
      ensures Valid() && scene == NONE && turn == NONE && fresh(meta) && fresh(meta.entries.Values)
      ensures RecordsValid()
    {
      hide Homed;
      hide Forest;
      hide IssuedOnce;
      hide Agree;
      hide Honest;
      scene, turn := NONE, NONE;
      assert Keyed(topics) by { ForestKeyed(topics, born); }
      meta := BuildL2Meta(topics);
    }

    /** scene.Create: a scene id never used before, with no turn counted. */
    method CreateScene(s: SceneId, stamp: int)
      requires Valid() && s != NONE && s !in used
      modifies this`scenes, this`used
      ensures Valid() && scenes == old(scenes)[s := SceneSlot(0, stamp)] && used == old(used) + {s}
    {
      NewSceneHomed(ids, scenes, used, topics, s, stamp);
      hide Homed;
      hide Forest;
      scenes, used := scenes[s := SceneSlot(0, stamp)], used + {s};
    }

    /**
     * resolveScene: the named scene, a fresh one, or the one the domain is on or resumes. anchor is the L3 id handed in
     * with the read, if any, and whether it names a graph: it may only come with a scene that is created.
     */
    method ResolveScene(named: Option<SceneId>, newScene: bool, freshId: SceneId, stamp: int, anchor: Option<bool>)
      returns (r: Outcome<SceneId>)
      requires Valid() && freshId != NONE && freshId !in used
      modifies this`scenes, this`used, this`scene
      ensures Valid()
      ensures r.Ok? ==> Target(old(scenes), old(scene), named, newScene, freshId, r.value)
      ensures r.Ok? ==> scenes == if r.value in old(scenes) then old(scenes) else old(scenes)[r.value := SceneSlot(0, stamp)]
      ensures !r.Ok? ==> scenes == old(scenes) && r == Refusal(old(scenes), old(scene), named, newScene, anchor)
      ensures r.Ok? <==> Refusal(old(scenes), old(scene), named, newScene, anchor) == Ok(NONE)
      ensures Recalled(old(scenes), old(scene), named, newScene, scene)
    {
      hide Homed;
      hide Forest;
      if named.Some? {
        if newScene {
          return InvalidQuery;
        }
        if named.value !in scenes {
          return NotFound;
        }
        if anchor.Some? {
          return InvalidQuery;
        }
        return Ok(named.value);
      }
      if !newScene {
        if scene == NONE {
          scene := CurrentScene(scenes);
        }
        if scene != NONE {
          if anchor.Some? {
            return InvalidQuery;
          }
          return Ok(scene);
        }
      }
      if anchor == Some(false) {
        return NotFound;
      }
      CreateScene(freshId, stamp);
      return Ok(freshId);
    }

    /**
     * Search: opens the next turn of the resolved scene, and remembers both. A profile that will not read fails the call
     * after the counter has moved; the turn that was open stays open.
     */
    method Search(named: Option<SceneId>, newScene: bool, freshId: SceneId, stamp: int, anchor: Option<bool>, profileReads: bool)
      returns (r: Outcome<TopicId>)
      requires Valid() && freshId != NONE && freshId !in used
      modifies this`scenes, this`used, this`scene, this`turn, this`issued
      ensures Valid() && topics == old(topics)
      ensures var refused := Refusal(old(scenes), old(scene), named, newScene, anchor);
              r == if !refused.Ok? then refused else if !profileReads then ReadFailed else Ok(turn)
      ensures r.Ok? ==> Target(old(scenes), old(scene), named, newScene, freshId, scene) && TurnCounted(old(scenes), scenes, scene, stamp)
      ensures r.Ok? ==> turn == ids.turn(scene, scenes[scene].turnSeq) != NONE && issued == old(issued) + [(scene, scenes[scene].turnSeq)]
      ensures !r.Ok? ==> turn == old(turn) && issued == old(issued) && Recalled(old(scenes), old(scene), named, newScene, scene)
      ensures r == ReadFailed ==>
                exists s :: Target(old(scenes), old(scene), named, newScene, freshId, s) && TurnCounted(old(scenes), scenes, s, stamp)
      ensures !r.Ok? && r != ReadFailed ==> scenes == old(scenes)
    {
      hide Forest;
      hide Homed;
      hide Honest;
      hide Clocked;
      hide Agree;
      hide Resumes;
      hide Remembers;
      hide IssuedOnce;
      hide Minted;
      hide Target;
      hide Recalled;
      hide TurnCounted;
      var got := ResolveScene(named, newScene, freshId, stamp, anchor);
      if !got.Ok? {
        return if got.NotFound? then NotFound else InvalidQuery;
      }
      var s := got.value;
      ghost var resolved := scenes;
      var k := OpenSceneTurn(s, stamp);
      CountedFromNew(old(scenes), resolved, scenes, s, stamp);
      if !profileReads {
        return ReadFailed;
      }
      scene, turn := s, ids.turn(s, k);
      issued := issued + [(s, k)];
      return Ok(turn);
    }

    /** OpenSceneTurn: one turn more, which nobody was issued before. */
    method OpenSceneTurn(s: SceneId, stamp: int) returns (k: nat)
      requires Valid() && s in scenes
      modifies this`scenes
      ensures Valid() && TurnCounted(old(scenes), scenes, s, stamp) && k == scenes[s].turnSeq && ids.turn(s, k) != NONE
      ensures Remembers(ids, scenes, s, ids.turn(s, k)) && IssuedOnce(ids, scenes, used, issued + [(s, k)])
    {
      hide Forest;
      hide Homed;
      hide Honest;
      hide Clocked;
      hide Agree;
      hide Remembers;
      hide IssuedOnce;
      k := scenes[s].turnSeq + 1;
      TurnOpened(ids, scenes, topics, scene, turn, used, issued, s, stamp);
      scenes := scenes[s := SceneSlot(k, stamp)];
    }

    /**
     * Update's settle: the open turn's topic is written, new or in the place Dream gave it, and mirrored. said holds when
     * each of the turn's utterances was made.
     */
    method Settle(said: seq<int>, keywords: seq<string>) returns (r: Outcome<Topic>)
      requires Valid()
      modifies this`topics, this`born, this`clock, meta
      ensures Valid() && fresh(meta.entries.Values - old(meta.entries.Values))
      ensures r.Ok? <==> turn != NONE && said != [] && keywords != []
      ensures !r.Ok? ==> topics == old(topics) && r == if turn == NONE || said == [] then InvalidQuery else LlmFailed
      ensures r.Ok? ==> topics == old(topics)[turn := r.value] && Settled(old(topics), turn, scene, keywords, r.value)
      ensures r.Ok? ==> Spans(said, r.value.userTS, r.value.agentTS)
    {
      hide Forest;
      hide Homed;
      hide Clocked;
      hide Honest;
      hide IssuedOnce;
      hide Agree;
      hide Settled;
      if turn == NONE {
        return InvalidQuery;
      }
      var ok := SettleTarget(ids, scene, turn, scenes[scene].turnSeq);
      if !ok {
        return NotATurn;
      }
      if said == [] {
        return InvalidQuery;
      }
      if keywords == [] {
        return LlmFailed;
      }
      var first, last := Span(said);
      var t := CreateTurnTopic(keywords, first, last);
      return Ok(t);
    }

    /** CreateTurnTopicL2: a first settle is a new root; a replay rewrites only what the engine owns. */
    method CreateTurnTopic(keywords: seq<string>, userTS: int, agentTS: int) returns (t: Topic)
      requires Valid() && turn != NONE
      modifies this`topics, this`born, this`clock, meta
      ensures Valid() && topics == old(topics)[turn := t] && fresh(meta.entries.Values - old(meta.entries.Values))
      ensures Settled(old(topics), turn, scene, keywords, t) && t.userTS == userTS && t.agentTS == agentTS
    {
      hide Forest;
      hide Homed;
      hide Clocked;
      hide Honest;
      hide Agree;
      t := Topic(turn, scene, None, 1, "", keywords, userTS, agentTS);
      if turn in topics {
        t := t.(name := topics[turn].name, depth := topics[turn].depth, parent := topics[turn].parent);
      }
      SettledSound(ids, scenes, used, topics, born, clock, scene, t);
      hide IssuedOnce;
      hide Remembers;
      if turn !in topics {
        born, clock := born[turn := clock], clock + 1;
      }
      WriteTopic(t);
    }

    /** A topic record written and mirrored in the same step. */
    method WriteTopic(t: Topic)
      requires Mirrored()
      modifies this`topics, meta
      ensures Mirrored() && topics == old(topics)[t.id := t] && fresh(meta.entries.Values - old(meta.entries.Values))
    {
      hide Agree;
      meta.Update(t);
      topics := topics[t.id := t];
    }

    /** RenameTopic: the host's name on a stored topic, mirrored; an equal name writes nothing. */
    method RenameTopic(t: TopicId, name: string) returns (r: Outcome<Topic>)
      requires Valid()
      modifies this`topics, meta
      ensures Valid() && fresh(meta.entries.Values - old(meta.entries.Values))
      ensures r == if name == [] then InvalidQuery else if t !in old(topics) then NotFound else Ok(old(topics)[t].(name := name))
      ensures topics == if r.Ok? then old(topics)[t := r.value] else old(topics)
    {
      hide Homed;
      hide Honest;
      hide Agree;
      hide IssuedOnce;
      hide Clocked;
      if name == [] {
        return InvalidQuery;
      }
      if t !in topics {
        return NotFound;
      }
      var after := topics[t].(name := name);
      if topics[t].name == name {
        assert topics[t := after] == topics;
        return Ok(after);
      }
      assert after.id == t;
      RewriteKeepsForest(topics, born, after);
      RewriteHomed(ids, scenes, used, topics, after);
      hide Forest;
      WriteTopic(after);
      return Ok(after);
    }

    /**
     * MergeScenes: all or nothing; the turn opened on a scene that goes under does not travel. clash says that
     * mergedAnchor refuses: the survivor claims no graph and the others claim different ones (Anchors.MergedAnchor).
     */
    method MergeScenes(primary: SceneId, gone: seq<SceneId>, clash: bool) returns (r: Outcome<()>)
      requires Valid()
      modifies this`topics, this`scenes, this`scene, this`turn, meta, meta.entries.Values
      ensures Valid() && meta.entries == old(meta.entries)
      ensures var known := primary in old(scenes) && forall s :: s in gone ==> s in old(scenes);
              r == if gone == [] || !Distinct(gone) || primary in gone then InvalidQuery
                   else if !known then NotFound else if clash then InvalidQuery else Ok(())
      ensures !r.Ok? ==> topics == old(topics) && scenes == old(scenes) && scene == old(scene) && turn == old(turn)
      ensures r.Ok? ==>
                && Moved(old(topics), topics, gone, primary) && (forall s :: s in scenes <==> s in old(scenes) && s !in gone)
                && (forall s :: s in scenes ==> scenes[s] == old(scenes)[s])
                && (if old(scene) in gone then scene == primary && turn == NONE else scene == old(scene) && turn == old(turn))
    {
      hide Agree;
      hide Honest;
      hide Forest;
      hide Homed;
      hide Clocked;
      hide IssuedOnce;
      hide Remembers;
      hide Retargeted;
      if gone == [] || primary in gone || !Distinct(gone) {
        return InvalidQuery;
      }
      if primary !in scenes || exists s :: s in gone && s !in scenes {
        return NotFound;
      }
      if clash {
        return InvalidQuery;
      }
      ghost var before := topics;
      Fold(primary, gone);
      RetargetMoves(before, gone, primary);
      return Ok(());
    }

    method Fold(primary: SceneId, gone: seq<SceneId>)
      requires Valid() && primary in scenes && primary !in gone
      modifies this`topics, this`scenes, this`scene, this`turn, meta, meta.entries.Values
      ensures Valid() && meta.entries == old(meta.entries)
      ensures topics == Retargeted(old(topics), SetOf(gone), primary) && scenes == old(scenes) - SetOf(gone)
      ensures if old(scene) in gone then scene == primary && turn == NONE else scene == old(scene) && turn == old(turn)
    {
      hide Agree;
      hide Honest;
      hide Forest;
      hide Homed;
      hide Clocked;
      hide IssuedOnce;
      hide Remembers;
      hide Retargeted;
      hide SetOf;
      FoldRecords(primary, gone);
      RetargetMeta(primary, gone);
    }

    method FoldRecords(primary: SceneId, gone: seq<SceneId>)
      requires RecordsValid() && primary in scenes && primary !in gone
      modifies this`topics, this`scenes, this`scene, this`turn
      ensures RecordsValid() && topics == Retargeted(old(topics), SetOf(gone), primary) && scenes == old(scenes) - SetOf(gone)
      ensures if old(scene) in gone then scene == primary && turn == NONE else scene == old(scene) && turn == old(turn)
    {
      hide Honest;
      hide Forest;
      hide Homed;
      hide Clocked;
      hide IssuedOnce;
      hide Remembers;
      hide Retargeted;
      hide SetOf;
      ForestKeyed(topics, born);
      MergedSound(ids, scenes, used, topics, born, scene, turn, issued, primary, gone);
      topics := MergeTopics(topics, primary, gone);
      scenes := scenes - SetOf(gone);
      MoveScenes(gone, primary);
    }

    method MoveScenes(gone: seq<SceneId>, primary: SceneId)
      requires primary !in gone
      modifies this`scene, this`turn
      ensures if old(scene) in gone then scene == primary && turn == NONE else scene == old(scene) && turn == old(turn)
    {
      for i := 0 to |gone|
        invariant if old(scene) in gone[..i] then scene == primary && turn == NONE else scene == old(scene) && turn == old(turn)
      {
        assert gone[..i + 1] == gone[..i] + [gone[i]];
        MoveScene(gone[i], primary);
      }
      assert gone[..|gone|] == gone;
    }

    method MoveScene(from: SceneId, to: SceneId)
      modifies this`scene, this`turn
      ensures if old(scene) == from then scene == to && turn == NONE else scene == old(scene) && turn == old(turn)
    {
      if scene == from {
        scene, turn := to, NONE;
      }
    }

    /** RetargetL2Meta, one merged-away scene at a time. */
    method RetargetMeta(primary: SceneId, gone: seq<SceneId>)
      requires meta.Valid() && primary !in gone
      modifies meta, meta.entries.Values
      ensures meta.Valid() && meta.entries == old(meta.entries)
      ensures meta.Contents() == Retargeted(old(meta.Contents()), SetOf(gone), primary)
    {
      hide Agree;
      ghost var ts := meta.Contents();
      assert Retargeted(ts, SetOf(gone[..0]), primary) == ts;
      for i := 0 to |gone|
        invariant meta.Valid() && meta.entries == old(meta.entries)
        invariant meta.Contents() == Retargeted(ts, SetOf(gone[..i]), primary)
      {
        RetargetMore(ts, gone[..i], gone[i], primary);
        assert gone[..i + 1] == gone[..i] + [gone[i]];
        meta.RetargetScene(gone[i], primary);
      }
      assert gone[..|gone|] == gone;
    }

    /** Topics out of the records and out of the cache. */
    method DropTopics(gone: seq<TopicId>)
      requires Mirrored()
      modifies this`topics, meta
      ensures Mirrored() && topics == old(topics) - SetOf(gone) && meta.entries.Values <= old(meta.entries.Values)
    {
      hide Agree;
      ghost var ts := topics;
      assert ts - SetOf(gone[..0]) == ts;
      for i := 0 to |gone|
        invariant meta.Valid() && meta.Contents() == ts - SetOf(gone[..i]) && topics == ts
        invariant meta.entries.Values <= old(meta.entries.Values)
      {
        assert SetOf(gone[..i + 1]) == SetOf(gone[..i]) + {gone[i]} by {
          assert gone[..i + 1] == gone[..i] + [gone[i]];
        }
        assert (ts - SetOf(gone[..i])) - {gone[i]} == ts - SetOf(gone[..i + 1]);
        meta.Remove(gone[i]);
      }
      assert gone[..|gone|] == gone;
      topics := topics - SetOf(gone);
    }

    /** DeleteTopic: the topic and everything under it, and nothing else; the open turn if it was among them. */
    method DeleteTopic(t: TopicId, scan: seq<TopicId>) returns (r: Outcome<()>)
      requires Valid() && Scans(scan, topics)
      modifies this`topics, this`turn, meta
      ensures Valid() && r.Ok? == (t in old(topics)) && (!r.Ok? ==> topics == old(topics) && turn == old(turn))
      ensures r.Ok? ==> forall x :: x in topics <==> x in old(topics) && !Descends(old(topics), x, t)
      ensures r.Ok? ==> forall x :: x in topics ==> topics[x] == old(topics)[x]
      ensures r.Ok? ==> turn == if Descends(old(topics), old(turn), t) then NONE else old(turn)
    {
      hide Agree;
      hide Honest;
      hide IssuedOnce;
      hide Clocked;
      var closure := TopicClosure(scan, topics, born, t);
      if |closure| == 0 {
        assert t in topics ==> Under(topics, t, t, 0);
        assert t in topics ==> Descends(topics, t, t);
        assert t in topics ==> t in closure;
        return NotFound;
      }
      ClosureClosed(topics, t, closure);
      DeleteKeepsForest(topics, born, SetOf(closure));
      DeleteHomed(ids, scenes, used, topics, SetOf(closure));
      hide Forest;
      hide Homed;
      hide Descends;
      DropTopics(closure);
      if turn in closure {
        turn := NONE;
      }
      return Ok(());
    }

    /** DeleteScene: the record and every topic of the scene; the domain forgets it was there. */
    method DeleteScene(s: SceneId, listed: seq<TopicId>) returns (r: Outcome<()>)
      requires Valid() && forall t :: t in listed <==> t in topics && topics[t].scene == s
      modifies this`topics, this`scenes, this`scene, this`turn, meta
      ensures Valid() && r.Ok? == (s in old(scenes)) && (!r.Ok? ==> topics == old(topics) && scenes == old(scenes))
      ensures r.Ok? ==> scenes == old(scenes) - {s} && topics == old(topics) - SetOf(listed)
      ensures if r.Ok? && old(scene) == s then scene == NONE && turn == NONE else scene == old(scene) && turn == old(turn)
    {
      hide Agree;
      hide Honest;
      hide Clocked;
      if s !in scenes {
        return NotFound;
      }
      SceneDropped(ids, scenes, used, topics, born, issued, s, SetOf(listed));
      hide Forest;
      hide Homed;
      hide IssuedOnce;
      DropTopics(listed);
      scenes := scenes - {s};
      if scene == s {
        scene, turn := NONE, NONE;
      }
      return Ok(());
    }

    /**
     * applyOneGroup: refused without a trace, or a fused root over its sunk members. sink says how many members the
     * batch reached before the storage refused it, if it did; they are restored and the root is discarded.
     */
    method ApplyOneGroup(s: SceneId, g: Group, minTS: int, maxTS: int, sink: Option<nat>)
      returns (r: Outcome<()>, ghost parent: TopicId)
      requires RecordsValid() && s in scenes && g.members != []
      requires forall t :: t in g.members ==> t in topics && topics[t].parent.None? && topics[t].scene == s
      modifies this`topics, this`born, this`clock
      ensures RecordsValid() && parent == ids.fused(s, minTS, maxTS, multiset(g.members))
      ensures var usable := !g.emptySummary && parent !in old(topics) && g.keywords != [];
              r == if !usable then LlmFailed else if sink.Some? then WriteFailed else Ok(())
      ensures !r.Ok? ==> topics == old(topics)
      ensures r.Ok? ==>
                topics == Sunk(old(topics)[parent := Topic(parent, s, None, 1, "", g.keywords, minTS, maxTS)], g.members, parent)
    {
      var id := ids.fused(s, minTS, maxTS, multiset(g.members));
      parent := id;
      if g.emptySummary || id in topics || g.keywords == [] {
        return LlmFailed, parent;
      }
      var root := Topic(id, s, None, 1, "", g.keywords, minTS, maxTS);
      if sink.Some? {
        var reached := g.members[..if sink.value < |g.members| then sink.value else |g.members|];
        UndoneGroup(topics, born, g.members, reached, root);
        topics := topics[id := root];
        topics := CompressTopics(topics, reached, id);
        topics := RestoreSunkTopics(topics, g.members, id);
        topics := topics - {id};
        return WriteFailed, parent;
      }
      FusedSound(ids, scenes, used, topics, born, clock, root, g.members);
      hide Forest;
      hide Homed;
      hide Honest;
      hide Clocked;
      hide Remembers;
      hide IssuedOnce;
      topics := topics[id := root];
      topics := CompressTopics(topics, g.members, id);
      born, clock := born[id := clock], clock + 1;
      return Ok(()), parent;
    }

    /**
     * applyGroups over the depth-1 listing the model was shown. fails names the groups whose sink the storage refuses,
     * and how far each got; the first such group ends the scene. roots names, for each group applied, its fused root.
     */
    method ApplyGroups(s: SceneId, listing: Topics, groups: seq<Group>, fails: map<nat, nat>)
      returns (applied: nat, failed: bool, ghost roots: map<nat, TopicId>)
      requires RecordsValid() && s in scenes
      requires forall t :: t in listing ==>
                 t in topics && topics[t] == listing[t] && listing[t].parent.None? && listing[t].depth == 1 && listing[t].scene == s
      modifies this`topics, this`born, this`clock
      ensures RecordsValid() && Consolidated(old(topics), topics, s)
      ensures Chosen(ids, s, listing, old(topics).Keys, groups, fails, roots) && Fused(ids, s, listing, old(topics), topics, groups, roots)
      ensures applied == |roots|
      ensures failed <==> exists i :: i in fails && i < |groups| && Proper(ids, s, listing, old(topics).Keys, groups, roots, i)
    {
      hide Forest;
      hide Homed;
      hide Honest;
      hide Clocked;
      hide Remembers;
      hide IssuedOnce;
      hide GroupsDone;
      var claimed: set<TopicId> := {};
      ghost var before := topics;
      applied, failed, roots := 0, false, map[];
      NoGroupsDone(ids, s, listing, topics, groups, fails);
      for i := 0 to |groups|
        invariant RecordsValid() && GroupsDone(ids, s, listing, before, topics, groups, fails, roots, claimed, i)
        invariant applied == |roots| && forall j :: j in roots ==> j < i
      {
        var r, parent := ConsiderGroup(s, listing, groups, fails, i, claimed, before, roots);
        if r == WriteFailed {
          AtFailure(ids, s, listing, before, topics, groups, fails, roots, claimed, i);
          return applied, true, roots;
        }
        if r.Ok? {
          claimed := claimed + SetOf(groups[i].members);
          applied := applied + 1;
          roots := roots[i := parent];
        }
      }
      AtEnd(ids, s, listing, before, topics, groups, fails, roots, claimed);
    }

    /** One proposed group: passed over, applied, or refused by the storage. */
    method ConsiderGroup(s: SceneId, listing: Topics, groups: seq<Group>, fails: map<nat, nat>, i: nat, claimed: set<TopicId>,
                         ghost before: Topics, ghost roots: map<nat, TopicId>) returns (r: Outcome<()>, ghost parent: TopicId)
      requires RecordsValid() && s in scenes && i < |groups| && i !in roots
      requires forall t :: t in listing ==>
                 t in before && before[t] == listing[t] && listing[t].parent.None? && listing[t].depth == 1 && listing[t].scene == s
      requires GroupsDone(ids, s, listing, before, topics, groups, fails, roots, claimed, i)
      modifies this`topics, this`born, this`clock
      ensures RecordsValid() && r in {Ok(()), LlmFailed, WriteFailed}
      ensures r.Ok? ==>
                GroupsDone(ids, s, listing, before, topics, groups, fails, roots[i := parent], claimed + SetOf(groups[i].members), i + 1)
      ensures r == LlmFailed ==> GroupsDone(ids, s, listing, before, topics, groups, fails, roots, claimed, i + 1)
      ensures r == WriteFailed ==>
                topics == old(topics) && i in fails && Proper(ids, s, listing, before.Keys, groups, roots, i)
    {
      hide Forest;
      hide Homed;
      hide Honest;
      hide Clocked;
      hide Remembers;
      hide IssuedOnce;
      hide GroupsDone;
      hide Proper;
      hide Bounds;
      var g := groups[i];
      var unclaimed := forall t :: t in g.members ==> t !in claimed;
      var ok, minTS, maxTS := GroupTimestamps(g.members, listing);
      if |g.members| < 2 || !unclaimed || !ok {
        PassedOver(ids, s, listing, before, topics, groups, fails, roots, claimed, i);
        return LlmFailed, NONE;
      }
      Untouched(ids, s, listing, before, topics, groups, fails, roots, claimed, i);
      ghost var was := topics;
      r, parent := ApplyOneGroup(s, g, minTS, maxTS, if i in fails then Some(fails[i]) else None);
      ProperNow(ids, s, listing, before, was, groups, fails, roots, claimed, i, minTS, maxTS);
      if r == LlmFailed {
        Skipped(ids, s, listing, before, was, groups, fails, roots, claimed, i);
      } else if r.Ok? {
        GroupTaken(ids, s, listing, before, was, topics, groups, fails, roots, claimed, i, parent, minTS, maxTS);
      }
    }

    /**
     * The consolidation half of RunDream: each scene's groups over what the cache listed before the pass, then the
     * cache rebuilt from the records and installed. roots names, for each scene, the fused roots of the groups applied.
     */
    method Dream(batch: seq<(SceneId, seq<Group>)>) returns (ghost roots: seq<map<nat, TopicId>>)
      requires Valid() && forall i, j :: 0 <= i < j < |batch| ==> batch[i].0 != batch[j].0
      requires forall i :: 0 <= i < |batch| ==> batch[i].0 in scenes
      modifies this`topics, this`born, this`clock, this`meta
      ensures Valid() && fresh(meta) && fresh(meta.entries.Values)
      ensures forall t :: t in old(topics) ==> t in topics && Kept(old(topics)[t], topics[t])
      ensures Dreamt(ids, old(topics), topics, batch, roots)
    {
      hide Homed;
      hide Honest;
      hide Clocked;
      hide Remembers;
      hide IssuedOnce;
      hide Agree;
      hide Forest;
      hide Dreamt;
      roots := ConsolidateAll(batch);
      ForestKeyed(topics, born);
      meta := BuildL2Meta(topics);
    }

    method ConsolidateAll(batch: seq<(SceneId, seq<Group>)>) returns (ghost roots: seq<map<nat, TopicId>>)
      requires Valid() && forall i, j :: 0 <= i < j < |batch| ==> batch[i].0 != batch[j].0
      requires forall i :: 0 <= i < |batch| ==> batch[i].0 in scenes
      modifies this`topics, this`born, this`clock
      ensures RecordsValid() && forall t :: t in old(topics) ==> t in topics && Kept(old(topics)[t], topics[t])
      ensures Dreamt(ids, old(topics), topics, batch, roots)
    {
      hide Homed;
      hide Honest;
      hide Clocked;
      hide Remembers;
      hide IssuedOnce;
      hide Agree;
      hide Forest;
      hide Chosen;
      hide Fused;
      hide Covered;
      hide Passed;
      hide Dreamt;
      hide Kept;
      ghost var before := topics;
      roots := [];
      NothingDreamt(ids, topics, Covered([]));
      assert batch[..0] == [];
      for i := 0 to |batch|
        invariant RecordsValid() && Passed(before, topics, Covered(batch[..i])) && Dreamt(ids, before, topics, batch[..i], roots)
      {
        ghost var more := DreamNext(batch, i, before, roots);
        roots := roots + [more];
      }
      assert batch[..|batch|] == batch;
      AllKept(before, topics, Covered(batch[..|batch|]));
    }

    method DreamNext(batch: seq<(SceneId, seq<Group>)>, i: nat, ghost before: Topics, ghost roots: seq<map<nat, TopicId>>)
      returns (ghost more: map<nat, TopicId>)
      requires RecordsValid() && meta.Valid() && meta.Contents() == before && i < |batch| && batch[i].0 in scenes
      requires forall j, k :: 0 <= j < k < |batch| ==> batch[j].0 != batch[k].0
      requires Passed(before, topics, Covered(batch[..i])) && Dreamt(ids, before, topics, batch[..i], roots)
      modifies this`topics, this`born, this`clock
      ensures RecordsValid() && Passed(before, topics, Covered(batch[..i + 1]))
      ensures Dreamt(ids, before, topics, batch[..i + 1], roots + [more])
    {
      hide Homed;
      hide Honest;
      hide Clocked;
      hide Remembers;
      hide IssuedOnce;
      hide Agree;
      hide Forest;
      hide Chosen;
      hide Fused;
      hide Passed;
      hide Covered;
      hide Dreamt;
      ghost var was := topics;
      CoveredNext(batch, i);
      more := DreamScene(batch[i].0, batch[i].1, before, Covered(batch[..i]));
      DreamtMore(ids, before, was, topics, batch[..i], roots, batch[i].0, batch[i].1, more);
    }

    /** One scene of the pass: listed from the cache, which still shows the records from before it. */
    method DreamScene(s: SceneId, groups: seq<Group>, ghost before: Topics, ghost done: set<SceneId>) returns (ghost roots: map<nat, TopicId>)
      requires RecordsValid() && meta.Valid() && meta.Contents() == before && Passed(before, topics, done)
      requires s in scenes && s !in done
      modifies this`topics, this`born, this`clock
      ensures RecordsValid() && Passed(before, topics, done + {s})
      ensures Chosen(ids, s, Roots(before, s), old(topics).Keys, groups, map[], roots)
      ensures Fused(ids, s, Roots(before, s), old(topics), topics, groups, roots)
      ensures forall t :: t in Roots(before, s) ==> t in old(topics) && old(topics)[t] == before[t]
    {
      hide Homed;
      hide Honest;
      hide Clocked;
      hide Remembers;
      hide IssuedOnce;
      hide Agree;
      hide Forest;
      hide Chosen;
      hide Fused;
      var listing := SurfaceTopics(s);
      Surface(before, topics, born, listing, s, done);
      assert listing == Roots(before, s);
      ghost var was := topics;
      hide Passed;
      var _, _, fused := ApplyGroups(s, listing, groups, map[]);
      roots := fused;
      KeptMore(before, was, topics, s, done);
    }

    /** ListTopicsL2 at depth 1 over the cache: exactly the scene's roots. */
    method SurfaceTopics(s: SceneId) returns (listing: Topics)
      requires meta.Valid()
      ensures forall t :: t in listing <==> t in meta.Contents() && meta.Contents()[t].scene == s && meta.Contents()[t].depth <= 1
      ensures forall t :: t in listing ==> listing[t] == meta.Contents()[t]
    {
      var rows := meta.TopicsByScene(s);
      hide Agree;
      listing := map[];
      for i := 0 to |rows|
        invariant forall t :: t in listing <==> t in meta.entries && meta.entries[t] in rows[..i] && meta.entries[t].depth <= 1
        invariant forall t :: t in listing ==> listing[t] == meta.entries[t].Slot()
      {
        assert rows[..i + 1] == rows[..i] + [rows[i]] && rows[i] in rows;
        if rows[i].depth <= 1 {
          listing := listing[rows[i].idHash := rows[i].Slot()];
        }
      }
      assert rows[..|rows|] == rows;
    }
  }

  /** groupTimestamps: the bounds of a group all of whose members were listed. */
  method GroupTimestamps(members: seq<TopicId>, listing: Topics) returns (ok: bool, minTS: int, maxTS: int)
    ensures ok <==> members != [] && forall t :: t in members ==> t in listing
    ensures ok ==> Bounds(listing, members, minTS, maxTS)
  {
    ok, minTS, maxTS := false, 0, 0;
    ghost var lo: TopicId, hi: TopicId := 0, 0;
    for i := 0 to |members|
      invariant ok <==> i > 0
      invariant forall t :: t in members[..i] ==> t in listing
      invariant ok ==> (forall t :: t in members[..i] ==> minTS <= listing[t].userTS && listing[t].agentTS <= maxTS)
      invariant ok ==> lo in members[..i] && hi in members[..i] && listing[lo].userTS == minTS && listing[hi].agentTS == maxTS
    {
      assert members[..i + 1] == members[..i] + [members[i]];
      if members[i] !in listing {
        assert members[i] in members;
        return false, 0, 0;
      }
      var t := listing[members[i]];
      if !ok || t.userTS < minTS {
        minTS, lo := t.userTS, members[i];
      }
      if !ok || t.agentTS > maxTS {
        maxTS, hi := t.agentTS, members[i];
      }
      ok := true;
    }
    assert members[..|members|] == members;
  }

  // ---- Which groups a pass applies, and what they become ----

  /** What a scene shows at depth 1. */
  ghost function Roots(ts: Topics, s: SceneId): Topics { map t | t in ts && ts[t].scene == s && ts[t].depth <= 1 :: ts[t] }

  /** The tight bounds of a group's own times. */
  ghost predicate Bounds(listing: Topics, members: seq<TopicId>, lo: int, hi: int)
  {
    && (forall t :: t in members ==> t in listing && lo <= listing[t].userTS && listing[t].agentTS <= hi)
    && exists t, u :: t in members && u in members && t in listing && u in listing && listing[t].userTS == lo && listing[u].agentTS == hi
  }

  /** id is what the group's fused root is called. */
  ghost predicate Names(ids: Ids, s: SceneId, listing: Topics, g: Group, id: TopicId)
  {
    exists lo, hi :: Bounds(listing, g.members, lo, hi) && id == ids.fused(s, lo, hi, multiset(g.members))
  }

  /**
   * A group to apply: two or more members, all of them listed and none taken by an earlier group that was applied, a
   * summary, keywords, and a fused id that no record has.
   */
  ghost predicate Proper(ids: Ids, s: SceneId, listing: Topics, taken: set<TopicId>, groups: seq<Group>, roots: map<nat, TopicId>, i: nat)
    requires i < |groups|
  {
    var g := groups[i];
    && |g.members| >= 2 && (forall t :: t in g.members ==> t in listing) && !g.emptySummary && g.keywords != []
    && (forall j, t :: j in roots && j < i && j < |groups| && t in g.members ==> t !in groups[j].members)
    && (forall id :: Names(ids, s, listing, g, id) ==> id !in taken && forall j :: j in roots && j < i ==> roots[j] != id)
  }

  /** Applied are exactly the groups to apply, up to the first one whose sink the storage refuses. */
  ghost predicate Chosen(ids: Ids, s: SceneId, listing: Topics, taken: set<TopicId>, groups: seq<Group>, fails: map<nat, nat>,
                         roots: map<nat, TopicId>)
  {
    && (forall i :: i in roots ==> i < |groups| && Names(ids, s, listing, groups[i], roots[i]))
    && (forall i :: 0 <= i < |groups| ==>
          (i in roots <==> Proper(ids, s, listing, taken, groups, roots, i) &&
                           forall j :: 0 <= j <= i && Proper(ids, s, listing, taken, groups, roots, j) ==> j !in fails))
  }

  ghost predicate ChosenSoFar(ids: Ids, s: SceneId, listing: Topics, taken: set<TopicId>, groups: seq<Group>, fails: map<nat, nat>,
                              roots: map<nat, TopicId>, n: nat)
  {
    && (forall i :: i in roots ==> i < n && i < |groups| && Names(ids, s, listing, groups[i], roots[i]))
    && (forall i :: 0 <= i < n && i < |groups| ==> (i in roots <==> Proper(ids, s, listing, taken, groups, roots, i)))
    && (forall i :: 0 <= i < n && i < |groups| && Proper(ids, s, listing, taken, groups, roots, i) ==> i !in fails)
  }

  /** A fused root stands at depth 1 in its scene, over its members' times, under their keywords. */
  ghost predicate RootOf(ids: Ids, s: SceneId, listing: Topics, g: Group, t: Topic)
  {
    && t.scene == s && t.parent.None? && t.depth == 1 && t.name == "" && t.keywords == g.keywords
    && Bounds(listing, g.members, t.userTS, t.agentTS) && t.id == ids.fused(s, t.userTS, t.agentTS, multiset(g.members))
  }

  /** The record of a topic that hangs on a fused root now. */
  ghost predicate HangsNow(before: Topic, after: Topic, root: TopicId)
  {
    && after.parent == Some(root) && after.depth == before.depth + 1 && after.id == before.id && after.scene == before.scene
    && after.name == before.name && after.keywords == before.keywords && after.userTS == before.userTS && after.agentTS == before.agentTS
  }

  /** Each applied group is a new root over its members; every other record stands. */
  ghost predicate Fused(ids: Ids, s: SceneId, listing: Topics, before: Topics, after: Topics, groups: seq<Group>, roots: map<nat, TopicId>)
  {
    && RootsFused(ids, s, listing, before, after, groups, roots) && MembersFused(before, after, groups, roots)
    && (forall t :: t in after <==> t in before || t in roots.Values) && RestFused(before, after, groups, roots)
  }

  /** No applied group holds t. */
  ghost predicate Spared(groups: seq<Group>, roots: map<nat, TopicId>, t: TopicId)
  {
    forall i :: i in roots && i < |groups| ==> t !in groups[i].members
  }

  ghost predicate RestFused(before: Topics, after: Topics, groups: seq<Group>, roots: map<nat, TopicId>)
  {
    forall t :: t in before && Spared(groups, roots, t) ==> t in after && after[t] == before[t]
  }

  ghost predicate RootsFused(ids: Ids, s: SceneId, listing: Topics, before: Topics, after: Topics, groups: seq<Group>, roots: map<nat, TopicId>)
  {
    forall i :: i in roots ==>
      i < |groups| && roots[i] !in before && roots[i] in after && after[roots[i]].id == roots[i] &&
      RootOf(ids, s, listing, groups[i], after[roots[i]])
  }

  ghost predicate MembersFused(before: Topics, after: Topics, groups: seq<Group>, roots: map<nat, TopicId>)
  {
    forall i, t :: i in roots && i < |groups| && t in groups[i].members && t in before ==>
      t in after && HangsNow(before[t], after[t], roots[i])
  }

  ghost predicate Claims(groups: seq<Group>, roots: map<nat, TopicId>, claimed: set<TopicId>)
  {
    forall t :: t in claimed <==> exists i :: i in roots && i < |groups| && t in groups[i].members
  }

  /** The groups up to n, considered. */
  ghost predicate GroupsDone(ids: Ids, s: SceneId, listing: Topics, before: Topics, now: Topics, groups: seq<Group>, fails: map<nat, nat>,
                             roots: map<nat, TopicId>, claimed: set<TopicId>, n: nat)
  {
    && Consolidated(before, now, s) && Fused(ids, s, listing, before, now, groups, roots) && Claims(groups, roots, claimed)
    && ChosenSoFar(ids, s, listing, before.Keys, groups, fails, roots, n)
  }

  lemma {:induction false} NoGroupsDone(ids: Ids, s: SceneId, listing: Topics, ts: Topics, groups: seq<Group>, fails: map<nat, nat>)
    ensures GroupsDone(ids, s, listing, ts, ts, groups, fails, map[], {}, 0)
  {
  }

  /** What no applied group claimed is as it was listed. */
  lemma {:induction false} Untouched(ids: Ids, s: SceneId, listing: Topics, before: Topics, now: Topics, groups: seq<Group>,
                                     fails: map<nat, nat>, roots: map<nat, TopicId>, claimed: set<TopicId>, i: nat)
    requires GroupsDone(ids, s, listing, before, now, groups, fails, roots, claimed, i) && i < |groups|
    requires forall t :: t in groups[i].members ==> t in listing && t !in claimed
    requires forall t :: t in listing ==> t in before && before[t] == listing[t]
    ensures forall t :: t in groups[i].members ==> t in now && now[t] == listing[t]
  {
    hide Consolidated;
    hide ChosenSoFar;
    hide RootOf;
    hide HangsNow;
  }

  lemma {:induction false} BoundsFix(listing: Topics, members: seq<TopicId>, lo: int, hi: int, lo': int, hi': int)
    requires Bounds(listing, members, lo, hi) && Bounds(listing, members, lo', hi')
    ensures lo == lo' && hi == hi'
  {
  }

  lemma {:induction false} NameFixed(ids: Ids, s: SceneId, listing: Topics, g: Group, lo: int, hi: int)
    requires Bounds(listing, g.members, lo, hi)
    ensures forall id :: Names(ids, s, listing, g, id) <==> id == ids.fused(s, lo, hi, multiset(g.members))
  {
    forall id | Names(ids, s, listing, g, id)
      ensures id == ids.fused(s, lo, hi, multiset(g.members))
    {
      var lo', hi' :| Bounds(listing, g.members, lo', hi') && id == ids.fused(s, lo', hi', multiset(g.members));
      BoundsFix(listing, g.members, lo, hi, lo', hi');
    }
  }

  /** Whether a listed, unclaimed group of two or more is to be applied shows in its content and its id alone. */
  lemma {:induction false} ProperNow(ids: Ids, s: SceneId, listing: Topics, before: Topics, now: Topics, groups: seq<Group>,
                                     fails: map<nat, nat>, roots: map<nat, TopicId>, claimed: set<TopicId>, i: nat, lo: int, hi: int)
    requires GroupsDone(ids, s, listing, before, now, groups, fails, roots, claimed, i)
    requires i < |groups| && |groups[i].members| >= 2 && Bounds(listing, groups[i].members, lo, hi)
    requires forall t :: t in groups[i].members ==> t !in claimed
    ensures var g := groups[i];
            Proper(ids, s, listing, before.Keys, groups, roots, i) <==>
            !g.emptySummary && g.keywords != [] && ids.fused(s, lo, hi, multiset(g.members)) !in now
  {
    hide Consolidated;
    hide RootOf;
    hide HangsNow;
    hide Names;
    hide Bounds;
    ProperByName(ids, s, listing, before.Keys, groups, roots, claimed, i, lo, hi);
    hide Proper;
  }

  lemma {:induction false} ProperByName(ids: Ids, s: SceneId, listing: Topics, taken: set<TopicId>, groups: seq<Group>, roots: map<nat, TopicId>,
                                        claimed: set<TopicId>, i: nat, lo: int, hi: int)
    requires i < |groups| && |groups[i].members| >= 2 && Bounds(listing, groups[i].members, lo, hi)
    requires Claims(groups, roots, claimed) && (forall t :: t in groups[i].members ==> t !in claimed) && forall j :: j in roots ==> j < i
    ensures var g := groups[i];
            Proper(ids, s, listing, taken, groups, roots, i) <==>
            !g.emptySummary && g.keywords != [] && ids.fused(s, lo, hi, multiset(g.members)) !in taken + roots.Values
  {
    var id := ids.fused(s, lo, hi, multiset(groups[i].members));
    NameFixed(ids, s, listing, groups[i], lo, hi);
    assert Names(ids, s, listing, groups[i], id);
    hide Names;
    assert forall t :: t in groups[i].members ==> t in listing;
    hide Bounds;
    assert id in roots.Values <==> exists j :: j in roots && roots[j] == id;
  }

  lemma {:induction false} PassedOver(ids: Ids, s: SceneId, listing: Topics, before: Topics, now: Topics, groups: seq<Group>,
                                      fails: map<nat, nat>, roots: map<nat, TopicId>, claimed: set<TopicId>, i: nat)
    requires GroupsDone(ids, s, listing, before, now, groups, fails, roots, claimed, i) && i < |groups|
    requires |groups[i].members| < 2 || (exists t :: t in groups[i].members && t in claimed) || exists t :: t in groups[i].members && t !in listing
    ensures GroupsDone(ids, s, listing, before, now, groups, fails, roots, claimed, i + 1)
  {
    hide Consolidated;
    hide Fused;
    hide Names;
    assert !Proper(ids, s, listing, before.Keys, groups, roots, i);
    hide Proper;
  }

  lemma {:induction false} Skipped(ids: Ids, s: SceneId, listing: Topics, before: Topics, now: Topics, groups: seq<Group>,
                                   fails: map<nat, nat>, roots: map<nat, TopicId>, claimed: set<TopicId>, i: nat)
    requires GroupsDone(ids, s, listing, before, now, groups, fails, roots, claimed, i) && i < |groups|
    requires !Proper(ids, s, listing, before.Keys, groups, roots, i)
    ensures GroupsDone(ids, s, listing, before, now, groups, fails, roots, claimed, i + 1)
  {
    hide Consolidated;
    hide Fused;
    hide Proper;
  }

  lemma {:induction false} GroupTaken(ids: Ids, s: SceneId, listing: Topics, before: Topics, was: Topics, now: Topics, groups: seq<Group>,
                                      fails: map<nat, nat>, roots: map<nat, TopicId>, claimed: set<TopicId>, i: nat, id: TopicId, lo: int, hi: int)
    requires GroupsDone(ids, s, listing, before, was, groups, fails, roots, claimed, i) && i < |groups| && i !in fails && i !in roots
    requires Proper(ids, s, listing, before.Keys, groups, roots, i) && Bounds(listing, groups[i].members, lo, hi)
    requires id == ids.fused(s, lo, hi, multiset(groups[i].members)) && id !in was
    requires forall t :: t in groups[i].members ==>
               t in was && t in listing && t in before && t !in claimed && was[t] == listing[t] == before[t] &&
               was[t].parent.None? && was[t].scene == s && was[t].depth == 1
    requires now == Sunk(was[id := Topic(id, s, None, 1, "", groups[i].keywords, lo, hi)], groups[i].members, id)
    ensures GroupsDone(ids, s, listing, before, now, groups, fails, roots[i := id], claimed + SetOf(groups[i].members), i + 1)
  {
    hide Proper;
    hide Bounds;
    ConsolidatedMore(before, was, now, s, groups[i], id, lo, hi);
    hide Consolidated;
    hide Sunk;
    FusedMore(ids, s, listing, before, was, now, groups, roots, i, id, lo, hi);
    hide Fused;
    ClaimMore(groups, roots, claimed, i, id);
    ChosenMore(ids, s, listing, before.Keys, groups, fails, roots, i, id, lo, hi);
    hide ChosenSoFar;
    hide Claims;
  }

  lemma {:induction false} FusedMore(ids: Ids, s: SceneId, listing: Topics, before: Topics, was: Topics, now: Topics, groups: seq<Group>,
                                     roots: map<nat, TopicId>, i: nat, id: TopicId, lo: int, hi: int)
    requires Fused(ids, s, listing, before, was, groups, roots) && i < |groups| && i !in roots && Bounds(listing, groups[i].members, lo, hi)
    requires id == ids.fused(s, lo, hi, multiset(groups[i].members)) && id !in was
    requires forall t :: t in groups[i].members ==> t in was && t in listing && t in before && was[t] == listing[t] == before[t]
    requires forall j, t :: j in roots && j < |groups| && t in groups[i].members ==> t !in groups[j].members
    requires now == Sunk(was[id := Topic(id, s, None, 1, "", groups[i].keywords, lo, hi)], groups[i].members, id)
    ensures Fused(ids, s, listing, before, now, groups, roots[i := id])
  {
    hide Fused;
    var g := groups[i];
    assert now[id] == Topic(id, s, None, 1, "", g.keywords, lo, hi);
    forall t | t in was
      ensures t in now && (t !in g.members ==> now[t] == was[t]) && (t in g.members ==> HangsNow(was[t], now[t], id))
    {
    }
    assert RootOf(ids, s, listing, g, now[id]);
    assert now.Keys == was.Keys + {id};
    hide Sunk;
    hide RootOf;
    hide HangsNow;
    hide Bounds;
    RootAdded(ids, s, listing, before, was, now, groups, roots, i, id);
  }

  lemma {:induction false} RootAdded(ids: Ids, s: SceneId, listing: Topics, before: Topics, was: Topics, now: Topics, groups: seq<Group>,
                                     roots: map<nat, TopicId>, i: nat, id: TopicId)
    requires Fused(ids, s, listing, before, was, groups, roots) && i < |groups| && i !in roots
    requires id !in was && now.Keys == was.Keys + {id} && now[id].id == id && RootOf(ids, s, listing, groups[i], now[id])
    requires forall t :: t in was && t !in groups[i].members ==> now[t] == was[t]
    requires forall t :: t in groups[i].members ==> t in before && t in was && was[t] == before[t] && HangsNow(was[t], now[t], id)
    requires forall j, t :: j in roots && j < |groups| && t in groups[i].members ==> t !in groups[j].members
    ensures Fused(ids, s, listing, before, now, groups, roots[i := id])
  {
    hide RootOf;
    hide HangsNow;
    hide Spared;
    ValuesMore(roots, i, id);
    RootsAdded(ids, s, listing, before, was, now, groups, roots, i, id);
    hide RootsFused;
    MembersAdded(before, was, now, groups, roots, i, id);
    hide MembersFused;
    RestAdded(before, was, now, groups, roots, i, id);
    hide RestFused;
  }

  lemma {:induction false} RootsAdded(ids: Ids, s: SceneId, listing: Topics, before: Topics, was: Topics, now: Topics, groups: seq<Group>,
                                      roots: map<nat, TopicId>, i: nat, id: TopicId)
    requires RootsFused(ids, s, listing, before, was, groups, roots) && i < |groups| && i !in roots
    requires before.Keys <= was.Keys && id !in was && now.Keys == was.Keys + {id}
    requires now[id].id == id && RootOf(ids, s, listing, groups[i], now[id])
    requires forall t :: t in was && t !in groups[i].members ==> now[t] == was[t]
    requires forall t :: t in groups[i].members ==> t in before
    ensures RootsFused(ids, s, listing, before, now, groups, roots[i := id])
  {
    hide RootOf;
    var roots' := roots[i := id];
    forall j | j in roots'
      ensures j < |groups| && roots'[j] !in before && roots'[j] in now && now[roots'[j]].id == roots'[j]
      ensures RootOf(ids, s, listing, groups[j], now[roots'[j]])
    {
      if j != i {
        assert j in roots && roots'[j] == roots[j] && roots[j] !in groups[i].members;
      }
    }
  }

  lemma {:induction false} RestAdded(before: Topics, was: Topics, now: Topics, groups: seq<Group>, roots: map<nat, TopicId>, i: nat, id: TopicId)
    requires RestFused(before, was, groups, roots) && i < |groups| && i !in roots
    requires forall t :: t in was && t !in groups[i].members ==> t in now && now[t] == was[t]
    ensures RestFused(before, now, groups, roots[i := id])
  {
    var roots' := roots[i := id];
    forall t | t in before && Spared(groups, roots', t)
      ensures t in now && now[t] == before[t]
    {
      assert i in roots' && t !in groups[i].members;
      assert forall j :: j in roots ==> j in roots';
      assert Spared(groups, roots, t);
    }
  }

  lemma {:induction false} MembersAdded(before: Topics, was: Topics, now: Topics, groups: seq<Group>, roots: map<nat, TopicId>, i: nat, id: TopicId)
    requires MembersFused(before, was, groups, roots) && i < |groups| && i !in roots
    requires forall t :: t in was && t !in groups[i].members ==> t in now && now[t] == was[t]
    requires forall t :: t in groups[i].members ==> t in before && t in was && t in now && was[t] == before[t] && HangsNow(was[t], now[t], id)
    requires forall j, t :: j in roots && j < |groups| && t in groups[i].members ==> t !in groups[j].members
    ensures MembersFused(before, now, groups, roots[i := id])
  {
    hide HangsNow;
    var roots' := roots[i := id];
    forall j, t | j in roots' && j < |groups| && t in groups[j].members && t in before
      ensures t in now && HangsNow(before[t], now[t], roots'[j])
    {
      if j != i {
        assert j in roots && roots'[j] == roots[j] && t !in groups[i].members;
      }
    }
  }

  lemma {:induction false} ValuesMore<K, V>(m: map<K, V>, k: K, v: V)
    requires k !in m
    ensures m[k := v].Values == m.Values + {v}
  {
    var m' := m[k := v];
    forall x | x in m.Values + {v}
      ensures x in m'.Values
    {
      if x in m.Values {
        var j :| j in m && m[j] == x;
        assert m'[j] == x;
      } else {
        assert m'[k] == x;
      }
    }
  }

  /** Later groups do not change whether an earlier one was to be applied. */
  lemma {:induction false} ProperStays(ids: Ids, s: SceneId, listing: Topics, taken: set<TopicId>, groups: seq<Group>, roots: map<nat, TopicId>,
                                       i: nat, id: TopicId, k: nat)
    requires k <= i < |groups|
    ensures Proper(ids, s, listing, taken, groups, roots[i := id], k) <==> Proper(ids, s, listing, taken, groups, roots, k)
  {
    var roots' := roots[i := id];
    forall j | j < k
      ensures (j in roots' <==> j in roots) && (j in roots ==> roots'[j] == roots[j])
    {
    }
    hide Names;
  }

  lemma {:induction false} ChosenMore(ids: Ids, s: SceneId, listing: Topics, taken: set<TopicId>, groups: seq<Group>, fails: map<nat, nat>,
                                      roots: map<nat, TopicId>, i: nat, id: TopicId, lo: int, hi: int)
    requires ChosenSoFar(ids, s, listing, taken, groups, fails, roots, i) && i < |groups| && i !in fails
    requires Bounds(listing, groups[i].members, lo, hi) && id == ids.fused(s, lo, hi, multiset(groups[i].members))
    requires Proper(ids, s, listing, taken, groups, roots, i)
    ensures ChosenSoFar(ids, s, listing, taken, groups, fails, roots[i := id], i + 1)
  {
    hide Proper;
    forall k | 0 <= k <= i
      ensures Proper(ids, s, listing, taken, groups, roots[i := id], k) <==> Proper(ids, s, listing, taken, groups, roots, k)
    {
      ProperStays(ids, s, listing, taken, groups, roots, i, id, k);
    }
  }

  lemma {:induction false} AtFailure(ids: Ids, s: SceneId, listing: Topics, before: Topics, now: Topics, groups: seq<Group>,
                                     fails: map<nat, nat>, roots: map<nat, TopicId>, claimed: set<TopicId>, i: nat)
    requires GroupsDone(ids, s, listing, before, now, groups, fails, roots, claimed, i) && i < |groups| && i in fails
    requires Proper(ids, s, listing, before.Keys, groups, roots, i)
    ensures Consolidated(before, now, s) && Fused(ids, s, listing, before, now, groups, roots)
    ensures Chosen(ids, s, listing, before.Keys, groups, fails, roots)
  {
    hide Proper;
    hide Names;
    hide Consolidated;
    hide Fused;
  }

  lemma {:induction false} AtEnd(ids: Ids, s: SceneId, listing: Topics, before: Topics, now: Topics, groups: seq<Group>,
                                 fails: map<nat, nat>, roots: map<nat, TopicId>, claimed: set<TopicId>)
    requires GroupsDone(ids, s, listing, before, now, groups, fails, roots, claimed, |groups|)
    ensures Consolidated(before, now, s) && Fused(ids, s, listing, before, now, groups, roots)
    ensures Chosen(ids, s, listing, before.Keys, groups, fails, roots)
    ensures forall i :: i in fails && i < |groups| ==> !Proper(ids, s, listing, before.Keys, groups, roots, i)
  {
    hide Proper;
    hide Names;
    hide Consolidated;
    hide Fused;
  }

  lemma {:induction false} ClaimMore(groups: seq<Group>, roots: map<nat, TopicId>, claimed: set<TopicId>, i: nat, id: TopicId)
    requires Claims(groups, roots, claimed) && i < |groups| && i !in roots
    ensures Claims(groups, roots[i := id], claimed + SetOf(groups[i].members))
  {
    forall t
      ensures t in claimed + SetOf(groups[i].members) <==> exists j :: j in roots[i := id] && j < |groups| && t in groups[j].members
    {
      if t in groups[i].members {
        assert i in roots[i := id];
      } else if j :| j in roots && j < |groups| && t in groups[j].members {
        assert j in roots[i := id];
      }
    }
  }

  // ---- A whole pass ----

  /** The scenes of a batch. */
  ghost function Covered(batch: seq<(SceneId, seq<Group>)>): set<SceneId> { set j | 0 <= j < |batch| :: batch[j].0 }

  lemma {:induction false} CoveredNext(batch: seq<(SceneId, seq<Group>)>, i: nat)
    requires i < |batch| && forall j, k :: 0 <= j < k < |batch| ==> batch[j].0 != batch[k].0
    ensures batch[..i + 1] == batch[..i] + [(batch[i].0, batch[i].1)]
    ensures batch[i].0 !in Covered(batch[..i]) && Covered(batch[..i + 1]) == Covered(batch[..i]) + {batch[i].0}
    ensures forall b :: 0 <= b < i ==> batch[..i][b].0 != batch[i].0
  {
    var more := batch[..i + 1];
    assert more[i] == batch[i] && forall j :: 0 <= j < i ==> more[j] == batch[..i][j];
  }

  lemma {:induction false} AllKept(before: Topics, ts: Topics, done: set<SceneId>)
    requires Passed(before, ts, done)
    ensures forall t :: t in before ==> t in ts && Kept(before[t], ts[t])
  {
  }

  /** The ids that have a record once the first n scenes of a pass are done. */
  ghost function TakenBy(before: Topics, roots: seq<map<nat, TopicId>>, n: nat): set<TopicId>
    requires n <= |roots|
  {
    before.Keys + set b, i | 0 <= b < n && i in roots[b] :: roots[b][i]
  }

  /** Group i of scene b was applied and holds t. */
  ghost predicate Took(batch: seq<(SceneId, seq<Group>)>, roots: seq<map<nat, TopicId>>, b: nat, i: nat, t: TopicId)
  {
    b < |batch| && b < |roots| && i in roots[b] && i < |batch[b].1| && t in batch[b].1[i].members
  }

  ghost predicate RootStands(ids: Ids, before: Topics, after: Topics, s: SceneId, g: Group, root: TopicId)
  {
    root !in before && root in after && after[root].id == root && RootOf(ids, s, Roots(before, s), g, after[root])
  }

  ghost predicate MemberHangs(before: Topics, after: Topics, s: SceneId, t: TopicId, root: TopicId)
  {
    t in before && before[t].scene == s && t in after && HangsNow(before[t], after[t], root)
  }

  /**
   * A pass in which no storage call fails: in each scene exactly the groups to apply are, each becomes a new root over
   * its members, and every other record stands.
   */
  ghost predicate Dreamt(ids: Ids, before: Topics, after: Topics, batch: seq<(SceneId, seq<Group>)>, roots: seq<map<nat, TopicId>>)
  {
    && AllChosen(ids, before, batch, roots) && after.Keys == TakenBy(before, roots, |roots|)
    && AllRootsStand(ids, before, after, batch, roots) && AllMembersHang(before, after, batch, roots)
    && RestStands(before, after, batch, roots)
  }

  ghost predicate RestStands(before: Topics, after: Topics, batch: seq<(SceneId, seq<Group>)>, roots: seq<map<nat, TopicId>>)
  {
    forall t :: t in before && (forall b: nat, i :: !Took(batch, roots, b, i, t)) ==> t in after && after[t] == before[t]
  }

  ghost predicate AllChosen(ids: Ids, before: Topics, batch: seq<(SceneId, seq<Group>)>, roots: seq<map<nat, TopicId>>)
  {
    && |roots| == |batch|
    && forall b :: 0 <= b < |batch| ==>
         Chosen(ids, batch[b].0, Roots(before, batch[b].0), TakenBy(before, roots, b), batch[b].1, map[], roots[b])
  }

  ghost predicate AllRootsStand(ids: Ids, before: Topics, after: Topics, batch: seq<(SceneId, seq<Group>)>, roots: seq<map<nat, TopicId>>)
  {
    forall b: nat, i :: b < |batch| && b < |roots| && i in roots[b] ==>
      i < |batch[b].1| && RootStands(ids, before, after, batch[b].0, batch[b].1[i], roots[b][i])
  }

  ghost predicate AllMembersHang(before: Topics, after: Topics, batch: seq<(SceneId, seq<Group>)>, roots: seq<map<nat, TopicId>>)
  {
    forall b: nat, i, t :: Took(batch, roots, b, i, t) ==> MemberHangs(before, after, batch[b].0, t, roots[b][i])
  }

  lemma {:induction false} NothingDreamt(ids: Ids, ts: Topics, done: set<SceneId>)
    ensures Dreamt(ids, ts, ts, [], []) && Passed(ts, ts, done)
  {
  }

  lemma {:induction false} DreamtMore(ids: Ids, before: Topics, was: Topics, after: Topics, batch: seq<(SceneId, seq<Group>)>,
                                      roots: seq<map<nat, TopicId>>, s: SceneId, groups: seq<Group>, more: map<nat, TopicId>)
    requires Dreamt(ids, before, was, batch, roots)
    requires Chosen(ids, s, Roots(before, s), was.Keys, groups, map[], more) && Fused(ids, s, Roots(before, s), was, after, groups, more)
    requires forall t :: t in Roots(before, s) ==> t in was && was[t] == before[t]
    requires forall b :: 0 <= b < |batch| ==> batch[b].0 != s
    ensures Dreamt(ids, before, after, batch + [(s, groups)], roots + [more])
  {
    ListedOnly(ids, s, Roots(before, s), was.Keys, groups, more);
    DreamtIds(before, was, after, roots, more, ids, s, groups);
    DreamtRoots(ids, before, was, after, batch, roots, s, groups, more);
    DreamtMembers(ids, before, was, after, batch, roots, s, groups, more);
    DreamtRest(ids, before, was, after, batch, roots, s, groups, more);
    hide Fused;
    ChosenAlong(ids, before, was, batch, roots, s, groups, more);
    hide TakenBy;
    hide AllChosen;
    hide AllRootsStand;
    hide AllMembersHang;
    hide RestStands;
    hide Chosen;
    hide Took;
  }

  lemma {:induction false} ChosenAlong(ids: Ids, before: Topics, was: Topics, batch: seq<(SceneId, seq<Group>)>,
                                       roots: seq<map<nat, TopicId>>, s: SceneId, groups: seq<Group>, more: map<nat, TopicId>)
    requires AllChosen(ids, before, batch, roots) && was.Keys == TakenBy(before, roots, |roots|)
    requires Chosen(ids, s, Roots(before, s), was.Keys, groups, map[], more)
    requires forall b :: 0 <= b <= |roots| ==> TakenBy(before, roots + [more], b) == TakenBy(before, roots, b)
    ensures AllChosen(ids, before, batch + [(s, groups)], roots + [more])
  {
    hide Chosen;
    hide TakenBy;
    hide Roots;
  }

  lemma {:induction false} DreamtIds(before: Topics, was: Topics, after: Topics, roots: seq<map<nat, TopicId>>, more: map<nat, TopicId>,
                                     ids: Ids, s: SceneId, groups: seq<Group>)
    requires was.Keys == TakenBy(before, roots, |roots|) && Fused(ids, s, Roots(before, s), was, after, groups, more)
    ensures forall b :: 0 <= b <= |roots| ==> TakenBy(before, roots + [more], b) == TakenBy(before, roots, b)
    ensures after.Keys == TakenBy(before, roots + [more], |roots| + 1)
  {
    hide RootOf;
    hide HangsNow;
    var roots' := roots + [more];
    forall b | 0 <= b <= |roots|
      ensures TakenBy(before, roots', b) == TakenBy(before, roots, b)
    {
      assert forall c :: 0 <= c < b ==> roots'[c] == roots[c];
    }
    TakenMore(before, roots, more);
    hide TakenBy;
    assert after.Keys == was.Keys + more.Values;
  }

  lemma {:induction false} TookMore(batch: seq<(SceneId, seq<Group>)>, roots: seq<map<nat, TopicId>>, s: SceneId, groups: seq<Group>,
                                    more: map<nat, TopicId>, b: nat, i: nat, t: TopicId)
    requires |roots| == |batch|
    ensures Took(batch + [(s, groups)], roots + [more], b, i, t) <==>
            if b == |batch| then i in more && i < |groups| && t in groups[i].members else Took(batch, roots, b, i, t)
  {
  }

  lemma {:induction false} DreamtRoots(ids: Ids, before: Topics, was: Topics, after: Topics, batch: seq<(SceneId, seq<Group>)>,
                                       roots: seq<map<nat, TopicId>>, s: SceneId, groups: seq<Group>, more: map<nat, TopicId>)
    requires AllRootsStand(ids, before, was, batch, roots) && Fused(ids, s, Roots(before, s), was, after, groups, more)
    requires forall i, x :: i in more && i < |groups| && x in groups[i].members ==> x in Roots(before, s)
    requires |roots| == |batch| && before.Keys <= was.Keys
    ensures AllRootsStand(ids, before, after, batch + [(s, groups)], roots + [more])
  {
    hide RootStands;
    hide Fused;
    var batch', roots' := batch + [(s, groups)], roots + [more];
    forall b: nat, i | b < |batch'| && b < |roots'| && i in roots'[b]
      ensures i < |batch'[b].1| && RootStands(ids, before, after, batch'[b].0, batch'[b].1[i], roots'[b][i])
    {
      if b < |batch| {
        OldRootStands(ids, before, was, after, s, groups, more, batch[b].0, batch[b].1[i], roots[b][i]);
      } else {
        NewRootStands(ids, before, was, after, s, groups, more, i);
      }
    }
  }

  lemma {:induction false} OldRootStands(ids: Ids, before: Topics, was: Topics, after: Topics, s: SceneId, groups: seq<Group>,
                                         more: map<nat, TopicId>, s0: SceneId, g0: Group, root: TopicId)
    requires Fused(ids, s, Roots(before, s), was, after, groups, more) && RootStands(ids, before, was, s0, g0, root)
    requires forall i, x :: i in more && i < |groups| && x in groups[i].members ==> x in Roots(before, s)
    ensures RootStands(ids, before, after, s0, g0, root)
  {
    hide RootOf;
    Bystander(ids, s, before, was, after, groups, more, root);
    hide Fused;
  }

  lemma {:induction false} NewRootStands(ids: Ids, before: Topics, was: Topics, after: Topics, s: SceneId, groups: seq<Group>,
                                         more: map<nat, TopicId>, i: nat)
    requires before.Keys <= was.Keys && Fused(ids, s, Roots(before, s), was, after, groups, more) && i in more
    ensures i < |groups| && RootStands(ids, before, after, s, groups[i], more[i])
  {
    hide RootOf;
    hide HangsNow;
    hide Roots;
  }

  lemma {:induction false} DreamtMembers(ids: Ids, before: Topics, was: Topics, after: Topics, batch: seq<(SceneId, seq<Group>)>,
                                         roots: seq<map<nat, TopicId>>, s: SceneId, groups: seq<Group>, more: map<nat, TopicId>)
    requires AllMembersHang(before, was, batch, roots) && Fused(ids, s, Roots(before, s), was, after, groups, more) && |roots| == |batch|
    requires forall i, x :: i in more && i < |groups| && x in groups[i].members ==> x in Roots(before, s)
    requires forall t :: t in Roots(before, s) ==> t in was && was[t] == before[t]
    requires forall b :: 0 <= b < |batch| ==> batch[b].0 != s
    ensures AllMembersHang(before, after, batch + [(s, groups)], roots + [more])
  {
    var batch', roots' := batch + [(s, groups)], roots + [more];
    forall b: nat, i, t | Took(batch', roots', b, i, t)
      ensures MemberHangs(before, after, batch'[b].0, t, roots'[b][i])
    {
      TookMore(batch, roots, s, groups, more, b, i, t);
      if b < |batch| {
        assert MemberHangs(before, was, batch[b].0, t, roots[b][i]);
        hide HangsNow;
        Bystander(ids, s, before, was, after, groups, more, t);
        hide Fused;
      } else {
        NewMemberHangs(ids, before, was, after, s, groups, more, i, t);
        hide Fused;
        hide MemberHangs;
      }
    }
  }

  lemma {:induction false} NewMemberHangs(ids: Ids, before: Topics, was: Topics, after: Topics, s: SceneId, groups: seq<Group>,
                                          more: map<nat, TopicId>, i: nat, t: TopicId)
    requires Fused(ids, s, Roots(before, s), was, after, groups, more) && i in more && i < |groups| && t in groups[i].members
    requires t in Roots(before, s) && t in was && was[t] == before[t]
    ensures MemberHangs(before, after, s, t, more[i])
  {
    hide RootOf;
    hide HangsNow;
  }

  lemma {:induction false} DreamtRest(ids: Ids, before: Topics, was: Topics, after: Topics, batch: seq<(SceneId, seq<Group>)>,
                                      roots: seq<map<nat, TopicId>>, s: SceneId, groups: seq<Group>, more: map<nat, TopicId>)
    requires RestStands(before, was, batch, roots) && Fused(ids, s, Roots(before, s), was, after, groups, more) && |roots| == |batch|
    ensures RestStands(before, after, batch + [(s, groups)], roots + [more])
  {
    var batch', roots', n := batch + [(s, groups)], roots + [more], |batch|;
    hide RootsFused;
    hide MembersFused;
    hide Roots;
    forall t | t in before && forall b: nat, i :: !Took(batch', roots', b, i, t)
      ensures t in after && after[t] == before[t]
    {
      forall b: nat, i
        ensures !Took(batch, roots, b, i, t)
      {
        assert !Took(batch', roots', b, i, t);
      }
      forall i | i in more && i < |groups|
        ensures t !in groups[i].members
      {
        assert !Took(batch', roots', n, i, t);
      }
    }
  }

  /** A record that is none of the scene's listed topics is no part of what its groups do. */
  lemma {:induction false} Bystander(ids: Ids, s: SceneId, before: Topics, was: Topics, after: Topics, groups: seq<Group>,
                                     more: map<nat, TopicId>, t: TopicId)
    requires Fused(ids, s, Roots(before, s), was, after, groups, more) && t in was && t !in Roots(before, s)
    requires forall i, x :: i in more && i < |groups| && x in groups[i].members ==> x in Roots(before, s)
    ensures t in after && after[t] == was[t]
  {
    hide RootsFused;
    hide MembersFused;
    hide Roots;
  }

  lemma {:induction false} TakenMore(before: Topics, roots: seq<map<nat, TopicId>>, more: map<nat, TopicId>)
    ensures TakenBy(before, roots + [more], |roots| + 1) == TakenBy(before, roots, |roots|) + more.Values
  {
    var roots' := roots + [more];
    assert roots'[|roots|] == more && forall c :: 0 <= c < |roots| ==> roots'[c] == roots[c];
    forall x | x in TakenBy(before, roots, |roots|) + more.Values
      ensures x in TakenBy(before, roots', |roots| + 1)
    {
      if x in more.Values {
        var i :| i in more && more[i] == x;
        assert i in roots'[|roots|] && roots'[|roots|][i] == x;
      } else if x !in before {
        var b, i :| 0 <= b < |roots| && i in roots[b] && roots[b][i] == x;
        assert i in roots'[b] && roots'[b][i] == x;
      }
    }
  }

  lemma {:induction false} ListedOnly(ids: Ids, s: SceneId, listing: Topics, taken: set<TopicId>, groups: seq<Group>, roots: map<nat, TopicId>)
    requires Chosen(ids, s, listing, taken, groups, map[], roots)
    ensures forall i, t :: i in roots && i < |groups| && t in groups[i].members ==> t in listing
  {
    hide Names;
  }

  /** What a consolidation of scene s may do: sink roots of s under new roots of s, and nothing else. */
  ghost predicate Consolidated(before: Topics, after: Topics, s: SceneId)
  {
    && (forall t :: t in before ==> t in after)
    && (forall t :: t in before && before[t].parent.Some? ==> after[t] == before[t])
    && (forall t :: t in before && after[t] != before[t] ==>
          && before[t].scene == s && before[t].depth == 1 && after[t].parent.Some? && after[t].parent.value in after
          && after[t] == SunkOne(before[t], after[t].parent.value))
    && (forall t :: t in after && t !in before ==> after[t].scene == s)
  }

  /** What a Dream may change of a topic: a root may have sunk to depth 2; all else stands. */
  ghost predicate Kept(before: Topic, after: Topic)
  {
    after == before || (before.depth == 1 && after.depth == 2 && after == SunkOne(before, if after.parent.Some? then after.parent.value else NONE))
  }

  /** Every topic of before is kept, and those of scenes not yet taken stand untouched. */
  ghost predicate Passed(before: Topics, ts: Topics, done: set<SceneId>)
  {
    forall t :: t in before ==> t in ts && Kept(before[t], ts[t]) && (before[t].scene !in done ==> ts[t] == before[t])
  }

  lemma {:induction false} Surface(before: Topics, ts: Topics, born: map<TopicId, nat>, listing: Topics, s: SceneId, done: set<SceneId>)
    requires Forest(ts, born) && Passed(before, ts, done) && s !in done
    requires forall t :: t in listing <==> t in before && before[t].scene == s && before[t].depth <= 1
    requires forall t :: t in listing ==> listing[t] == before[t]
    ensures forall t :: t in listing ==>
              t in ts && ts[t] == listing[t] && listing[t].parent.None? && listing[t].depth == 1 && listing[t].scene == s
  {
  }

  lemma {:induction false} KeptMore(before: Topics, was: Topics, after: Topics, s: SceneId, done: set<SceneId>)
    requires Consolidated(was, after, s) && Passed(before, was, done)
    ensures Passed(before, after, done + {s})
  {
    forall t | t in before
      ensures t in after && Kept(before[t], after[t]) && (before[t].scene !in done + {s} ==> after[t] == before[t])
    {
      assert was[t].scene == before[t].scene;
    }
  }

  lemma {:induction false} ConsolidatedMore(before: Topics, was: Topics, after: Topics, s: SceneId, g: Group, parent: TopicId, minTS: int, maxTS: int)
    requires Consolidated(before, was, s) && parent !in was
    requires forall t :: t in g.members ==> t in was && was[t].parent.None? && was[t].scene == s && was[t].depth == 1
    requires after == Sunk(was[parent := Topic(parent, s, None, 1, "", g.keywords, minTS, maxTS)], g.members, parent)
    ensures Consolidated(before, after, s)
  {
  }

  lemma {:induction false} FusedSound(ids: Ids, scenes: Scenes, used: set<SceneId>, ts: Topics, born: map<TopicId, nat>, clock: nat,
                                      root: Topic, members: seq<TopicId>)
    requires Honest(ids) && Forest(ts, born) && Clocked(born, clock) && Homed(ids, scenes, used, ts)
    requires root.id !in ts && root.parent.None? && root.depth == 1 && root.scene in scenes
    requires exists a: int, b: int :: root.id == ids.fused(root.scene, a, b, multiset(members))
    requires forall t :: t in members ==> t in ts && ts[t].parent.None? && ts[t].scene == root.scene
    ensures var more, when := ts[root.id := root], born[root.id := clock];
            && Keyed(more) && Compressed(more, members, root.id) == Sunk(more, members, root.id)
            && Forest(Sunk(more, members, root.id), when) && Clocked(when, clock + 1)
            && Homed(ids, scenes, used, Sunk(more, members, root.id))
  {
    var more, when := ts[root.id := root], born[root.id := clock];
    NewRootKeepsForest(ts, born, root, clock);
    SinkKeepsForest(more, when, members, root.id);
    forall t | t in more && t in members
      ensures more[t].depth == 1
    {
    }
    FusedHomed(ids, scenes, used, ts, root, members);
  }

  lemma {:induction false} FusedHomed(ids: Ids, scenes: Scenes, used: set<SceneId>, ts: Topics, root: Topic, members: seq<TopicId>)
    requires Honest(ids) && Homed(ids, scenes, used, ts) && root.scene in scenes
    requires exists a: int, b: int :: root.id == ids.fused(root.scene, a, b, multiset(members))
    ensures Homed(ids, scenes, used, Sunk(ts[root.id := root], members, root.id))
  {
    assert forall s: SceneId, k: nat :: ids.turn(s, k) != root.id;
  }

  function SetOf(xs: seq<nat>): set<nat> { set x | x in xs }

  lemma {:induction false} RetargetMore(ts: Topics, gone: seq<SceneId>, s: SceneId, primary: SceneId)
    requires primary !in gone && primary != s
    ensures Retargeted(Retargeted(ts, SetOf(gone), primary), {s}, primary) == Retargeted(ts, SetOf(gone + [s]), primary)
  {
  }

  lemma {:induction false} RewriteHomed(ids: Ids, scenes: Scenes, used: set<SceneId>, ts: Topics, t: Topic)
    requires Homed(ids, scenes, used, ts) && t.id in ts && t.scene == ts[t.id].scene
    ensures Homed(ids, scenes, used, ts[t.id := t])
  {
  }

  lemma {:induction false} DeleteHomed(ids: Ids, scenes: Scenes, used: set<SceneId>, ts: Topics, gone: set<TopicId>)
    requires Homed(ids, scenes, used, ts)
    ensures Homed(ids, scenes, used, ts - gone)
  {
  }

  lemma {:induction false} ClosureClosed(ts: Topics, root: TopicId, closure: seq<TopicId>)
    requires forall t :: t in closure <==> Descends(ts, t, root)
    ensures ChildClosed(ts, SetOf(closure))
  {
    forall t | t in ts && ts[t].parent.Some? && ts[t].parent.value in SetOf(closure)
      ensures t in SetOf(closure)
    {
      ChildDescends(ts, t, root);
    }
  }

  lemma {:induction false} SceneDropped(ids: Ids, scenes: Scenes, used: set<SceneId>, ts: Topics, born: map<TopicId, nat>,
                                        issued: seq<(SceneId, nat)>, s: SceneId, gone: set<TopicId>)
    requires Forest(ts, born) && Homed(ids, scenes, used, ts) && IssuedOnce(ids, scenes, used, issued)
    requires forall t :: t in gone <==> t in ts && ts[t].scene == s
    ensures Forest(ts - gone, born) && Homed(ids, scenes - {s}, used, ts - gone) && IssuedOnce(ids, scenes - {s}, used, issued)
  {
    SceneIsClosed(ts, born, s);
    assert gone == set t | t in ts && ts[t].scene == s;
    DeleteKeepsForest(ts, born, gone);
    hide Forest;
  }

  lemma {:induction false} MergedSound(ids: Ids, scenes: Scenes, used: set<SceneId>, ts: Topics, born: map<TopicId, nat>, scene: SceneId,
                                       turn: TopicId, issued: seq<(SceneId, nat)>, primary: SceneId, gone: seq<SceneId>)
    requires Forest(ts, born) && Homed(ids, scenes, used, ts) && IssuedOnce(ids, scenes, used, issued)
    requires Remembers(ids, scenes, scene, turn) && primary in scenes && primary !in gone
    ensures var after, ts' := scenes - SetOf(gone), Retargeted(ts, SetOf(gone), primary);
            && Forest(ts', born) && Homed(ids, after, used, ts') && IssuedOnce(ids, after, used, issued)
            && (if scene in gone then Remembers(ids, after, primary, NONE) else Remembers(ids, after, scene, turn))
  {
    RetargetKeepsForest(ts, born, SetOf(gone), primary);
    hide Forest;
  }

  lemma {:induction false} ForestKeyed(ts: Topics, born: map<TopicId, nat>)
    requires Forest(ts, born)
    ensures Keyed(ts)
  {
  }

  lemma {:induction false} NewSceneHomed(ids: Ids, scenes: Scenes, used: set<SceneId>, ts: Topics, s: SceneId, stamp: int)
    requires Homed(ids, scenes, used, ts) && s !in used
    ensures Homed(ids, scenes[s := SceneSlot(0, stamp)], used + {s}, ts)
  {
  }

  lemma {:induction false} TurnOpened(ids: Ids, scenes: Scenes, ts: Topics, scene: SceneId, turn: TopicId, used: set<SceneId>,
                                      issued: seq<(SceneId, nat)>, s: SceneId, stamp: int)
    requires Homed(ids, scenes, used, ts) && Remembers(ids, scenes, scene, turn) && IssuedOnce(ids, scenes, used, issued) && Honest(ids)
    requires s in scenes
    ensures var seq_ := scenes[s].turnSeq + 1;
            var after := scenes[s := SceneSlot(seq_, stamp)];
            && Homed(ids, after, used, ts) && Remembers(ids, after, scene, turn) && IssuedOnce(ids, after, used, issued)
            && Remembers(ids, after, s, ids.turn(s, seq_)) && IssuedOnce(ids, after, used, issued + [(s, seq_)])
            && Minted(ids, s, ids.turn(s, seq_), seq_) && ids.turn(s, seq_) != NONE
  {
    var seq_ := scenes[s].turnSeq + 1;
    assert (s, seq_) !in issued;
    assert Minted(ids, s, ids.turn(s, seq_), seq_);
  }

  lemma {:induction false} SettledSound(ids: Ids, scenes: Scenes, used: set<SceneId>, ts: Topics, born: map<TopicId, nat>, clock: nat, scene: SceneId, t: Topic)
    requires Honest(ids) && Forest(ts, born) && Clocked(born, clock) && Homed(ids, scenes, used, ts)
    requires scene in scenes && scene in used && t.scene == scene && Minted(ids, scene, t.id, scenes[scene].turnSeq)
    requires t.id in ts ==> (t.parent, t.depth) == (ts[t.id].parent, ts[t.id].depth)
    requires t.id !in ts ==> t.parent.None? && t.depth == 1
    ensures var born' := if t.id in ts then born else born[t.id := clock];
            Forest(ts[t.id := t], born') && Clocked(born', clock + 1) && (t.id in ts ==> Clocked(born', clock)) && Homed(ids, scenes, used, ts[t.id := t])
  {
    if t.id in ts {
      RewriteKeepsForest(ts, born, t);
    } else {
      NewRootKeepsForest(ts, born, t, clock);
    }
    hide Forest;
  }
}
