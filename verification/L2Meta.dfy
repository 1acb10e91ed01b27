// The cache of topic records: internal/repo/index/l2meta.go. Two tables over shared rows, changed in place.
module L2Metas {
  import opened Common

  type TopicId = nat
  type SceneId = nat

  /** core.TopicSlot, the topic record. */
  datatype Topic = Topic(id: TopicId, scene: SceneId, parent: Option<TopicId>, depth: nat, name: string,
                         keywords: seq<string>, userTS: int, agentTS: int)

  type Topics = map<TopicId, Topic>

  ghost predicate Keyed(ts: Topics) { forall t :: t in ts ==> ts[t].id == t }

  /** One cached row: a shared object whose scene a merge rewrites in place. */
  class Row {
    var idHash: TopicId
    var scene: SceneId
    var parent: Option<TopicId>
    var depth: nat
    var name: string
    var keywords: seq<string>
    var userTS: int
    var agentTS: int

    constructor (t: Topic)
      ensures Slot() == t
    {
      idHash, scene, parent, depth := t.id, t.scene, t.parent, t.depth;
      name, keywords, userTS, agentTS := t.name, t.keywords, t.userTS, t.agentTS;
    }

    /** ToTopicSlot. */
    function Slot(): Topic
      reads this
    {
      Topic(idHash, scene, parent, depth, name, keywords, userTS, agentTS)
    }
  }

  /** slices.DeleteFunc over one id. */
  function Without(ids: seq<TopicId>, id: TopicId): seq<TopicId>
  {
    if ids == [] then [] else if ids[0] == id then Without(ids[1..], id) else [ids[0]] + Without(ids[1..], id)
  }

  lemma {:induction false} WithoutIn(ids: seq<TopicId>, id: TopicId)
    ensures forall x :: x in Without(ids, id) <==> x in ids && x != id
    ensures Distinct(ids) ==> Distinct(Without(ids, id))
  {
    if ids != [] {
      WithoutIn(ids[1..], id);
      assert forall x :: x in ids <==> x == ids[0] || x in ids[1..];
      if Distinct(ids) {
        assert ids[0] !in ids[1..];
      }
    }
  }

  class L2MetaIndex {
    var entries: map<TopicId, Row>
    var byScene: map<SceneId, seq<TopicId>>

    /** The two tables agree: a topic is in the list of its row's scene, once, and in no other; no list is empty. */
    ghost predicate Valid()
      reads this, entries.Values
    {
      && (forall id :: id in entries ==> entries[id].idHash == id)
      && Agree(Contents(), byScene)
    }

    ghost function Contents(): Topics
      reads this`entries, entries.Values
    {
      map id | id in entries :: entries[id].Slot()
    }

    constructor ()
      ensures Valid() && Contents() == map[] && fresh(this) && entries == map[]
    {
      entries, byScene := map[], map[];
    }

    method RemoveFromIndices(scene: SceneId, id: TopicId)
      modifies this`byScene
      ensures byScene == Unlisted(old(byScene), scene, id)
    {
      if scene !in byScene {
        return;
      }
      var filtered := Without(byScene[scene], id);
      if |filtered| == 0 {
        byScene := byScene - {scene};
      } else {
        byScene := byScene[scene := filtered];
      }
    }

    method InsertMeta(row: Row)
      requires Valid() && row.idHash !in entries && row !in entries.Values
      modifies this
      ensures entries == old(entries)[row.idHash := row]
      ensures Valid() && Contents() == old(Contents())[row.idHash := row.Slot()]
    {
      ListedOne(Contents(), byScene, row.Slot());
      hide Agree;
      ghost var was := Contents();
      entries := entries[row.idHash := row];
      byScene := Listed(byScene, row.scene, [row.idHash]);
      assert Contents() == was[row.idHash := row.Slot()];
    }

    method Insert(t: Topic)
      requires Valid() && t.id !in Contents()
      modifies this
      ensures Valid() && Contents() == old(Contents())[t.id := t] && fresh(entries.Values - old(entries.Values))
    {
      hide Agree;
      var row := new Row(t);
      assert t.id !in entries && row.idHash == t.id;
      ghost var rows := entries.Values;
      InsertMeta(row);
      assert entries.Values <= rows + {row};
    }

    /** Update: the row of a written record, wherever its scene was before. */
    method Update(t: Topic)
      requires Valid()
      modifies this
      ensures Valid() && Contents() == old(Contents())[t.id := t] && fresh(entries.Values - old(entries.Values))
    {
      hide Agree;
      Remove(t.id);
      Insert(t);
    }

    method Remove(id: TopicId)
      requires Valid()
      modifies this
      ensures Valid() && Contents() == old(Contents()) - {id} && entries == old(entries) - {id}
    {
      if id !in entries {
        assert entries - {id} == entries && Contents() - {id} == Contents();
        return;
      }
      UnlistedOne(Contents(), byScene, id);
      hide Agree;
      RemoveFromIndices(entries[id].scene, id);
      entries := entries - {id};
      assert Contents() == old(Contents()) - {id};
    }

    /** RetargetScene: every topic of one scene moves to another, its shared row rewritten in place. */
    method RetargetScene(from: SceneId, to: SceneId)
      requires Valid()
      modifies this`byScene, entries.Values
      ensures Valid() && entries == old(entries) && Contents() == Retargeted(old(Contents()), {from}, to)
    {
      hide Agree;
      hide Retargeted;
      hide Rescened;
      hide Listed;
      ghost var was := Contents();
      if from == to || from !in byScene {
        NothingToRetarget(was, byScene, from, to);
        return;
      }
      var ids := byScene[from];
      RetargetAgrees(was, byScene, from, to);
      RescenedIsRetargeted(was, ids, from, to);
      assert forall id :: id in ids ==> id in entries;
      RewriteScenes(ids, to);
      byScene := Listed(byScene - {from}, to, ids);
    }

    method RewriteScenes(ids: seq<TopicId>, to: SceneId)
      requires forall id :: id in ids ==> id in entries
      requires forall id :: id in entries ==> entries[id].idHash == id
      modifies entries.Values
      ensures Contents() == Rescened(old(Contents()), ids, to)
      ensures forall id :: id in entries ==> entries[id].idHash == id
    {
      for i := 0 to |ids|
        invariant forall id :: id in entries ==> entries[id].idHash == id
        invariant forall id :: id in entries ==>
                    entries[id].Slot() == if id in ids[..i] then old(entries[id].Slot()).(scene := to) else old(entries[id].Slot())
      {
        assert ids[i] in ids && ids[..i + 1] == ids[..i] + [ids[i]];
        entries[ids[i]].scene := to;
      }
      assert ids[..|ids|] == ids;
      assert forall id :: id in entries ==> entries[id].idHash == entries[id].Slot().id;
      assert Contents() == Rescened(old(Contents()), ids, to);
    }

    /** TopicsByScene: the cached rows of exactly that scene's topics, each once. */
    method TopicsByScene(scene: SceneId) returns (rows: seq<Row>)
      requires Valid()
      ensures forall r :: r in rows <==> r in entries.Values && r.scene == scene
      ensures Distinct(rows)
    {
      rows := [];
      if scene !in byScene {
        forall r | r in entries.Values
          ensures r.scene != scene
        {
          var id :| id in entries && entries[id] == r;
          assert id in Contents();
        }
        return;
      }
      var ids := byScene[scene];
      for i := 0 to |ids|
        invariant |rows| == i && forall j :: 0 <= j < i ==> ids[j] in entries && rows[j] == entries[ids[j]]
      {
        assert ids[i] in ids && ids[i] in Contents();
        rows := rows + [entries[ids[i]]];
      }
      forall r | r in entries.Values && r.scene == scene
        ensures r in rows
      {
        var id :| id in entries && entries[id] == r;
        assert id in Contents() && id in ids;
        var j :| 0 <= j < |ids| && ids[j] == id;
        assert rows[j] == r;
      }
      forall r | r in rows
        ensures r in entries.Values && r.scene == scene
      {
        var j :| 0 <= j < |rows| && rows[j] == r;
        assert ids[j] in ids && ids[j] in Contents();
      }
    }
  }

  /** BuildL2MetaFromEngine: one row per topic record, whatever order the scan yields them in. */
  method BuildL2Meta(ts: Topics) returns (idx: L2MetaIndex)
    requires Keyed(ts)
    ensures fresh(idx) && fresh(idx.entries.Values) && idx.Valid() && idx.Contents() == ts
  {
    idx := new L2MetaIndex();
    var todo := ts.Keys;
    while todo != {}
      invariant todo <= ts.Keys && fresh(idx) && fresh(idx.entries.Values) && idx.Valid() && idx.Contents() == ts - todo
      decreases |todo|
    {
      hide Agree;
      var t :| t in todo;
      assert t !in idx.Contents();
      idx.Insert(ts[t]);
      assert (ts - todo)[t := ts[t]] == ts - (todo - {t});
      todo := todo - {t};
    }
    assert ts - {} == ts;
  }

  /** byScene lists each topic under its own scene exactly once, and nothing else. */
  ghost predicate Agree(ts: Topics, byScene: map<SceneId, seq<TopicId>>)
  {
    && (forall s :: s in byScene ==> byScene[s] != [] && Distinct(byScene[s]))
    && (forall s, id :: s in byScene && id in byScene[s] ==> id in ts && ts[id].scene == s)
    && (forall id :: id in ts ==> ts[id].scene in byScene && id in byScene[ts[id].scene])
  }

  function Unlisted(byScene: map<SceneId, seq<TopicId>>, scene: SceneId, id: TopicId): map<SceneId, seq<TopicId>>
  {
    if scene !in byScene then byScene
    else if Without(byScene[scene], id) == [] then byScene - {scene}
    else byScene[scene := Without(byScene[scene], id)]
  }

  lemma {:induction false} UnlistedOne(ts: Topics, byScene: map<SceneId, seq<TopicId>>, id: TopicId)
    requires Agree(ts, byScene) && id in ts
    ensures Agree(ts - {id}, Unlisted(byScene, ts[id].scene, id))
  {
    var scene := ts[id].scene;
    if scene in byScene {
      WithoutIn(byScene[scene], id);
    }
  }

  lemma {:induction false} ListedOne(ts: Topics, byScene: map<SceneId, seq<TopicId>>, t: Topic)
    requires Agree(ts, byScene) && t.id !in ts
    ensures Agree(ts[t.id := t], Listed(byScene, t.scene, [t.id]))
  {
  }

  function Listed(byScene: map<SceneId, seq<TopicId>>, scene: SceneId, ids: seq<TopicId>): map<SceneId, seq<TopicId>>
  {
    byScene[scene := (if scene in byScene then byScene[scene] else []) + ids]
  }

  /** What a merge makes of the topic records. */
  ghost function Retargeted(ts: Topics, from: set<SceneId>, to: SceneId): Topics
  {
    map t | t in ts :: if ts[t].scene in from then ts[t].(scene := to) else ts[t]
  }

  ghost function Rescened(ts: Topics, ids: seq<TopicId>, to: SceneId): Topics
  {
    map t | t in ts :: if t in ids then ts[t].(scene := to) else ts[t]
  }

  lemma {:induction false} RescenedIsRetargeted(ts: Topics, ids: seq<TopicId>, from: SceneId, to: SceneId)
    requires forall id :: id in ids <==> id in ts && ts[id].scene == from
    ensures Rescened(ts, ids, to) == Retargeted(ts, {from}, to)
  {
  }

  lemma {:induction false} RetargetAgrees(ts: Topics, byScene: map<SceneId, seq<TopicId>>, from: SceneId, to: SceneId)
    requires Agree(ts, byScene) && from != to && from in byScene
    ensures Agree(Retargeted(ts, {from}, to), Listed(byScene - {from}, to, byScene[from]))
    ensures forall id :: id in byScene[from] <==> id in ts && ts[id].scene == from
  {
    var rest, ids := byScene - {from}, byScene[from];
    var merged := (if to in rest then rest[to] else []) + ids;
    forall id | id in ids
      ensures id in ts && ts[id].scene == from && !(to in rest && id in rest[to])
    {
      assert id in byScene[from];
      assert to in rest ==> rest[to] == byScene[to];
    }
    JoinDistinct(if to in rest then rest[to] else [], ids);
    assert forall id :: id in merged <==> id in ids || (to in rest && id in rest[to]);
    hide Distinct;
  }

  lemma {:induction false} NothingToRetarget(ts: Topics, byScene: map<SceneId, seq<TopicId>>, from: SceneId, to: SceneId)
    requires Agree(ts, byScene) && (from == to || from !in byScene)
    ensures Retargeted(ts, {from}, to) == ts
  {
  }

  /** Agreement fixes each scene's list up to order, so two caches of the same records list the same topics. */
  lemma {:induction false} AgreeUnique(ts: Topics, a: map<SceneId, seq<TopicId>>, b: map<SceneId, seq<TopicId>>)
    requires Agree(ts, a) && Agree(ts, b)
    ensures a.Keys == b.Keys && forall s :: s in a ==> multiset(a[s]) == multiset(b[s])
  {
    forall s
      ensures s in a <==> s in b
    {
      if s in a {
        var id := a[s][0];
        assert id in a[s] && id in ts && ts[id].scene == s;
      }
      if s in b {
        var id := b[s][0];
        assert id in b[s] && id in ts && ts[id].scene == s;
      }
    }
    forall s | s in a
      ensures multiset(a[s]) == multiset(b[s])
    {
      forall id
        ensures id in a[s] <==> id in b[s]
      {
        if id in a[s] {
          assert id in ts && ts[id].scene == s;
        }
        if id in b[s] {
          assert id in ts && ts[id].scene == s;
        }
      }
      SameMembers(a[s], b[s]);
    }
  }

  lemma {:induction false} SameMembers(a: seq<TopicId>, b: seq<TopicId>)
    requires Distinct(a) && Distinct(b) && forall x :: x in a <==> x in b
    ensures multiset(a) == multiset(b)
  {
    forall x
      ensures multiset(a)[x] == multiset(b)[x]
    {
      CountOne(a, x);
      CountOne(b, x);
    }
  }

  lemma {:induction false} CountOne(a: seq<TopicId>, x: TopicId)
    requires Distinct(a)
    ensures multiset(a)[x] == if x in a then 1 else 0
  {
    if a != [] {
      CountOne(a[1..], x);
      assert a == [a[0]] + a[1..];
      assert a[0] !in a[1..];
    }
  }
}
