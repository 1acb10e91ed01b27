// The (agent, type) secondary index: kept incrementally by writes and deletes, rebuilt whole at Open.
module TypeIndexes {
  import opened Common
  import opened Bytes
  import opened Snapshots
  import opened Headers
  import opened Recovery

  /** (agentID, recordType) -> idHashes; empty sets are pruned away. */
  type TypeIndex = map<(uint64, byte), set<uint64>>

  /** recordTypeAt: the type byte of the frame at offset, None past the mapping. */
  function TypeAt(area: seq<byte>, offset: nat): Option<byte>
  {
    if DATA_START <= offset && offset - DATA_START < |area| then Some(area[offset - DATA_START]) else None
  }

  predicate Listed(m: TypeIndex, agent: uint64, rt: byte, id: uint64)
  {
    (agent, rt) in m && id in m[(agent, rt)]
  }

  predicate NoEmptySet(m: TypeIndex) { forall k :: k in m ==> m[k] != {} }

  ghost predicate Typed(area: seq<byte>, idx: Index, agent: uint64, rt: byte, id: uint64)
  {
    Holds(idx, agent, id) && TypeAt(area, idx[agent][id]) == Some(rt)
  }

  /** m lists an id under a type exactly when the live frame of that id has that type. */
  ghost predicate InStep(area: seq<byte>, idx: Index, m: TypeIndex)
  {
    NoEmptySet(m) &&
    forall agent: uint64, rt: byte, id: uint64 :: Listed(m, agent, rt, id) <==> Typed(area, idx, agent, rt, id)
  }

  function AddType(m: TypeIndex, agent: uint64, rt: byte, id: uint64): TypeIndex
  {
    m[(agent, rt) := (if (agent, rt) in m then m[(agent, rt)] else {}) + {id}]
  }

  /** removeTypeLocked: one id out, and the containers it was the last of. */
  function RemoveType(m: TypeIndex, agent: uint64, rt: byte, id: uint64): TypeIndex
  {
    if (agent, rt) !in m then m
    else
      var ids := m[(agent, rt)] - {id};
      if ids == {} then m - {(agent, rt)} else m[(agent, rt) := ids]
  }

  /** Being in step determines the type index, so keeping it is the same as rebuilding it. */
  lemma {:induction false} InStepUnique(area: seq<byte>, idx: Index, m: TypeIndex, n: TypeIndex)
    requires InStep(area, idx, m) && InStep(area, idx, n)
    ensures m == n
  {
    forall agent: uint64, rt: byte
      ensures (agent, rt) in m <==> (agent, rt) in n
      ensures (agent, rt) in m && (agent, rt) in n ==> m[(agent, rt)] == n[(agent, rt)]
    {
      assert forall id: uint64 :: Listed(m, agent, rt, id) <==> Listed(n, agent, rt, id);
      if (agent, rt) in m {
        var id: uint64 :| id in m[(agent, rt)];
        assert Listed(m, agent, rt, id) && Listed(n, agent, rt, id);
      }
      if (agent, rt) in n {
        var id: uint64 :| id in n[(agent, rt)];
        assert Listed(n, agent, rt, id) && Listed(m, agent, rt, id);
      }
      if (agent, rt) in m && (agent, rt) in n {
        forall id: uint64
          ensures id in m[(agent, rt)] <==> id in n[(agent, rt)]
        {
          assert Listed(m, agent, rt, id) <==> Listed(n, agent, rt, id);
        }
      }
    }
    assert m.Keys == n.Keys by {
      forall k: (uint64, byte)
        ensures k in m <==> k in n
      {
        assert k == (k.0, k.1);
      }
    }
    forall k: (uint64, byte) | k in m
      ensures m[k] == n[k]
    {
      assert k == (k.0, k.1);
    }
  }

  function Moved(area: seq<byte>, idx: Index, m: TypeIndex, agent: uint64, rt: byte, id: uint64): TypeIndex
  {
    if Holds(idx, agent, id) && TypeAt(area, idx[agent][id]).Some? && TypeAt(area, idx[agent][id]).value != rt
    then RemoveType(m, agent, TypeAt(area, idx[agent][id]).value, id) else m
  }

  /** A written record moves its id to the new type and to nowhere else. */
  lemma {:induction false} WriteStep(area: seq<byte>, idx: Index, m: TypeIndex, agent: uint64, rt: byte, id: uint64, offset: nat)
    requires InStep(area, idx, m) && TypeAt(area, offset) == Some(rt)
    ensures InStep(area, Put(idx, agent, id, offset), AddType(Moved(area, idx, m, agent, rt, id), agent, rt, id))
  {
    hide TypeAt;
    var idx', n := Put(idx, agent, id, offset), Moved(area, idx, m, agent, rt, id);
    var m' := AddType(n, agent, rt, id);
    forall a: uint64, t: byte, i: uint64
      ensures Listed(m', a, t, i) <==> Typed(area, idx', a, t, i)
    {
      assert Listed(m, a, t, i) <==> Typed(area, idx, a, t, i);
      MovedLists(area, idx, m, agent, rt, id, a, t, i);
    }
    assert id in m'[(agent, rt)];
  }

  lemma {:induction false} MovedLists(area: seq<byte>, idx: Index, m: TypeIndex, agent: uint64, rt: byte, id: uint64,
                                      a: uint64, t: byte, i: uint64)
    requires InStep(area, idx, m)
    ensures Listed(Moved(area, idx, m, agent, rt, id), a, t, i) <==>
            Listed(m, a, t, i) && !(a == agent && i == id && t != rt)
    ensures NoEmptySet(Moved(area, idx, m, agent, rt, id))
  {
    assert Listed(m, a, t, i) <==> Typed(area, idx, a, t, i);
    if Holds(idx, agent, id) && TypeAt(area, idx[agent][id]).Some? {
      RemoveLists(m, agent, TypeAt(area, idx[agent][id]).value, id, a, t, i);
    }
    hide TypeAt;
    hide RemoveType;
  }

  lemma {:induction false} RemoveLists(m: TypeIndex, agent: uint64, rt: byte, id: uint64, a: uint64, t: byte, i: uint64)
    requires NoEmptySet(m)
    ensures Listed(RemoveType(m, agent, rt, id), a, t, i) <==> Listed(m, a, t, i) && (a, t, i) != (agent, rt, id)
    ensures NoEmptySet(RemoveType(m, agent, rt, id))
  {
    if (agent, rt) in m {
      var ids := m[(agent, rt)] - {id};
      assert i in ids <==> i in m[(agent, rt)] && i != id;
    }
  }

  /** A deleted record leaves its type's list. */
  lemma {:induction false} DropStep(area: seq<byte>, idx: Index, m: TypeIndex, agent: uint64, rt: byte, id: uint64)
    requires InStep(area, idx, m) && Typed(area, idx, agent, rt, id)
    ensures InStep(area, idx[agent := idx[agent] - {id}], RemoveType(m, agent, rt, id))
  {
    hide TypeAt;
    var idx', m' := idx[agent := idx[agent] - {id}], RemoveType(m, agent, rt, id);
    forall a: uint64, t: byte, i: uint64
      ensures Listed(m', a, t, i) <==> Typed(area, idx', a, t, i)
    {
      assert Listed(m, a, t, i) <==> Typed(area, idx, a, t, i);
    }
  }

  /** The list depends on the index only through what it holds, and on the area only at those offsets. */
  lemma {:induction false} InStepFrame(area: seq<byte>, area': seq<byte>, idx: Index, idx': Index, m: TypeIndex)
    requires InStep(area, idx, m)
    requires forall a: uint64, i: uint64 :: Holds(idx', a, i) <==> Holds(idx, a, i)
    requires forall a: uint64, i: uint64 :: Holds(idx, a, i) && Holds(idx', a, i) ==>
               TypeAt(area', idx'[a][i]) == TypeAt(area, idx[a][i])
    ensures InStep(area', idx', m)
  {
    hide TypeAt;
    forall a: uint64, t: byte, i: uint64
      ensures Listed(m, a, t, i) <==> Typed(area', idx', a, t, i)
    {
      assert Listed(m, a, t, i) <==> Typed(area, idx, a, t, i);
      assert Holds(idx', a, i) <==> Holds(idx, a, i);
    }
  }

  /** rebuildByAgentType: two nested passes over the primary index, one type byte read per record. */
  method RebuildByAgentType(area: seq<byte>, idx: Index) returns (m: TypeIndex)
    ensures InStep(area, idx, m)
  {
    m := map[];
    var agents := idx.Keys;
    assert idx - agents == map[];
    while agents != {}
      invariant agents <= idx.Keys
      invariant InStep(area, idx - agents, m)
      decreases |agents|
    {
      hide InStep;
      var agent :| agent in agents;
      m := RebuildAgent(area, idx - agents, m, agent, idx[agent]);
      assert (idx - agents)[agent := idx[agent]] == idx - (agents - {agent});
      agents := agents - {agent};
    }
    assert idx - {} == idx;
  }

  method RebuildAgent(area: seq<byte>, ghost done: Index, m0: TypeIndex, agent: uint64, ids: map<uint64, nat>)
    returns (m: TypeIndex)
    requires InStep(area, done, m0) && agent !in done
    ensures InStep(area, done[agent := ids], m)
  {
    m := m0;
    var todo := ids.Keys;
    assert ids - todo == map[];
    InStepFrame(area, area, done, done[agent := map[]], m0);
    while todo != {}
      invariant todo <= ids.Keys
      invariant InStep(area, done[agent := ids - todo], m)
      decreases |todo|
    {
      hide InStep;
      var id :| id in todo;
      var rt := TypeAt(area, ids[id]);
      ghost var part: Index := done[agent := ids - todo];
      PutNext(done, agent, ids, todo, id);
      if rt.Some? {
        WriteStep(area, part, m, agent, rt.value, id, ids[id]);
        m := AddType(m, agent, rt.value, id);
      } else {
        UntypedStep(area, part, m, agent, id, ids[id]);
      }
      todo := todo - {id};
    }
    assert ids - {} == ids;
  }

  lemma {:induction false} PutNext(done: Index, agent: uint64, ids: map<uint64, nat>, todo: set<uint64>, id: uint64)
    requires id in todo && todo <= ids.Keys
    ensures Put(done[agent := ids - todo], agent, id, ids[id]) == done[agent := ids - (todo - {id})]
    ensures !Holds(done[agent := ids - todo], agent, id)
  {
    assert (ids - todo)[id := ids[id]] == ids - (todo - {id});
  }

  lemma {:induction false} UntypedStep(area: seq<byte>, idx: Index, m: TypeIndex, agent: uint64, id: uint64, offset: nat)
    requires InStep(area, idx, m) && TypeAt(area, offset).None? && !Holds(idx, agent, id)
    ensures InStep(area, Put(idx, agent, id, offset), m)
  {
    hide TypeAt;
    var idx' := Put(idx, agent, id, offset);
    forall a: uint64, t: byte, i: uint64
      ensures Listed(m, a, t, i) <==> Typed(area, idx', a, t, i)
    {
      assert Listed(m, a, t, i) <==> Typed(area, idx, a, t, i);
    }
  }
}
