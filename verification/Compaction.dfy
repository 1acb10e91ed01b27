// Logs without garbage: what reclaim.go's Compact writes, and why compacting twice changes nothing.
module Compaction {
  import opened Bytes
  import opened Frames
  import opened Durability
  import opened CrashSafety

  function Key(f: Frame): (uint64, uint64) { (f.agent, f.id) }

  /** One live frame per record: no tombstone, and no frame whose key an earlier frame holds. */
  ghost predicate Clean(log: seq<Frame>)
  {
    log == [] ||
    var front, f := log[..|log| - 1], log[|log| - 1];
    Clean(front) && !f.Deleted() && Key(f) !in View(front)
  }

  /** The record-area bytes of a log. */
  ghost function LogSize(log: seq<Frame>): nat
  {
    if log == [] then 0 else LogSize(log[..|log| - 1]) + log[|log| - 1].Size()
  }

  lemma {:induction false} LogSizeSplit(a: seq<Frame>, b: seq<Frame>)
    ensures LogSize(a + b) == LogSize(a) + LogSize(b)
  {
    if b == [] {
      assert a + b == a;
    } else {
      assert (a + b)[..|a + b| - 1] == a + b[..|b| - 1];
      LogSizeSplit(a, b[..|b| - 1]);
    }
  }

  lemma {:induction false} EncodedSize(crc: Checksum, log: seq<Frame>)
    ensures |EncodeAll(crc, log)| == LogSize(log)
    decreases log
  {
    if log != [] {
      hide Encode;
      EncodedSize(crc, log[1..]);
      assert log == [log[0]] + log[1..];
      LogSizeSplit([log[0]], log[1..]);
      assert [log[0]][..0] == [];
    }
  }

  lemma {:induction false} EncodeAllSplit(crc: Checksum, a: seq<Frame>, b: seq<Frame>)
    ensures EncodeAll(crc, a + b) == EncodeAll(crc, a) + EncodeAll(crc, b)
    decreases a
  {
    if a == [] {
      assert a + b == b;
    } else {
      hide Encode;
      EncodeAllSplit(crc, a[1..], b);
      assert (a + b)[1..] == a[1..] + b;
    }
  }

  lemma {:induction false} CleanSnoc(log: seq<Frame>, f: Frame)
    requires Clean(log) && !f.Deleted() && Key(f) !in View(log)
    ensures Clean(log + [f]) && View(log + [f]) == View(log)[Key(f) := Value(f.rtype, f.data)]
    ensures LogSize(log + [f]) == LogSize(log) + f.Size()
  {
    assert (log + [f])[..|log|] == log;
  }

  /** A clean log holds exactly one frame per record. */
  lemma {:induction false} CleanCount(log: seq<Frame>)
    requires Clean(log)
    ensures |log| == |View(log)|
  {
    if log != [] {
      var front, f := log[..|log| - 1], log[|log| - 1];
      CleanCount(front);
      assert View(log).Keys == View(front).Keys + {Key(f)};
    }
  }

  lemma {:induction false} EmptyLog()
    ensures Clean([]) && View([]) == map[] && LogSize([]) == 0
  {
  }

  lemma {:induction false} LastFrame(log: seq<Frame>)
    requires log != []
    ensures var front, f := log[..|log| - 1], log[|log| - 1];
            && Clean(log) == (Clean(front) && !f.Deleted() && Key(f) !in View(front))
            && View(log) == ViewStep(View(front), f) && LogSize(log) == LogSize(front) + f.Size()
  {
  }

  ghost function FrameFor(k: (uint64, uint64), v: Value): Frame { Frame(k.0, v.rtype, 0, k.1, v.data) }

  ghost function Remove(log: seq<Frame>, k: (uint64, uint64)): seq<Frame>
  {
    if log == [] then []
    else if Key(log[|log| - 1]) == k then log[..|log| - 1]
    else Remove(log[..|log| - 1], k) + [log[|log| - 1]]
  }

  /** Taking one record's frame out of a clean log. */
  lemma {:induction false} RemoveOne(log: seq<Frame>, k: (uint64, uint64))
    requires Clean(log) && k in View(log)
    ensures var rest := Remove(log, k);
            && Clean(rest) && View(rest) == View(log) - {k} && |rest| + 1 == |log|
            && LogSize(log) == LogSize(rest) + FrameFor(k, View(log)[k]).Size()
  {
    hide Clean;
    hide View;
    hide LogSize;
    if log == [] {
      EmptyLog();
    } else {
      var front, f := log[..|log| - 1], log[|log| - 1];
      LastFrame(log);
      if Key(f) != k {
        assert Remove(log, k) == Remove(front, k) + [f];
        hide Remove;
        RemoveOne(front, k);
        CleanSnoc(Remove(front, k), f);
      }
    }
  }

  /** The size of a clean log depends on its map alone: whatever order records were copied in, it is the same. */
  lemma {:induction false} CleanSizesAgree(a: seq<Frame>, b: seq<Frame>)
    requires Clean(a) && Clean(b) && View(a) == View(b)
    ensures LogSize(a) == LogSize(b) && |a| == |b|
    decreases |a|
  {
    CleanCount(a);
    CleanCount(b);
    hide Clean;
    hide View;
    hide LogSize;
    hide Remove;
    EmptyLog();
    if a != [] {
      LastFrame(a);
      var k := Key(a[|a| - 1]);
      RemoveOne(a, k);
      RemoveOne(b, k);
      CleanSizesAgree(Remove(a, k), Remove(b, k));
    }
  }

  /** From a clean log of a map to one of the map before its last frame, and how much smaller that frame made it. */
  lemma {:induction false} CleanBefore(view: Records, f: Frame, small: seq<Frame>) returns (base: seq<Frame>)
    requires Clean(small) && View(small) == ViewStep(view, f)
    ensures Clean(base) && View(base) == view
    ensures LogSize(small) <= LogSize(base) + f.Size()
    ensures LogSize(small) == LogSize(base) + f.Size() <==> !f.Deleted() && Key(f) !in view
  {
    hide Clean;
    hide View;
    hide LogSize;
    hide Remove;
    var k := Key(f);
    if f.Deleted() {
      base := small;
    } else {
      RemoveOne(small, k);
      base := Remove(small, k);
      assert View(base) == view - {k};
    }
    if k in view {
      var g := FrameFor(k, view[k]);
      CleanSnoc(base, g);
      base := base + [g];
      assert View(base) == view;
    }
  }

  /** Compaction never grows the record area, and leaves its size alone exactly when the log was already clean. */
  lemma {:induction false} CleanIsSmallest(log: seq<Frame>, small: seq<Frame>)
    requires Clean(small) && View(small) == View(log)
    ensures LogSize(small) <= LogSize(log)
    ensures LogSize(small) == LogSize(log) <==> Clean(log)
    decreases |log|
  {
    CleanCount(small);
    hide Clean;
    hide View;
    hide LogSize;
    EmptyLog();
    if log != [] {
      LastFrame(log);
      var front := log[..|log| - 1];
      var base := CleanBefore(View(front), log[|log| - 1], small);
      CleanIsSmallest(front, base);
    }
  }
}
