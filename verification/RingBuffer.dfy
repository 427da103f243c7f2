/** The fixed array of segment slots, indexed by `seq % capacity`, and its refinement of the log. */
module RingBuffers {
  import opened Wrappers
  import opened SegmentLog

  /** The nominal length of a segment. */
  const SEGMENT_SECONDS: nat := 2

  /**
   The slots answer for the numbers lo <= s < hi: each of these that was written sits in its
   slot, and a slot left over from earlier never passes for one of them.
   */
  ghost predicate SlotsAnswer(slots: seq<Segment>, lo: nat, hi: nat, log: seq<Segment>)
    requires slots != []
  {
    && (forall i :: 0 <= i < |slots| && slots[i].data != [] ==> slots[i].seqNo % |slots| == i)
    && (forall i :: 0 <= i < |slots| && slots[i].data != [] && lo <= slots[i].seqNo
          ==> LastWrite(log, slots[i].seqNo) == Some(slots[i]))
    && (forall s :: lo <= s < hi && LastWrite(log, s).Some? ==> slots[s % |slots|] == LastWrite(log, s).value)
  }

  lemma SlotsDiffer(s: nat, t: nat, cap: nat)
    requires 0 < cap && s < t < s + cap
    ensures s % cap != t % cap
  {
    var q, q' := s / cap, t / cap;
    assert s == cap * q + s % cap && t == cap * q' + t % cap;
    assert q' > q ==> cap * q' >= cap * q + cap by { MulMonotone(cap, q + 1, q'); }
    assert q' < q ==> cap * q >= cap * q' + cap by { MulMonotone(cap, q' + 1, q); }
  }

  lemma MulMonotone(c: nat, x: int, y: int)
    ensures x <= y ==> c * x <= c * y
  {
  }

  /** Writing the segment into its slot, once the window is no wider than the array. */
  lemma SlotsAnswerAfterWrite(slots: seq<Segment>, r: nat, log: seq<Segment>, lo: nat, hi: nat, x: Segment)
    requires slots != [] && SlotsAnswer(slots, BaseOf(|slots|, r, log), NextOf(r, log), log)
    requires BaseOf(|slots|, r, log) <= lo <= x.seqNo < hi <= lo + |slots|
    ensures SlotsAnswer(slots[x.seqNo % |slots| := x], lo, hi, log + [x])
  {
    AppendWrite(r, log, x);
    var slots' := slots[x.seqNo % |slots| := x];
    forall i | 0 <= i < |slots| && slots'[i].data != [] && lo <= slots'[i].seqNo
      ensures LastWrite(log + [x], slots'[i].seqNo) == Some(slots'[i])
    {
      SlotAfterWrite(slots, r, log, lo, x, i);
    }
    forall s | lo <= s < hi && LastWrite(log + [x], s).Some?
      ensures slots'[s % |slots|] == LastWrite(log + [x], s).value
    {
      NumberAfterWrite(slots, r, log, lo, hi, x, s);
    }
  }

  /** A write that is too old for the window changes no answer. */
  lemma SlotsAnswerAfterDrop(slots: seq<Segment>, r: nat, log: seq<Segment>, lo: nat, hi: nat, x: Segment)
    requires slots != [] && SlotsAnswer(slots, BaseOf(|slots|, r, log), hi, log)
    requires x.seqNo < BaseOf(|slots|, r, log) == lo
    ensures SlotsAnswer(slots, lo, hi, log + [x])
  {
    AppendWrite(r, log, x);
  }

  lemma SlotAfterWrite(slots: seq<Segment>, r: nat, log: seq<Segment>, lo: nat, x: Segment, i: nat)
    requires slots != [] && SlotsAnswer(slots, BaseOf(|slots|, r, log), NextOf(r, log), log)
    requires BaseOf(|slots|, r, log) <= lo && i < |slots|
    ensures var y := slots[x.seqNo % |slots| := x][i];
      y.data != [] && lo <= y.seqNo ==> LastWrite(log, y.seqNo) == Some(y) || y == x
    ensures var y := slots[x.seqNo % |slots| := x][i];
      y.data != [] && lo <= y.seqNo && y.seqNo == x.seqNo ==> y == x
  {
  }

  lemma NumberAfterWrite(slots: seq<Segment>, r: nat, log: seq<Segment>, lo: nat, hi: nat, x: Segment, s: nat)
    requires slots != [] && SlotsAnswer(slots, BaseOf(|slots|, r, log), NextOf(r, log), log)
    requires BaseOf(|slots|, r, log) <= lo <= x.seqNo < hi <= lo + |slots| && lo <= s < hi
    requires s == x.seqNo || LastWrite(log, s).Some?
    ensures slots[x.seqNo % |slots| := x][s % |slots|] == if s == x.seqNo then x else LastWrite(log, s).value
  {
    if s != x.seqNo {
      SlotsDiffer(if s < x.seqNo then s else x.seqNo, if s < x.seqNo then x.seqNo else s, |slots|);
      LastWriteIsInLog(log, s);
      assert s < NextOf(r, log);
    }
  }

  class RingBuffer {
    const capacity: nat
    const buf: array<Segment>
    var baseSeq: nat
    var nextSeq: nat

    ghost var resetBase: nat       // argument of the last Reset
    ghost var log: seq<Segment>    // every write since, accepted or not

    ghost predicate Valid()
      reads this, buf
    {
      && 0 < capacity == buf.Length
      && nextSeq == NextOf(resetBase, log)
      && baseSeq == BaseOf(capacity, resetBase, log)
      && nextSeq < TWO_TO_THE_32
      && SlotsAnswer(buf[..], baseSeq, nextSeq, log)
    }

    /** What an observer can see. */
    ghost function View(): Window
      reads this
    {
      WindowOf(capacity, resetBase, log)
    }

    constructor (windowSeconds: nat)
      requires windowSeconds % SEGMENT_SECONDS == 0 && 0 < windowSeconds
      ensures Valid() && fresh(buf) && capacity == windowSeconds / SEGMENT_SECONDS
      ensures resetBase == 0 && log == []
    {
      capacity := windowSeconds / SEGMENT_SECONDS;
      buf := new Segment[windowSeconds / SEGMENT_SECONDS](_ => NO_SEGMENT);
      baseSeq, nextSeq := 0, 0;
      resetBase, log := 0, [];
    }

    /** The slot of a live sequence number, or -1. */
    function IdxFor(s: nat): (idx: int)
      requires 0 < capacity == buf.Length
      reads this, buf
      ensures idx == -1 || 0 <= idx < capacity
    {
      if s < baseSeq || s >= nextSeq then -1
      else
        var idx := s % capacity;
        if buf[idx].seqNo != s || |buf[idx].data| == 0 then -1 else idx
    }

    /** The slots find exactly the live segments. */
    lemma IdxForFindsLive(s: nat)
      requires Valid()
      ensures s !in View().live ==> IdxFor(s) == -1
      ensures s in View().live ==> 0 <= IdxFor(s) && buf[IdxFor(s)] == View().live[s]
    {
    }

    method MaybeAdvanceBase()
      requires 0 < capacity
      modifies `baseSeq
      ensures baseSeq == Max(old(baseSeq), nextSeq - capacity)
    {
      if nextSeq <= capacity {
        return;
      }
      var candidate := nextSeq - capacity;
      if candidate > baseSeq {
        baseSeq := candidate;
      }
    }

    method Write(data: seq<byte>, pts: real, actualDuration: real, now: int) returns (s: nat)
      requires Valid() && nextSeq + 1 < TWO_TO_THE_32
      modifies `baseSeq, `nextSeq, `log, buf
      ensures Valid() && s == old(nextSeq)
      ensures log == old(log) + [Segment(s, data, pts, now, actualDuration)]
    {
      s := nextSeq;
      var x := Segment(s, data, pts, now, actualDuration);
      buf[s % capacity] := x;
      nextSeq := nextSeq + 1;
      MaybeAdvanceBase();
      log := log + [x];
      AppendWrite(resetBase, old(log), x);
      SlotsAnswerAfterWrite(old(buf[..]), resetBase, old(log), baseSeq, nextSeq, x);
    }

    /** Writes a segment that carries its own number: late, repeated and far-ahead ones included. */
    method WriteAt(s: nat, data: seq<byte>, pts: real, actualDuration: real, now: int)
      requires Valid() && s + 1 < TWO_TO_THE_32
      modifies `baseSeq, `nextSeq, `log, buf
      ensures Valid()
      ensures log == old(log) + [Segment(s, data, pts, now, actualDuration)]
    {
      var x := Segment(s, data, pts, now, actualDuration);
      if s >= nextSeq {
        nextSeq := s + 1;
      }
      MaybeAdvanceBase();
      log := log + [x];
      AppendWrite(resetBase, old(log), x);
      assert nextSeq == NextOf(resetBase, log) && baseSeq == BaseOf(capacity, resetBase, log);
      if s < baseSeq {
        SlotsAnswerAfterDrop(buf[..], resetBase, old(log), baseSeq, nextSeq, x);
        return;
      }
      buf[s % capacity] := x;
      assert buf[..] == old(buf[..])[s % capacity := x];
      SlotsAnswerAfterWrite(old(buf[..]), resetBase, old(log), baseSeq, nextSeq, x);
    }

    method Snapshot() returns (base: nat, segs: seq<Segment>)
      requires Valid()
      ensures IsFirstRun(View(), base, segs)
    {
      forall s: nat
        ensures if s in View().live then 0 <= IdxFor(s) && buf[IdxFor(s)] == View().live[s] else IdxFor(s) == -1
      {
        IdxForFindsLive(s);
      }
      base, segs := FirstRun(View());
    }

    /** The scan of `Snapshot`, for a window `w` that the slots answer for. */
    method FirstRun(ghost w: Window) returns (base: nat, segs: seq<Segment>)
      requires 0 < capacity == buf.Length && w.lo == baseSeq <= nextSeq == w.hi
      requires forall s :: s in w.live ==> w.lo <= s < w.hi
      requires forall s: nat :: if s in w.live then 0 <= IdxFor(s) && buf[IdxFor(s)] == w.live[s] else IdxFor(s) == -1
      ensures IsFirstRun(w, base, segs)
    {
      if nextSeq == baseSeq {
        assert w.live == map[];
        return baseSeq, [];
      }
      var started := false;
      base, segs := baseSeq, [];
      var s := baseSeq;
      while s < nextSeq
        invariant baseSeq <= s <= nextSeq
        invariant !started ==> segs == [] && base == baseSeq && forall k :: baseSeq <= k < s ==> k !in w.live
        invariant started ==> segs != [] && baseSeq <= base && s == base + |segs|
        invariant started ==> forall k :: baseSeq <= k < base ==> k !in w.live
        invariant started ==> forall k :: base <= k < s ==> k in w.live && w.live[k] == segs[k - base]
      {
        var idx := IdxFor(s);
        if idx < 0 {
          if started {
            break;
          }
        } else {
          if !started {
            started := true;
            base := s;
          }
          segs := segs + [buf[idx]];
        }
        s := s + 1;
      }
      if !started {
        assert w.live == map[];
        return baseSeq, [];
      }
    }

    /** The last payload written for `s`, or nothing if `s` is not live. */
    method Get(s: nat) returns (data: Option<seq<byte>>)
      requires Valid()
      ensures data == if s in View().live then Some(View().live[s].data) else None
    {
      IdxForFindsLive(s);
      var idx := IdxFor(s);
      data := if idx >= 0 then Some(buf[idx].data) else None;
    }

    method GetSegmentActualDuration(s: nat) returns (d: real)
      requires Valid()
      ensures d == if s in View().live then View().live[s].duration else 0.0
    {
      IdxForFindsLive(s);
      var idx := IdxFor(s);
      d := if idx >= 0 then buf[idx].duration else 0.0;
    }

    /** The size of the window; `LenCountsStoredExactlyWhen` says when that many segments are stored. */
    method Len() returns (n: nat)
      requires Valid()
      ensures n == View().hi - View().lo
    {
      if nextSeq <= baseSeq {
        return 0;
      }
      var count := nextSeq - baseSeq;
      if count > capacity {
        return capacity;
      }
      return count;
    }

    method Reset(newBase: nat)
      requires 0 < capacity == buf.Length && newBase < TWO_TO_THE_32
      modifies this, buf
      ensures Valid() && resetBase == newBase && log == []
    {
      baseSeq, nextSeq := newBase, newBase;
      resetBase, log := newBase, [];
      for i := 0 to buf.Length
        modifies buf
        invariant forall k :: 0 <= k < i ==> buf[k] == NO_SEGMENT
      {
        buf[i] := NO_SEGMENT;
      }
    }

    /** The base of a reachable buffer: the reset base or the capacity bound, whichever is later. */
    lemma BaseFollowsNext()
      requires Valid()
      ensures baseSeq == Max(resetBase, nextSeq - capacity)
      ensures View().lo == baseSeq && View().hi == nextSeq && nextSeq - baseSeq <= capacity
    {
    }
  }

  lemma {:induction false} FullRange(lo: nat, hi: nat, s: set<nat>)
    requires lo <= hi && forall k :: k in s ==> lo <= k < hi
    ensures |s| <= hi - lo
    ensures |s| == hi - lo <==> forall k :: lo <= k < hi ==> k in s
    decreases hi
  {
    if lo < hi {
      var rest := s - {hi - 1};
      FullRange(lo, hi - 1, rest);
      assert (forall k :: lo <= k < hi ==> k in s) ==> forall k :: lo <= k < hi - 1 ==> k in rest;
      assert hi - 1 in s ==> s == rest + {hi - 1};
      assert hi - 1 !in s ==> s == rest;
    } else {
      assert s == {};
    }
  }

  /** `Len` is the number of stored segments exactly when the window has no gaps. */
  lemma LenCountsStoredExactlyWhen(cap: nat, r: nat, log: seq<Segment>)
    ensures var w := WindowOf(cap, r, log);
      w.hi - w.lo == |w.live| <==> forall s :: w.lo <= s < w.hi ==> s in w.live
  {
    var w := WindowOf(cap, r, log);
    FullRange(w.lo, w.hi, w.live.Keys);
  }

  /**
   Two peers that reset to the same number and received the same segments, in whatever order and
   with whatever repeats, hold the same window.
   */
  lemma PeersAgree(a: RingBuffer, b: RingBuffer)
    requires a.Valid() && b.Valid()
    requires a.capacity == b.capacity && a.resetBase == b.resetBase
    requires Arrivals(a.log) == Arrivals(b.log) && ConflictFree(a.capacity, a.resetBase, a.log)
    ensures a.baseSeq == b.baseSeq && a.nextSeq == b.nextSeq && Shared(a.View()) == Shared(b.View())
  {
    ArrivalOrderDoesNotMatter(a.capacity, a.resetBase, a.log, b.log);
    a.BaseFollowsNext();
    b.BaseFollowsNext();
  }

  /** A late segment pulls a non-empty snapshot's base down. */
  lemma SnapshotBaseCanFall(x: Segment, y: Segment)
    requires x.seqNo == 102 && y.seqNo == 100 && x.data != [] && y.data != []
    ensures IsFirstRun(WindowOf(60, 100, [x]), 102, [x])
    ensures IsFirstRun(WindowOf(60, 100, [x, y]), 100, [y])
  {
    assert [x] == [] + [x] && [x, y] == [x] + [y];
    AppendMovesWindow(60, 100, [], x);
    AppendMovesWindow(60, 100, [x], y);
  }
}
