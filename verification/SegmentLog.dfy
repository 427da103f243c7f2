/**
 What a segment buffer means, without arrays: the buffer is described by the sequence number
 of its last reset and the log of every write made since. Everything an observer can see is
 the window, a function of the two.
 */
module SegmentLog {
  import opened Wrappers

  newtype byte = x: int | 0 <= x < 256

  datatype Segment = Segment(seqNo: nat, data: seq<byte>, pts: real, time: int, duration: real)

  /** The zero value that fills unwritten slots. */
  const NO_SEGMENT := Segment(0, [], 0.0, 0, 0.0)

  /** The observable window: sequence numbers lo <= s < hi, and the live segments among them. */
  datatype Window = Window(lo: nat, hi: nat, live: map<nat, Segment>)

  function NextOf(r: nat, log: seq<Segment>): (n: nat)
    ensures r <= n
  {
    if log == [] then r else Max(NextOf(r, log[..|log| - 1]), log[|log| - 1].seqNo + 1)
  }

  function BaseOf(cap: nat, r: nat, log: seq<Segment>): nat {
    Max(r, NextOf(r, log) - cap)
  }

  function LastWrite(log: seq<Segment>, s: nat): (w: Option<Segment>)
    ensures w.Some? ==> w.value.seqNo == s
  {
    if log == [] then None
    else if log[|log| - 1].seqNo == s then Some(log[|log| - 1])
    else LastWrite(log[..|log| - 1], s)
  }

  /** Number `s` was written since the reset, and its last write carries data. */
  predicate HasData(log: seq<Segment>, s: nat) {
    LastWrite(log, s).Some? && LastWrite(log, s).value.data != []
  }

  function WindowOf(cap: nat, r: nat, log: seq<Segment>): Window {
    var lo, hi := BaseOf(cap, r, log), NextOf(r, log);
    Window(lo, hi, map s | lo <= s < hi && HasData(log, s) :: LastWrite(log, s).value)
  }

  /** `segs` is the first maximal run of live segments; it starts at number `base`. */
  ghost predicate IsFirstRun(w: Window, base: nat, segs: seq<Segment>) {
    && w.lo <= base && base + |segs| <= w.hi
    && (forall s :: w.lo <= s < base ==> s !in w.live)
    && (forall s :: base <= s < base + |segs| ==> s in w.live && w.live[s] == segs[s - base])
    && base + |segs| !in w.live
    && (segs == [] ==> base == w.lo && w.live == map[])
  }

  lemma {:induction false} NextOfIsBound(r: nat, log: seq<Segment>)
    ensures r <= NextOf(r, log)
    ensures forall x :: x in log ==> x.seqNo < NextOf(r, log)
    ensures NextOf(r, log) == r || exists x :: x in log && NextOf(r, log) == x.seqNo + 1
  {
    if log != [] {
      var front := log[..|log| - 1];
      NextOfIsBound(r, front);
      assert log == front + [log[|log| - 1]];
    }
  }

  lemma {:induction false} LastWriteIsInLog(log: seq<Segment>, s: nat)
    ensures LastWrite(log, s).Some? ==> LastWrite(log, s).value in log
    ensures LastWrite(log, s).None? ==> forall x :: x in log ==> x.seqNo != s
    ensures forall r :: LastWrite(log, s).Some? ==> s < NextOf(r, log)
  {
    if log != [] {
      var front := log[..|log| - 1];
      LastWriteIsInLog(front, s);
      assert log == front + [log[|log| - 1]];
    }
  }

  /** Entry `i` is the latest one that carries number `s`. */
  ghost predicate IsLatest(log: seq<Segment>, s: nat, i: nat) {
    i < |log| && log[i].seqNo == s && forall j :: i < j < |log| ==> log[j].seqNo != s
  }

  lemma {:induction false} LastWriteIsLatest(log: seq<Segment>, s: nat)
    ensures LastWrite(log, s).None? ==> forall i :: 0 <= i < |log| ==> log[i].seqNo != s
    ensures LastWrite(log, s).Some? ==> exists i: nat :: IsLatest(log, s, i) && log[i] == LastWrite(log, s).value
  {
    if log != [] {
      var front, last := log[..|log| - 1], log[|log| - 1];
      LastWriteIsLatest(front, s);
      if last.seqNo == s {
        assert IsLatest(log, s, |log| - 1);
      } else if LastWrite(front, s).Some? {
        var i: nat :| IsLatest(front, s, i) && front[i] == LastWrite(front, s).value;
        assert IsLatest(log, s, i);
      } else {
        assert forall i :: 0 <= i < |front| ==> log[i] == front[i];
      }
    }
  }

  // ----- appending one write -----

  lemma AppendWrite(r: nat, log: seq<Segment>, x: Segment)
    ensures NextOf(r, log + [x]) == Max(NextOf(r, log), x.seqNo + 1)
    ensures forall s :: LastWrite(log + [x], s) == if s == x.seqNo then Some(x) else LastWrite(log, s)
  {
    assert (log + [x])[..|log|] == log;
  }

  lemma AppendMovesWindow(cap: nat, r: nat, log: seq<Segment>, x: Segment)
    ensures var v, w := WindowOf(cap, r, log), WindowOf(cap, r, log + [x]);
      && v.lo <= w.lo && v.hi <= w.hi
      && (forall s :: s != x.seqNo ==> (s in w.live <==> s in v.live && w.lo <= s))
      && (forall s :: s != x.seqNo && s in w.live ==> w.live[s] == v.live[s])
      && (x.seqNo in w.live <==> w.lo <= x.seqNo && x.data != [])
      && (x.seqNo in w.live ==> w.live[x.seqNo] == x)
  {
    AppendWrite(r, log, x);
    var v, w := WindowOf(cap, r, log), WindowOf(cap, r, log + [x]);
    forall s: nat | s != x.seqNo ensures s in w.live <==> s in v.live && w.lo <= s {
      LastWriteIsInLog(log, s);
      assert HasData(log + [x], s) == HasData(log, s);
      assert HasData(log, s) ==> s < v.hi;
    }
  }

  // ----- the snapshot -----

  lemma FirstRunIsUnique(w: Window, b: nat, u: seq<Segment>, c: nat, v: seq<Segment>)
    requires IsFirstRun(w, b, u) && IsFirstRun(w, c, v)
    ensures b == c && u == v
  {
    assert u != [] ==> b in w.live;
    assert v != [] ==> c in w.live;
    forall i | 0 <= i < |u| ensures i < |v| && u[i] == v[i] {
      assert b + i in w.live && w.live[b + i] == u[b + i - b];
    }
  }

  /** Snapshot segments are numbered consecutively, so their implicit playlist numbers are right. */
  lemma FirstRunIsContiguous(cap: nat, r: nat, log: seq<Segment>, base: nat, segs: seq<Segment>)
    requires IsFirstRun(WindowOf(cap, r, log), base, segs)
    ensures forall i :: 0 <= i < |segs| ==> segs[i].seqNo == base + i && segs[i].data != []
    ensures |segs| <= cap
  {
    forall i | 0 <= i < |segs| ensures segs[i].seqNo == base + i && segs[i].data != [] {
      assert WindowOf(cap, r, log).live[base + i] == segs[base + i - base];
    }
  }

  // ----- buffers filled only by in-order writes -----

  /** The log holds non-empty segments numbered r, r+1, r+2, ... */
  ghost predicate InOrder(r: nat, log: seq<Segment>) {
    forall i :: 0 <= i < |log| ==> log[i].seqNo == r + i && log[i].data != []
  }

  lemma {:induction false} InOrderLookup(r: nat, log: seq<Segment>)
    requires InOrder(r, log)
    ensures NextOf(r, log) == r + |log|
    ensures forall s :: r <= s < r + |log| ==> LastWrite(log, s) == Some(log[s - r])
  {
    if log != [] {
      var front := log[..|log| - 1];
      InOrderLookup(r, front);
      assert log == front + [log[|log| - 1]];
      AppendWrite(r, front, log[|log| - 1]);
    }
  }

  /** After in-order writes the snapshot is the whole window: the last min(n, capacity) segments. */
  lemma InOrderSnapshotIsWindow(cap: nat, r: nat, log: seq<Segment>, base: nat, segs: seq<Segment>)
    requires 0 < cap && InOrder(r, log)
    requires IsFirstRun(WindowOf(cap, r, log), base, segs)
    ensures base == Max(r, r + |log| - cap)
    ensures segs == if |log| <= cap then log else log[|log| - cap..]
  {
    InOrderLookup(r, log);
    var w := WindowOf(cap, r, log);
    forall s | w.lo <= s < w.hi ensures s in w.live && w.live[s] == log[s - r] {
      assert LastWrite(log, s) == Some(log[s - r]);
    }
    FullWindowSnapshot(w, r, log, base, segs);
  }

  lemma FullWindowSnapshot(w: Window, r: nat, log: seq<Segment>, base: nat, segs: seq<Segment>)
    requires r <= w.lo <= w.hi == r + |log|
    requires forall s :: s in w.live <==> w.lo <= s < w.hi
    requires forall s :: s in w.live ==> w.live[s] == log[s - r]
    requires IsFirstRun(w, base, segs)
    ensures base == w.lo && segs == log[w.lo - r..]
  {
    var window := log[w.lo - r..];
    assert window != [] ==> w.lo in w.live;
    assert window == [] ==> w.live == map[];
    FirstRunIsUnique(w, w.lo, window, base, segs);
  }

  /** Hence the snapshot base never decreases while segments are only written in order. */
  lemma InOrderBaseIsMonotone(cap: nat, r: nat, log: seq<Segment>, x: Segment,
                              b: nat, u: seq<Segment>, c: nat, v: seq<Segment>)
    requires 0 < cap && InOrder(r, log + [x])
    requires IsFirstRun(WindowOf(cap, r, log), b, u) && IsFirstRun(WindowOf(cap, r, log + [x]), c, v)
    ensures b <= c <= b + 1
  {
    assert InOrder(r, log) by {
      assert forall i :: 0 <= i < |log| ==> (log + [x])[i] == log[i];
    }
    InOrderSnapshotIsWindow(cap, r, log, b, u);
    InOrderSnapshotIsWindow(cap, r, log + [x], c, v);
  }

  /**
   In general, between non-empty snapshots, an arrival lowers the base exactly when it brings
   data for a number that is in the window and below the base.
   */
  lemma ArrivalLowersBaseExactlyWhen(cap: nat, r: nat, log: seq<Segment>, x: Segment,
                                     b: nat, u: seq<Segment>, c: nat, v: seq<Segment>)
    requires 0 < cap && u != [] && v != []
    requires IsFirstRun(WindowOf(cap, r, log), b, u) && IsFirstRun(WindowOf(cap, r, log + [x]), c, v)
    ensures c < b <==> x.data != [] && BaseOf(cap, r, log + [x]) <= x.seqNo < b
  {
    AppendMovesWindow(cap, r, log, x);
    var w, w' := WindowOf(cap, r, log), WindowOf(cap, r, log + [x]);
    assert b in w.live && c in w'.live;
  }

  // ----- order of arrival -----

  /** A segment without its local arrival time, which differs from peer to peer. */
  function Payload(x: Segment): Segment {
    x.(time := 0)
  }

  ghost function Arrivals(log: seq<Segment>): set<Segment> {
    set x | x in log :: Payload(x)
  }

  /** The window without arrival times: what two peers can be expected to agree on. */
  ghost function Shared(w: Window): Window {
    w.(live := map s | s in w.live :: Payload(w.live[s]))
  }

  /** No two arrivals that are still in the window disagree about one sequence number. */
  ghost predicate ConflictFree(cap: nat, r: nat, log: seq<Segment>) {
    forall x, y :: x in log && y in log && x.seqNo == y.seqNo && BaseOf(cap, r, log) <= x.seqNo
      ==> Payload(x) == Payload(y) || (x.data == [] && y.data == [])
  }

  lemma Arrived(g: seq<Segment>, h: seq<Segment>, x: Segment) returns (y: Segment)
    requires Arrivals(g) == Arrivals(h) && x in g
    ensures y in h && Payload(x) == Payload(y)
  {
    assert Payload(x) in Arrivals(h);
    y :| y in h && Payload(x) == Payload(y);
  }

  lemma SameArrivalsSameNext(r: nat, g: seq<Segment>, h: seq<Segment>)
    requires Arrivals(g) == Arrivals(h)
    ensures NextOf(r, g) <= NextOf(r, h)
  {
    NextOfIsBound(r, g);
    NextOfIsBound(r, h);
    if NextOf(r, g) != r {
      var x :| x in g && NextOf(r, g) == x.seqNo + 1;
      var y := Arrived(g, h, x);
    }
  }

  lemma SameArrivalsSameView(cap: nat, r: nat, g: seq<Segment>, h: seq<Segment>, s: nat)
    requires ConflictFree(cap, r, g) && Arrivals(g) == Arrivals(h) && BaseOf(cap, r, g) <= s
    ensures HasData(g, s) <==> HasData(h, s)
    ensures HasData(g, s) ==> Payload(LastWrite(g, s).value) == Payload(LastWrite(h, s).value)
  {
    LastWriteIsInLog(g, s);
    LastWriteIsInLog(h, s);
    var v, w := LastWrite(g, s), LastWrite(h, s);
    if v.Some? {
      var y := Arrived(g, h, v.value);
      assert y.seqNo == Payload(y).seqNo == s;
    }
    if w.Some? {
      var x := Arrived(h, g, w.value);
      assert x.seqNo == Payload(x).seqNo == s && x.data == Payload(x).data == w.value.data;
    }
  }

  lemma SharedEqual(v: Window, w: Window)
    requires v.lo == w.lo && v.hi == w.hi
    requires forall s :: s in v.live <==> s in w.live
    requires forall s :: s in v.live ==> Payload(v.live[s]) == Payload(w.live[s])
    ensures Shared(v) == Shared(w)
  {
  }

  /** The same segments, in any order and with any duplicates, give the same window. */
  lemma ArrivalOrderDoesNotMatter(cap: nat, r: nat, g: seq<Segment>, h: seq<Segment>)
    requires ConflictFree(cap, r, g) && Arrivals(g) == Arrivals(h)
    ensures Shared(WindowOf(cap, r, g)) == Shared(WindowOf(cap, r, h))
  {
    SameArrivalsSameNext(r, g, h);
    SameArrivalsSameNext(r, h, g);
    var wg, wh := WindowOf(cap, r, g), WindowOf(cap, r, h);
    forall s: nat
      ensures s in wg.live <==> s in wh.live
      ensures s in wg.live ==> Payload(wg.live[s]) == Payload(wh.live[s])
    {
      if wg.lo <= s < wg.hi {
        SameArrivalsSameView(cap, r, g, h, s);
      }
    }
    SharedEqual(wg, wh);
  }

  /** ... and the same snapshot, up to arrival times. */
  lemma ArrivalOrderDoesNotMatterToSnapshot(cap: nat, r: nat, g: seq<Segment>, h: seq<Segment>,
                                            b: nat, u: seq<Segment>, c: nat, v: seq<Segment>)
    requires ConflictFree(cap, r, g) && Arrivals(g) == Arrivals(h)
    requires IsFirstRun(WindowOf(cap, r, g), b, u) && IsFirstRun(WindowOf(cap, r, h), c, v)
    ensures b == c && |u| == |v| && forall i :: 0 <= i < |u| ==> Payload(u[i]) == Payload(v[i])
  {
    ArrivalOrderDoesNotMatter(cap, r, g, h);
    SharedFirstRun(WindowOf(cap, r, g), b, u);
    SharedFirstRun(WindowOf(cap, r, h), c, v);
    var pu, pv := seq(|u|, i requires 0 <= i < |u| => Payload(u[i])), seq(|v|, i requires 0 <= i < |v| => Payload(v[i]));
    FirstRunIsUnique(Shared(WindowOf(cap, r, g)), b, pu, c, pv);
    assert forall i :: 0 <= i < |u| ==> pu[i] == Payload(u[i]);
    assert forall i :: 0 <= i < |v| ==> pv[i] == Payload(v[i]);
  }

  lemma SharedFirstRun(w: Window, b: nat, u: seq<Segment>)
    requires IsFirstRun(w, b, u)
    ensures IsFirstRun(Shared(w), b, seq(|u|, i requires 0 <= i < |u| => Payload(u[i])))
  {
    assert w.live == map[] ==> Shared(w).live == map[];
  }

  /** Every buffer that received the same segments shows the same window. */
  ghost predicate OrderIsInvisible(cap: nat, r: nat, log: seq<Segment>) {
    forall h :: Arrivals(h) == Arrivals(log) ==> Shared(WindowOf(cap, r, h)) == Shared(WindowOf(cap, r, log))
  }

  /**
   Arrival order and duplication are invisible exactly when the log is free of conflicts:
   with a conflict, repeating one or the other of the two arrivals gives different windows.
   */
  lemma OrderIsInvisibleExactlyWhenConflictFree(cap: nat, r: nat, log: seq<Segment>)
    ensures OrderIsInvisible(cap, r, log) <==> ConflictFree(cap, r, log)
  {
    if ConflictFree(cap, r, log) {
      forall h | Arrivals(h) == Arrivals(log)
        ensures Shared(WindowOf(cap, r, h)) == Shared(WindowOf(cap, r, log))
      {
        ArrivalOrderDoesNotMatter(cap, r, log, h);
      }
    } else {
      var g, h := ConflictShows(cap, r, log);
    }
  }

  lemma ConflictShows(cap: nat, r: nat, log: seq<Segment>) returns (g: seq<Segment>, h: seq<Segment>)
    requires !ConflictFree(cap, r, log)
    ensures Arrivals(g) == Arrivals(log) == Arrivals(h)
    ensures Shared(WindowOf(cap, r, g)) != Shared(WindowOf(cap, r, h))
  {
    var x, y :| x in log && y in log && x.seqNo == y.seqNo && BaseOf(cap, r, log) <= x.seqNo
                && Payload(x) != Payload(y) && !(x.data == [] && y.data == []);
    g, h := log + [x], log + [y];
    RepeatedArrivalWins(cap, r, log, x);
    RepeatedArrivalWins(cap, r, log, y);
    SharedDiffer(WindowOf(cap, r, g), WindowOf(cap, r, h), x, y);
  }

  lemma SharedDiffer(v: Window, w: Window, x: Segment, y: Segment)
    requires x.seqNo == y.seqNo && Payload(x) != Payload(y) && !(x.data == [] && y.data == [])
    requires x.seqNo in v.live <==> x.data != []
    requires y.seqNo in w.live <==> y.data != []
    requires x.data != [] ==> v.live[x.seqNo] == x
    requires y.data != [] ==> w.live[y.seqNo] == y
    ensures Shared(v) != Shared(w)
  {
    assert x.seqNo in Shared(v).live <==> x.data != [];
    assert y.seqNo in Shared(w).live <==> y.data != [];
    assert x.data != [] && y.data != [] ==> Shared(v).live[x.seqNo] != Shared(w).live[x.seqNo];
  }

  lemma RepeatedArrivalWins(cap: nat, r: nat, log: seq<Segment>, x: Segment)
    requires x in log && BaseOf(cap, r, log) <= x.seqNo
    ensures Arrivals(log + [x]) == Arrivals(log)
    ensures var live := WindowOf(cap, r, log + [x]).live;
      && (x.seqNo in live <==> x.data != [])
      && (x.data != [] ==> live[x.seqNo] == x)
  {
    forall y | y in Arrivals(log) ensures y in Arrivals(log + [x]) {
      var z :| z in log && Payload(z) == y;
      assert z in log + [x];
    }
    AppendWrite(r, log, x);
    NextOfIsBound(r, log);
  }
}
