/** The hybrid logical clock: 48 bits of milliseconds and a 16-bit counter in one stamp. */
module HybridClocks {
  import opened Wrappers

  const COUNTER_RANGE: int := 0x1_0000

  /** The clock's two globals, and the two parts of a stamp. */
  datatype Stamp = Stamp(time: int, logical: int)

  /** (physical << 16) | (logical & 0xFFFF) */
  function Pack(s: Stamp): int {
    s.time * COUNTER_RANGE + s.logical % COUNTER_RANGE
  }

  /** (hlc >> 16, hlc & 0xFFFF); the shift rounds down, as does the Euclidean quotient */
  function Unpack(hlc: int): Stamp {
    Stamp(hlc / COUNTER_RANGE, hlc % COUNTER_RANGE)
  }

  predicate Fits(s: Stamp) {
    0 <= s.logical < COUNTER_RANGE
  }

  predicate Less(s: Stamp, t: Stamp) {
    s.time < t.time || (s.time == t.time && s.logical < t.logical)
  }

  /** A local event at wall time `now`. */
  function Tick(s: Stamp, now: int): Stamp {
    if s.time < now then Stamp(now, 0) else Stamp(s.time, s.logical + 1)
  }

  /** Receipt of `remote` at wall time `now`. */
  function Merge(s: Stamp, remote: Stamp, now: int): Stamp {
    var t := Max(Max(now, remote.time), s.time);
    if t == s.time == remote.time then Stamp(t, Max(s.logical, remote.logical) + 1)
    else if t == s.time then Stamp(t, s.logical + 1)
    else if t == remote.time then Stamp(t, remote.logical + 1)
    else Stamp(t, 0)
  }

  class HybridClock {
    var hlcTime: int
    var hlcLogical: int

    constructor ()
      ensures State() == Stamp(0, 0)
    {
      hlcTime, hlcLogical := 0, 0;
    }

    function State(): Stamp
      reads this
    {
      Stamp(hlcTime, hlcLogical)
    }

    method GetCurrentHLC(now: int) returns (hlc: int)
      modifies this
      ensures State() == Tick(old(State()), now) && hlc == Pack(State())
    {
      if now > hlcTime {
        hlcTime := now;
        hlcLogical := 0;
      } else {
        hlcLogical := hlcLogical + 1;
      }
      return Pack(Stamp(hlcTime, hlcLogical));
    }

    method UpdateHLC(remoteHLC: int, now: int) returns (hlc: int)
      modifies this
      ensures State() == Merge(old(State()), Unpack(remoteHLC), now) && hlc == Pack(State())
    {
      var remote := Unpack(remoteHLC);
      var oldTime := hlcTime;
      var maxTime := now;
      if remote.time > maxTime {
        maxTime := remote.time;
      }
      if oldTime > maxTime {
        maxTime := oldTime;
      }
      hlcTime := maxTime;
      if hlcTime == oldTime && hlcTime == remote.time {
        if remote.logical > hlcLogical {
          hlcLogical := remote.logical + 1;
        } else {
          hlcLogical := hlcLogical + 1;
        }
      } else if hlcTime == oldTime {
        hlcLogical := hlcLogical + 1;
      } else if hlcTime == remote.time {
        hlcLogical := remote.logical + 1;
      } else {
        hlcLogical := 0;
      }
      return Pack(Stamp(hlcTime, hlcLogical));
    }
  }

  // ----- packing -----

  lemma UnpackInvertsPackExactlyWhen(s: Stamp)
    ensures Unpack(Pack(s)) == s <==> Fits(s)
  {
    assert Pack(s) / COUNTER_RANGE == s.time && Pack(s) % COUNTER_RANGE == s.logical % COUNTER_RANGE;
  }

  /** Packed stamps compare as integers exactly as their parts compare lexicographically. */
  lemma PackPreservesOrder(s: Stamp, t: Stamp)
    requires Fits(s) && Fits(t)
    ensures Pack(s) < Pack(t) <==> Less(s, t)
    ensures Pack(s) == Pack(t) <==> s == t
  {
  }

  /**
   Consecutive local stamps increase as integers exactly unless the wall clock stands still and
   the counter has just used up its 16 bits.
   */
  lemma LocalStampsIncreaseExactlyUnless(s: Stamp, now: int)
    requires 0 <= s.logical
    ensures Pack(s) < Pack(Tick(s, now)) <==> s.time < now || (s.logical + 1) % COUNTER_RANGE != 0
  {
    if s.time >= now {
      assert (s.logical + 1) % COUNTER_RANGE ==
             if s.logical % COUNTER_RANGE == COUNTER_RANGE - 1 then 0 else s.logical % COUNTER_RANGE + 1;
    }
  }

  /** Stamps are the time shifted by 16 bits, and the counter. */
  lemma StampsAreShifted(t: int, c: int)
    requires 0 <= c < 65536
    ensures Pack(Stamp(t, c)) == 65536 * t + c && Unpack(65536 * t + c) == Stamp(t, c)
  {
    assert Pack(Stamp(t, c)) == t * 65536 + c;
    UnpackInvertsPackExactlyWhen(Stamp(t, c));
  }

  /** The clock is never behind the wall, nor before what it showed or received, and not ahead of all of these. */
  lemma ClockFollowsWall(s: Stamp, remote: Stamp, now: int)
    ensures Tick(s, now).time == Max(s.time, now)
    ensures Merge(s, remote, now).time == Max(Max(s.time, now), remote.time)
  {
  }

  lemma TickAdvances(s: Stamp, now: int)
    ensures Less(s, Tick(s, now))
  {
  }

  lemma MergeAdvances(s: Stamp, remote: Stamp, now: int)
    ensures Less(s, Merge(s, remote, now)) && Less(remote, Merge(s, remote, now))
  {
  }
}

/** Runs of any number of nodes that stamp their events and exchange the stamps. */
module HybridClockRuns {
  import opened Wrappers
  import opened HybridClocks

  type NodeId = nat

  /** An event: `wall` is the reading taken; a receipt carries the packed stamp of event `source`. */
  datatype Step =
    | Local(node: NodeId, wall: int)
    | Receive(node: NodeId, wall: int, source: nat)

  /** Messages may be delayed, reordered and repeated, but not received before they are sent. */
  ghost predicate IsRun(run: seq<Step>) {
    forall i :: 0 <= i < |run| && run[i].Receive? ==> run[i].source < i
  }

  /** The clock of `node` after the run: the initial (0, 0), or its last event's stamp. */
  function ClockAt(run: seq<Step>, node: NodeId): Stamp
    requires IsRun(run)
    decreases |run|, 1
  {
    if run == [] then Stamp(0, 0)
    else if run[|run| - 1].node == node then StampOf(run, |run| - 1)
    else ClockAt(run[..|run| - 1], node)
  }

  /** The clock state that event `i` leaves behind and stamps its messages with. */
  function StampOf(run: seq<Step>, i: nat): Stamp
    requires IsRun(run) && i < |run|
    decreases i + 1, 0
  {
    var before := ClockAt(run[..i], run[i].node);
    match run[i]
    case Local(_, wall) => Tick(before, wall)
    case Receive(_, wall, source) => Merge(before, Unpack(Pack(StampOf(run, source))), wall)
  }

  /** Event `k` directly precedes event `j`: same node, or the send that `j` receives. */
  ghost predicate Precedes(run: seq<Step>, k: nat, j: nat)
    requires j < |run|
  {
    k < j && (run[k].node == run[j].node || (run[j].Receive? && run[j].source == k))
  }

  /** Happened-before, the transitive closure. */
  ghost predicate HappensBefore(run: seq<Step>, i: nat, j: nat)
    requires j < |run|
    decreases j
  {
    exists k :: 0 <= k < j && Precedes(run, k, j) && (k == i || HappensBefore(run, i, k))
  }

  // ----- stamps depend only on the past -----

  lemma {:induction false} StampOfPrefix(run: seq<Step>, n: nat, i: nat)
    requires IsRun(run) && i < n <= |run|
    ensures StampOf(run[..n], i) == StampOf(run, i)
    decreases i
  {
    assert run[..n][..i] == run[..i];
    if run[i].Receive? {
      StampOfPrefix(run, n, run[i].source);
    }
  }

  // ----- causality -----

  ghost predicate AllFit(run: seq<Step>)
    requires IsRun(run)
  {
    forall i :: 0 <= i < |run| ==> Fits(StampOf(run, i))
  }

  /** Along one node, the clock never falls behind the stamp of an earlier event. */
  lemma {:induction false} ClockCoversPast(run: seq<Step>, n: nat, k: nat)
    requires IsRun(run) && k < n <= |run|
    ensures var c := ClockAt(run[..n], run[k].node); c == StampOf(run, k) || Less(StampOf(run, k), c)
  {
    assert run[..n][..n - 1] == run[..n - 1];
    StampOfPrefix(run, n, n - 1);
    if k != n - 1 {
      ClockCoversPast(run, n - 1, k);
      if run[n - 1].node == run[k].node {
        var before := ClockAt(run[..n - 1], run[k].node);
        assert Less(before, StampOf(run, n - 1));
      }
    }
  }

  lemma DirectPredecessorIsLess(run: seq<Step>, k: nat, j: nat)
    requires IsRun(run) && AllFit(run) && j < |run| && Precedes(run, k, j)
    ensures Less(StampOf(run, k), StampOf(run, j))
  {
    var before := ClockAt(run[..j], run[j].node);
    if run[k].node == run[j].node {
      ClockCoversPast(run, j, k);
    }
    match run[j]
    case Local(_, wall) =>
      TickAdvances(before, wall);
    case Receive(_, wall, source) =>
      UnpackInvertsPackExactlyWhen(StampOf(run, source));
      MergeAdvances(before, StampOf(run, source), wall);
  }

  /** If `i` happened before `j`, then the packed stamp of `i` is the smaller integer. */
  lemma {:induction false} CausalityIsRespected(run: seq<Step>, i: nat, j: nat)
    requires IsRun(run) && AllFit(run) && j < |run| && HappensBefore(run, i, j)
    ensures i < j && Pack(StampOf(run, i)) < Pack(StampOf(run, j))
    decreases j
  {
    var k :| 0 <= k < j && Precedes(run, k, j) && (k == i || HappensBefore(run, i, k));
    DirectPredecessorIsLess(run, k, j);
    PackPreservesOrder(StampOf(run, k), StampOf(run, j));
    if k != i {
      CausalityIsRespected(run, i, k);
    }
  }

  // ----- boundedness -----

  ghost predicate PositiveWalls(run: seq<Step>) {
    forall i :: 0 <= i < |run| ==> 0 < run[i].wall
  }

  /** The largest wall reading taken in the run. */
  function MaxWall(run: seq<Step>): int {
    if run == [] then 0 else Max(MaxWall(run[..|run| - 1]), run[|run| - 1].wall)
  }

  lemma {:induction false} MaxWallGrows(run: seq<Step>, m: nat, n: nat)
    requires m <= n <= |run|
    ensures MaxWall(run[..m]) <= MaxWall(run[..n])
    decreases n
  {
    if m < n {
      assert run[..n][..n - 1] == run[..n - 1];
      MaxWallGrows(run, m, n - 1);
    }
  }

  /** Every stamp has positive time and counter, and no time runs ahead of every wall clock read so far. */
  lemma {:induction false} TimeIsBoundedByWalls(run: seq<Step>, i: nat)
    requires IsRun(run) && PositiveWalls(run) && i < |run|
    ensures 0 < StampOf(run, i).time <= MaxWall(run[..i + 1])
    ensures 0 <= StampOf(run, i).logical
    decreases i
  {
    assert run[..i + 1][..i] == run[..i];
    var before := ClockAt(run[..i], run[i].node);
    ClockIsInitialOrStamp(run, i, run[i].node);
    if before != Stamp(0, 0) {
      var k :| 0 <= k < i && before == StampOf(run, k);
      TimeIsBoundedByWalls(run, k);
      MaxWallGrows(run, k + 1, i + 1);
    }
    if run[i].Receive? {
      TimeIsBoundedByWalls(run, run[i].source);
      MaxWallGrows(run, run[i].source + 1, i + 1);
    }
    EventIsBounded(run, i, before, MaxWall(run[..i + 1]));
  }

  /** One event leaves the clock within a bound that its wall and all it builds on keep. */
  lemma EventIsBounded(run: seq<Step>, i: nat, before: Stamp, bound: int)
    requires IsRun(run) && i < |run| && before == ClockAt(run[..i], run[i].node)
    requires 0 < run[i].wall <= bound && before.time <= bound && 0 <= before.logical
    requires run[i].Receive? ==> StampOf(run, run[i].source).time <= bound
    ensures 0 < StampOf(run, i).time <= bound && 0 <= StampOf(run, i).logical
  {
    match run[i]
    case Local(_, wall) => ClockFollowsWall(before, before, wall);
    case Receive(_, wall, k) => ReceiptIsBounded(before, StampOf(run, k), wall, bound);
  }

  lemma ReceiptIsBounded(before: Stamp, remote: Stamp, wall: int, bound: int)
    requires 0 < wall <= bound && before.time <= bound && remote.time <= bound && 0 <= before.logical
    ensures 0 < Merge(before, Unpack(Pack(remote)), wall).time <= bound
    ensures 0 <= Merge(before, Unpack(Pack(remote)), wall).logical
  {
    TimeSurvivesPacking(remote);
    ClockFollowsWall(before, Unpack(Pack(remote)), wall);
    MergeKeepsCounterNatural(before, Unpack(Pack(remote)), wall);
  }

  lemma TimeSurvivesPacking(s: Stamp)
    ensures Unpack(Pack(s)).time == s.time && 0 <= Unpack(Pack(s)).logical
  {
  }

  lemma MergeKeepsCounterNatural(s: Stamp, remote: Stamp, now: int)
    ensures 0 <= s.logical && 0 <= remote.logical ==> 0 <= Merge(s, remote, now).logical
  {
  }

  lemma {:induction false} ClockIsInitialOrStamp(run: seq<Step>, n: nat, node: NodeId)
    requires IsRun(run) && n <= |run|
    ensures ClockAt(run[..n], node) == Stamp(0, 0) || exists k :: 0 <= k < n && ClockAt(run[..n], node) == StampOf(run, k)
  {
    if n != 0 {
      assert run[..n][..n - 1] == run[..n - 1];
      StampOfPrefix(run, n, n - 1);
      ClockIsInitialOrStamp(run, n - 1, node);
    }
  }

  /** The events of the first `n` that carry time `t`. */
  ghost function EventsAt(run: seq<Step>, n: nat, t: int): set<nat>
    requires IsRun(run) && n <= |run|
  {
    set i | 0 <= i < n && StampOf(run, i).time == t
  }

  /** Counter `c` at time `t` is backed by a chain of c+1 distinct events, all at time `t`. */
  lemma {:induction false} CounterIsWitnessed(run: seq<Step>, i: nat) returns (chain: seq<nat>)
    requires IsRun(run) && PositiveWalls(run) && i < |run|
    requires forall k :: 0 <= k < i ==> Fits(StampOf(run, k))
    ensures 0 < |chain| == StampOf(run, i).logical + 1
    ensures chain[|chain| - 1] == i
    ensures forall c :: 0 <= c < |chain| ==> chain[c] <= i && StampOf(run, chain[c]) == Stamp(StampOf(run, i).time, c)
    decreases i
  {
    TimeIsBoundedByWalls(run, i);
    var s := StampOf(run, i);
    if s.logical == 0 {
      chain := [i];
    } else {
      var k := CounterComesFrom(run, i);
      chain := CounterIsWitnessed(run, k);
      chain := chain + [i];
    }
  }

  /** A positive counter was counted on from an earlier event at the same time. */
  lemma CounterComesFrom(run: seq<Step>, i: nat) returns (k: nat)
    requires IsRun(run) && PositiveWalls(run) && i < |run| && 0 < StampOf(run, i).logical
    requires forall k :: 0 <= k < i ==> Fits(StampOf(run, k))
    ensures k < i && StampOf(run, k) == Stamp(StampOf(run, i).time, StampOf(run, i).logical - 1)
  {
    var s, before := StampOf(run, i), ClockAt(run[..i], run[i].node);
    TimeIsBoundedByWalls(run, i);
    ClockIsInitialOrStamp(run, i, run[i].node);
    if before == Stamp(s.time, s.logical - 1) {
      k :| 0 <= k < i && before == StampOf(run, k);
    } else {
      assert run[i].Receive?;
      k := run[i].source;
      UnpackInvertsPackExactlyWhen(StampOf(run, k));
    }
  }

  lemma {:induction false} ChainIsNoLargerThan(chain: seq<nat>, events: set<nat>)
    requires forall c :: 0 <= c < |chain| ==> chain[c] in events
    requires forall c, d :: 0 <= c < d < |chain| ==> chain[c] != chain[d]
    ensures |chain| <= |events|
  {
    if chain != [] {
      var last := chain[|chain| - 1];
      ChainIsNoLargerThan(chain[..|chain| - 1], events - {last});
    }
  }

  /** With at most 65536 events in any one millisecond, no counter overflows and unpacking is exact. */
  lemma {:induction false} FewEventsPerMillisecondFit(run: seq<Step>, n: nat)
    requires IsRun(run) && PositiveWalls(run) && n <= |run|
    requires forall t :: |EventsAt(run, |run|, t)| <= COUNTER_RANGE
    ensures forall i :: 0 <= i < n ==> Fits(StampOf(run, i)) && Unpack(Pack(StampOf(run, i))) == StampOf(run, i)
  {
    if n != 0 {
      FewEventsPerMillisecondFit(run, n - 1);
      var i := n - 1;
      var t := StampOf(run, i).time;
      var chain := CounterIsWitnessed(run, i);
      ChainIsNoLargerThan(chain, EventsAt(run, |run|, t));
      TimeIsBoundedByWalls(run, i);
      UnpackInvertsPackExactlyWhen(StampOf(run, i));
    }
  }

  /** Hence causality needs no assumption about counters, only about the event rate. */
  lemma CausalityAtBoundedRate(run: seq<Step>, i: nat, j: nat)
    requires IsRun(run) && PositiveWalls(run) && i < |run| && j < |run| && HappensBefore(run, i, j)
    requires forall t :: |EventsAt(run, |run|, t)| <= COUNTER_RANGE
    ensures Pack(StampOf(run, i)) < Pack(StampOf(run, j))
  {
    FewEventsPerMillisecondFit(run, |run|);
    CausalityIsRespected(run, i, j);
  }

  /** In every run a stamp is never behind the wall its node read. */
  lemma StampIsNotBehindWall(run: seq<Step>, i: nat)
    requires IsRun(run) && i < |run|
    ensures run[i].wall <= StampOf(run, i).time
  {
    var before := ClockAt(run[..i], run[i].node);
    match run[i]
    case Local(_, wall) => ClockFollowsWall(before, before, wall);
    case Receive(_, wall, source) => ClockFollowsWall(before, Unpack(Pack(StampOf(run, source))), wall);
  }
}
