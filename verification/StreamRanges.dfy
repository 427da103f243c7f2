/** Which sequence numbers successive streams of one node use. */
module StreamRanges {
  import opened Wrappers
  import opened Queues
  import opened RoleManagers
  import opened DaemonSpec
  import opened EventLog
  import opened RunnerLifecycle
  import BatonPass

  /** The numbers base <= s < end of one stream. */
  datatype Stream = Stream(base: nat, end: nat)

  /** The streams started so far; each ends where the ring stood at the next start, the last at `next`. */
  function Streams(starts: seq<Start>, next: nat): seq<Stream> {
    if starts == [] then []
    else
      var last := starts[|starts| - 1];
      Streams(starts[..|starts| - 1], last.nextBefore) + [Stream(last.base, next)]
  }

  /** Later streams lie entirely above earlier ones, so no number is used twice. */
  ghost predicate Increasing(ss: seq<Stream>) {
    forall i, j :: 0 <= i < j < |ss| ==> ss[i].end <= ss[j].base
  }

  /** Every start but the first happened at or above where the ring then stood. */
  ghost predicate StartsAccounted(starts: seq<Start>) {
    forall i :: 1 <= i < |starts| ==> starts[i].nextBefore <= starts[i].base
  }

  /** Starts happen at non-decreasing numbers, all at most `bound`. */
  ghost predicate BasesRise(starts: seq<Start>, bound: nat) {
    && (forall i, j :: 0 <= i < j < |starts| ==> starts[i].base <= starts[j].base)
    && (forall i :: 0 <= i < |starts| ==> starts[i].base <= bound)
  }

  /** Each stream ends before the next one begins. */
  ghost predicate Adjacent(ss: seq<Stream>) {
    forall i :: 1 <= i < |ss| ==> ss[i - 1].end <= ss[i].base
  }

  /** One stream for each start. */
  ghost predicate HasBases(ss: seq<Stream>, starts: seq<Start>) {
    |ss| == |starts| && forall i :: 0 <= i < |ss| ==> ss[i].base == starts[i].base
  }

  /** Where numbers never go back, it is enough to compare neighbours. */
  lemma AdjacentIsIncreasing(ss: seq<Stream>, starts: seq<Start>, bound: nat)
    requires HasBases(ss, starts) && BasesRise(starts, bound)
    ensures Increasing(ss) <==> Adjacent(ss)
  {
    if Adjacent(ss) {
      forall i, j | 0 <= i < j < |ss| ensures ss[i].end <= ss[j].base {
        var k := i + 1;
        assert ss[k - 1].end <= ss[k].base;
        assert k < j ==> starts[k].base <= starts[j].base;
      }
    }
  }

  lemma LastStream(front: seq<Start>, last: Start, next: nat)
    ensures Streams(front + [last], next) == Streams(front, last.nextBefore) + [Stream(last.base, next)]
    ensures front != [] ==> Streams(front, next) != [] && Streams(front, next)[|Streams(front, next)| - 1].end == next
  {
    assert (front + [last])[..|front|] == front;
  }

  lemma {:induction false} StreamsHaveBases(starts: seq<Start>, next: nat)
    ensures HasBases(Streams(starts, next), starts)
  {
    if starts != [] {
      var front, last := starts[..|starts| - 1], starts[|starts| - 1];
      assert starts == front + [last];
      StreamsHaveBases(front, last.nextBefore);
      LastStream(front, last, next);
      AppendBases(Streams(front, last.nextBefore), front, Stream(last.base, next), last);
    }
  }

  lemma AppendBases(ss: seq<Stream>, starts: seq<Start>, x: Stream, y: Start)
    requires HasBases(ss, starts) && x.base == y.base
    ensures HasBases(ss + [x], starts + [y])
  {
  }

  lemma {:induction false} AdjacentExactlyWhenAccounted(starts: seq<Start>, next: nat)
    ensures Adjacent(Streams(starts, next)) <==> StartsAccounted(starts)
  {
    if starts != [] {
      var front, last := starts[..|starts| - 1], starts[|starts| - 1];
      assert starts == front + [last];
      AdjacentExactlyWhenAccounted(front, last.nextBefore);
      LastStream(front, last, next);
      LastStream(front, last, last.nextBefore);
      StreamsHaveBases(front, last.nextBefore);
      AppendAdjacent(Streams(front, last.nextBefore), Stream(last.base, next));
      AppendAccounted(front, last);
    }
  }

  lemma AppendAccounted(starts: seq<Start>, x: Start)
    ensures StartsAccounted(starts + [x]) <==> StartsAccounted(starts) && (starts != [] ==> x.nextBefore <= x.base)
  {
    var all := starts + [x];
    assert forall i :: 0 <= i < |starts| ==> all[i] == starts[i];
    if StartsAccounted(all) && starts != [] {
      assert all[|starts|].nextBefore <= all[|starts|].base;
    }
  }

  /** Successive streams never share a number exactly when every start was accounted for. */
  lemma IncreasingExactlyWhenAccounted(starts: seq<Start>, bound: nat, next: nat)
    requires BasesRise(starts, bound)
    ensures Increasing(Streams(starts, next)) <==> StartsAccounted(starts)
  {
    StreamsHaveBases(starts, next);
    AdjacentIsIncreasing(Streams(starts, next), starts, bound);
    AdjacentExactlyWhenAccounted(starts, next);
  }

  // ----- what in fact arrived -----

  /** What arrived in the first `n` steps while each stream was the current one. */
  ghost function Arrived(trace: seq<Daemon>, steps: seq<Step>, n: nat): seq<Stream>
    requires IsTrace(trace, steps) && n <= |steps|
  {
    if n == 0 then []
    else
      var before := Arrived(trace, steps, n - 1);
      if Starts(trace[n - 1], steps[n - 1]) then before + [Stream(trace[n].globalSeq, trace[n].globalSeq)]
      else if steps[n - 1].DoIngest? then Raised(before, |before| - 1, steps[n - 1].s) else before
  }

  /** What the encoder of each stream made, whenever it arrived. */
  ghost function Made(trace: seq<Daemon>, steps: seq<Step>, n: nat): seq<Stream>
    requires IsTrace(trace, steps) && n <= |steps|
  {
    if n == 0 then []
    else
      var before := Made(trace, steps, n - 1);
      if Starts(trace[n - 1], steps[n - 1]) then before + [Stream(trace[n].globalSeq, trace[n].globalSeq)]
      else if steps[n - 1].DoIngest? then Raised(before, steps[n - 1].maker - 1, steps[n - 1].s) else before
  }

  /** Stream `i`, if there is one, reaches at least to number `s`. */
  function Raised(ss: seq<Stream>, i: int, s: nat): seq<Stream> {
    if 0 <= i < |ss| then ss[i := ss[i].(end := Max(ss[i].end, s + 1))] else ss
  }

  // ----- accounting -----

  /** Everything the ring holds is below the next start number. */
  predicate Quiet(d: Daemon) {
    d.ringNext <= d.globalSeq
  }

  /** The step first accounts for what the ring holds: the end of a file, or a skip of an own item. */
  predicate AccountsFirst(d: Daemon, step: Step) {
    step.DoExit? || (step.DoHandle? && SkipsOwn(d, step.cmd))
  }

  predicate SkipsOwn(d: Daemon, cmd: QueueCmd) {
    (cmd.CmdSkipNext? || cmd.CmdSkipPrev?) && d.q.Head().Some? && d.q.Head().value.storedBy == d.me
  }

  /**
   The step does not start a stream on top of another while the ring holds unaccounted segments,
   unless it accounts for them itself.
   */
  predicate Accounted(d: Daemon, step: Step)
    requires Enabled(d, step)
  {
    Starts(d, step) && d.runner.lastCtx != 0 ==> Quiet(d) || AccountsFirst(d, step)
  }

  /** The next start number once the ring has been accounted for, if it is. */
  function Settled(d: Daemon, accounts: bool): nat {
    if accounts then Max(d.globalSeq, d.ringNext) else d.globalSeq
  }

  /** At most one stream was started, and only at `settled`; otherwise the ring was left alone. */
  ghost predicate Moves(d: Daemon, settled: nat, d': Daemon) {
    && d.globalSeq <= d'.globalSeq
    && if d'.runner.lastCtx == d.runner.lastCtx then StartsOf(d'.log) == StartsOf(d.log) && d'.ringNext == d.ringNext
       else
         && d'.runner.lastCtx == d.runner.lastCtx + 1 && d'.ringNext == d'.globalSeq == settled
         && StartsOf(d'.log) == StartsOf(d.log) + [Start(settled, d.ringNext)]
  }

  lemma ReactMoves(d: Daemon, canStream: bool)
    ensures Moves(d, d.globalSeq, d.React(canStream))
  {
    LogGrows(d.log, Started(d.globalSeq, d.ringNext));
  }

  lemma HandleMoves(d: Daemon, cmd: QueueCmd, sender: PeerId, canQueue: bool, canStream: bool)
    ensures Moves(d, Settled(d, SkipsOwn(d, cmd)), d.Handle(cmd, sender, canQueue, canStream))
  {
    if d.Permitted(cmd, sender, canQueue) && !cmd.CmdUnknown? {
      var done := d.Execute(cmd, sender);
      ExecuteKeepsLog(d, cmd, sender);
      assert done.ringNext == d.ringNext && done.runner.lastCtx == d.runner.lastCtx;
      ReactMoves(done, canStream);
    }
  }

  /** Events that are not starts leave the starts alone. */
  lemma NoStartEvent(d: Daemon, e: Event)
    requires !e.Started?
    ensures StartsOf(d.Emit(e).log) == StartsOf(d.log)
  {
    LogGrows(d.log, e);
  }

  lemma CheckMoves(d: Daemon, s: nat, canStream: bool)
    ensures Moves(d, d.globalSeq, d.Check(s, canStream))
  {
    NoStartEvent(d.(completions := d.completions - {s}), Cleanup(s));
    if d.Ready(s) {
      var passed := d.Emit(Pass(s, d.q.Head().value.storedBy));
      NoStartEvent(d, Pass(s, d.q.Head().value.storedBy));
      HandleMoves(passed, CmdNext, d.me, true, canStream);
      var moved := passed.Handle(CmdNext, d.me, true, canStream);
      NoStartEvent(moved.(completions := moved.completions - {s}), Cleanup(s));
    }
  }

  lemma ExitMoves(d: Daemon, c: nat, outcome: Outcome, canStream: bool)
    requires c in d.runner.routines && !d.runner.routines[c].phase.Spawned?
    ensures Moves(d, Settled(d, true), d.Exit(c, outcome, canStream))
  {
    if d.WillReport(c, outcome) {
      var s := d.runner.routines[c].seqBase;
      var ended := d.Quit(c).UpdateGlobal(d.ringNext);
      LogGrows(ended.log, EncoderReport(s));
      CheckMoves(ended.HearEncoder(s), s, canStream);
    }
  }

  lemma NextMoves(d: Daemon, step: Step)
    requires Enabled(d, step) && !step.DoIngest? && !step.DoForeignReset?
    ensures Moves(d, Settled(d, AccountsFirst(d, step)), Next(d, step))
  {
    match step
    case DoHandle(cmd, sender, canQueue, canStream) => HandleMoves(d, cmd, sender, canQueue, canStream);
    case DoApplyUpdate(items, canQueue, canStream) =>
      if canQueue {
        ReactMoves(d.Replaced(items), canStream);
      }
    case DoPlayer(s, p, canStream) =>
      LogGrows(d.log, PlayerReport(s, p));
      CheckMoves(d.HearPlayer(s, p), s, canStream);
    case DoReact(canStream) => ReactMoves(d, canStream);
    case DoExit(c, outcome, canStream) => ExitMoves(d, c, outcome, canStream);
    case _ =>
  }

  // ----- over whole runs -----

  /** Starts and contexts correspond, and numbers never go back. */
  ghost predicate StartsInv(d: Daemon) {
    |StartsOf(d.log)| == d.runner.lastCtx && BasesRise(StartsOf(d.log), d.globalSeq)
  }

  lemma NextKeepsStartsInv(d: Daemon, step: Step)
    requires StartsInv(d) && Enabled(d, step)
    ensures var d' := Next(d, step);
      && StartsInv(d')
      && (StartsAccounted(StartsOf(d'.log)) <==> StartsAccounted(StartsOf(d.log)) && Accounted(d, step))
  {
    if !step.DoIngest? && !step.DoForeignReset? {
      NextMoves(d, step);
      var starts, d' := StartsOf(d.log), Next(d, step);
      if Starts(d, step) {
        AppendStart(starts, d.globalSeq, Start(d'.globalSeq, d.ringNext));
      }
    }
  }

  lemma AppendStart(starts: seq<Start>, bound: nat, x: Start)
    requires BasesRise(starts, bound) && bound <= x.base
    ensures BasesRise(starts + [x], x.base)
    ensures StartsAccounted(starts + [x]) <==> StartsAccounted(starts) && (starts != [] ==> x.nextBefore <= x.base)
  {
    AppendAccounted(starts, x);
    assert forall i :: 0 <= i < |starts| ==> (starts + [x])[i] == starts[i];
  }

  /** No step of the first `n` starts a stream on top of unaccounted segments. */
  ghost predicate AllAccounted(trace: seq<Daemon>, steps: seq<Step>, n: nat)
    requires IsTrace(trace, steps) && n <= |steps|
  {
    forall i :: 0 <= i < n ==> Accounted(trace[i], steps[i])
  }

  /** What holds at first, and after a step exactly if it held before and the step is good, holds while all are good. */
  lemma {:induction false} HoldsWhileGood(holds: seq<bool>, good: seq<bool>, n: nat)
    requires |holds| == |good| + 1 && holds[0] && n <= |good|
    requires forall i :: 0 <= i < |good| ==> (holds[i + 1] <==> holds[i] && good[i])
    ensures holds[n] <==> forall i :: 0 <= i < n ==> good[i]
  {
    if n != 0 {
      var m := n - 1;
      HoldsWhileGood(holds, good, m);
      assert holds[m + 1] <==> holds[m] && good[m];
    }
  }

  lemma {:induction false} RunKeepsStartsInv(trace: seq<Daemon>, steps: seq<Step>, n: nat)
    requires IsTrace(trace, steps) && StartsInv(trace[0]) && n <= |steps|
    ensures StartsInv(trace[n])
  {
    if n != 0 {
      RunKeepsStartsInv(trace, steps, n - 1);
      NextKeepsStartsInv(trace[n - 1], steps[n - 1]);
    }
  }

  lemma AccountedExactlyWhenAllSteps(trace: seq<Daemon>, steps: seq<Step>, n: nat)
    requires IsTrace(trace, steps) && StartsInv(trace[0]) && StartsOf(trace[0].log) == [] && n <= |steps|
    ensures StartsAccounted(StartsOf(trace[n].log)) <==> AllAccounted(trace, steps, n)
  {
    var holds := seq(|trace|, i requires 0 <= i < |trace| => StartsAccounted(StartsOf(trace[i].log)));
    var good := seq(|steps|, i requires 0 <= i < |steps| => Accounted(trace[i], steps[i]));
    forall i | 0 <= i < |good| ensures holds[i + 1] <==> holds[i] && good[i] {
      RunKeepsStartsInv(trace, steps, i);
      NextKeepsStartsInv(trace[i], steps[i]);
    }
    HoldsWhileGood(holds, good, n);
    assert forall i :: 0 <= i < n ==> (good[i] <==> Accounted(trace[i], steps[i]));
  }

  /** Without foreign resets, where the ring stands is where the current stream ends. */
  lemma {:induction false} ArrivedIsWhatTheRingHeld(trace: seq<Daemon>, steps: seq<Step>, n: nat)
    requires IsTrace(trace, steps) && StartsInv(trace[0]) && StartsOf(trace[0].log) == [] && n <= |steps|
    requires forall i :: 0 <= i < n ==> !steps[i].DoForeignReset?
    ensures Arrived(trace, steps, n) == Streams(StartsOf(trace[n].log), trace[n].ringNext)
  {
    if n != 0 {
      ArrivedIsWhatTheRingHeld(trace, steps, n - 1);
      var d, step := trace[n - 1], steps[n - 1];
      var starts := StartsOf(d.log);
      if step.DoIngest? {
        LastEndMoves(starts, d.ringNext, trace[n].ringNext);
      } else {
        NextMoves(d, step);
        if Starts(d, step) {
          var x := Start(trace[n].globalSeq, d.ringNext);
          assert (starts + [x])[..|starts|] == starts;
        }
      }
    }
  }

  lemma LastEndMoves(starts: seq<Start>, m: nat, n: nat)
    ensures var ss := Streams(starts, m);
      if starts == [] then ss == [] == Streams(starts, n)
      else ss != [] && ss[|ss| - 1].end == m && Streams(starts, n) == ss[|ss| - 1 := ss[|ss| - 1].(end := n)]
  {
  }

  /**
   In every state of every run without foreign resets: what arrived for successive streams has
   pairwise disjoint, increasing numbers exactly when no step but the end of a file or a skip of an
   own item started a stream while the ring held unaccounted segments. Nothing is asked of how
   goroutines begin and return, or of which segments arrive.
   */
  lemma StreamsNeverShareNumbersExactlyWhen(me: PeerId, trace: seq<Daemon>, steps: seq<Step>, n: nat)
    requires IsTrace(trace, steps) && trace[0] == Initial(me) && n <= |steps|
    requires forall i :: 0 <= i < n ==> !steps[i].DoForeignReset?
    ensures Increasing(Arrived(trace, steps, n)) <==> AllAccounted(trace, steps, n)
  {
    RunKeepsStartsInv(trace, steps, n);
    AccountedExactlyWhenAllSteps(trace, steps, n);
    ArrivedIsWhatTheRingHeld(trace, steps, n);
    IncreasingExactlyWhenAccounted(StartsOf(trace[n].log), trace[n].globalSeq, trace[n].ringNext);
  }

  // ----- numbers by their maker -----

  /** The segment that arrives at step `k`, if one does, stays below. */
  ghost predicate IsLow(trace: seq<Daemon>, steps: seq<Step>, k: nat)
    requires k < |steps| < |trace|
  {
    steps[k].DoIngest? ==> StaysBelow(StartsOf(trace[k].log), steps[k].maker, steps[k].s)
  }

  /** A segment of a superseded encoder that arrives late stays below the start of the next stream. */
  ghost predicate LateStaysBelow(trace: seq<Daemon>, steps: seq<Step>, n: nat)
    requires IsTrace(trace, steps) && n <= |steps|
  {
    forall k :: 0 <= k < n ==> IsLow(trace, steps, k)
  }

  /** There is no stream after the maker's, or it starts above the segment. */
  predicate StaysBelow(starts: seq<Start>, maker: nat, s: nat) {
    1 <= maker < |starts| ==> s < starts[maker].base
  }

  lemma AppendAdjacent(ss: seq<Stream>, x: Stream)
    ensures Adjacent(ss + [x]) <==> Adjacent(ss) && (ss != [] ==> ss[|ss| - 1].end <= x.base)
  {
    var all := ss + [x];
    assert forall i :: 0 <= i < |ss| ==> all[i] == ss[i];
    if Adjacent(all) && ss != [] {
      assert all[|ss| - 1].end <= all[|ss|].base;
    }
  }

  lemma RaisedAdjacent(ss: seq<Stream>, starts: seq<Start>, maker: nat, s: nat)
    requires HasBases(ss, starts)
    ensures HasBases(Raised(ss, maker - 1, s), starts)
    ensures Adjacent(Raised(ss, maker - 1, s)) <==> Adjacent(ss) && StaysBelow(starts, maker, s)
  {
    var rs := Raised(ss, maker - 1, s);
    if 1 <= maker < |ss| && Adjacent(rs) {
      assert rs[maker - 1].end <= rs[maker].base;
    }
    assert forall i :: 0 <= i < |ss| ==> ss[i].end <= rs[i].end && ss[i].base == rs[i].base;
    if Adjacent(rs) {
      forall i | 1 <= i < |ss| ensures ss[i - 1].end <= ss[i].base {
        assert rs[i - 1].end <= rs[i].base;
      }
    }
  }

  /** The encoders' streams go with the starts, and the ring stands above what the current one made. */
  ghost predicate MadeInv(ss: seq<Stream>, d: Daemon) {
    HasBases(ss, StartsOf(d.log)) && (ss != [] ==> ss[|ss| - 1].end <= d.ringNext)
  }

  lemma {:induction false} RunKeepsMadeInv(trace: seq<Daemon>, steps: seq<Step>, n: nat)
    requires IsTrace(trace, steps) && StartsInv(trace[0]) && StartsOf(trace[0].log) == [] && n <= |steps|
    requires AllAccounted(trace, steps, n) && forall i :: 0 <= i < n ==> !steps[i].DoForeignReset?
    ensures StartsInv(trace[n]) && MadeInv(Made(trace, steps, n), trace[n])
  {
    if n != 0 {
      RunKeepsMadeInv(trace, steps, n - 1);
      RunKeepsStartsInv(trace, steps, n);
      OneMoreMade(trace[n - 1], steps[n - 1], Made(trace, steps, n - 1));
    }
  }

  lemma StepKeepsAdjacentExactlyWhenLow(trace: seq<Daemon>, steps: seq<Step>, i: nat)
    requires IsTrace(trace, steps) && StartsInv(trace[0]) && StartsOf(trace[0].log) == [] && i < |steps|
    requires AllAccounted(trace, steps, i + 1) && forall k :: 0 <= k <= i ==> !steps[k].DoForeignReset?
    ensures Adjacent(Made(trace, steps, i + 1)) <==> Adjacent(Made(trace, steps, i)) && IsLow(trace, steps, i)
  {
    RunKeepsMadeInv(trace, steps, i);
    OneMoreMade(trace[i], steps[i], Made(trace, steps, i));
  }

  lemma MadeIsAdjacentExactlyWhen(trace: seq<Daemon>, steps: seq<Step>, n: nat)
    requires IsTrace(trace, steps) && StartsInv(trace[0]) && StartsOf(trace[0].log) == [] && n <= |steps|
    requires AllAccounted(trace, steps, n) && forall i :: 0 <= i < n ==> !steps[i].DoForeignReset?
    ensures Adjacent(Made(trace, steps, n)) <==> LateStaysBelow(trace, steps, n)
  {
    var holds := seq(n + 1, i requires 0 <= i <= n => Adjacent(Made(trace, steps, i)));
    var good := seq(n, i requires 0 <= i < n => IsLow(trace, steps, i));
    forall i | 0 <= i < |good| ensures holds[i + 1] <==> holds[i] && good[i] {
      StepKeepsAdjacentExactlyWhenLow(trace, steps, i);
    }
    HoldsWhileGood(holds, good, n);
    assert forall i :: 0 <= i < n ==> (good[i] <==> IsLow(trace, steps, i));
  }

  lemma OneMoreMade(d: Daemon, step: Step, ss: seq<Stream>)
    requires MadeInv(ss, d) && StartsInv(d) && Enabled(d, step) && Accounted(d, step) && !step.DoForeignReset?
    ensures var d' := Next(d, step);
      var ss' := if Starts(d, step) then ss + [Stream(d'.globalSeq, d'.globalSeq)]
                 else if step.DoIngest? then Raised(ss, step.maker - 1, step.s) else ss;
      && MadeInv(ss', d')
      && (Adjacent(ss') <==> Adjacent(ss) && (step.DoIngest? ==> StaysBelow(StartsOf(d.log), step.maker, step.s)))
  {
    if step.DoIngest? {
      RaisedAdjacent(ss, StartsOf(d.log), step.maker, step.s);
    } else {
      NextMoves(d, step);
      if Starts(d, step) {
        AppendAdjacent(ss, Stream(Next(d, step).globalSeq, Next(d, step).globalSeq));
      }
    }
  }

  /**
   In every run in which the ring was accounted for at each start, the encoders made segments with
   pairwise disjoint, increasing numbers exactly when no segment of a superseded one arrived at or
   above the start of the stream after its own.
   */
  lemma MakersNeverShareNumbersExactlyWhen(me: PeerId, trace: seq<Daemon>, steps: seq<Step>, n: nat)
    requires IsTrace(trace, steps) && trace[0] == Initial(me) && n <= |steps|
    requires AllAccounted(trace, steps, n) && forall i :: 0 <= i < n ==> !steps[i].DoForeignReset?
    ensures Increasing(Made(trace, steps, n)) <==> LateStaysBelow(trace, steps, n)
  {
    RunKeepsMadeInv(trace, steps, n);
    MadeIsAdjacentExactlyWhen(trace, steps, n);
    AdjacentIsIncreasing(Made(trace, steps, n), StartsOf(trace[n].log), trace[n].globalSeq);
  }

  // ----- starts that reuse numbers -----

  /**
   Any restart, whatever caused it, keeps the ranges apart exactly when the ring had been accounted
   for: the guard that the ring stands at or below the next start number.
   */
  lemma StartKeepsRangesApartExactlyWhenQuiet(d: Daemon)
    requires d.HeadIsMine(true) && BasesRise(StartsOf(d.log), d.globalSeq)
    requires StartsOf(d.log) != [] && Increasing(Streams(StartsOf(d.log), d.ringNext))
    ensures var d' := d.StartHead(d.globalSeq);
      Increasing(Streams(StartsOf(d'.log), d'.ringNext)) <==> Quiet(d)
  {
    var starts, x := StartsOf(d.log), Start(d.globalSeq, d.ringNext);
    LogGrows(d.log, Started(d.globalSeq, d.ringNext));
    AppendStart(starts, d.globalSeq, x);
    IncreasingExactlyWhenAccounted(starts, d.globalSeq, d.ringNext);
    IncreasingExactlyWhenAccounted(starts + [x], d.globalSeq, d.globalSeq);
  }

  /** Removing the item that plays, or an unaccounted NEXT, starts the next one on used numbers. */
  lemma RemovingThePlayingItemReusesNumbers(d: Daemon, cmd: QueueCmd)
    requires RunsHead(d) && !Quiet(d) && BasesRise(StartsOf(d.log), d.globalSeq) && d.q.InRange()
    requires StartsOf(d.log) != [] && Increasing(Streams(StartsOf(d.log), d.ringNext))
    requires cmd == CmdRemove(d.q.cursor) || cmd == CmdNext
    requires var next := d.Execute(cmd, d.me);
      next.HeadIsMine(true) && next.q.Head().value.path != "" && next.q.Head().value.path != d.q.Head().value.path
    ensures var d' := d.Handle(cmd, d.me, true, true);
      !Increasing(Streams(StartsOf(d'.log), d'.ringNext))
  {
    var next := d.Execute(cmd, d.me);
    StartKeepsRangesApartExactlyWhenQuiet(next);
    assert d.Handle(cmd, d.me, true, true) == next.StartHead(next.globalSeq);
  }

  /** The first of two files is being encoded, and its first segment has arrived. */
  function TwoFilesOneSegment(a: string, b: string): Daemon {
    Daemon(1, QueueState([Item(a, 1, 1, 0, 0, 0), Item(b, 1, 1, 0, 0, 0)], 0), map[], 0,
           Runner(1, {}, true, true, a, 0, map[1 := Routine(a, 0, Encoding)]), 1, [Started(0, 0)],
           Told([Item(a, 1, 1, 0, 0, 0), Item(b, 1, 1, 0, 0, 0)], [Item(a, 1, 1, 0, 0, 0), Item(b, 1, 1, 0, 0, 0)], Some(0)))
  }

  lemma TwoFilesOneSegmentIsReachable(a: string, b: string) returns (trace: seq<Daemon>, steps: seq<Step>)
    requires a != "" && b != ""
    ensures IsRun(trace, steps, Initial(1), TwoFilesOneSegment(a, b))
    ensures forall i :: 0 <= i < |steps| ==> !steps[i].DoForeignReset?
  {
    trace, steps := BatonPass.FirstStreamStarts(a);
    var d := BatonPass.FirstStream(QueueState([Item(a, 1, 1, 0, 0, 0)], 0), a);
    var append := DoHandle(CmdAppend(b, 0, 0), 1, true, true);
    var d' := Next(d, append);
    assert d'.q == QueueState([Item(a, 1, 1, 0, 0, 0), Item(b, 1, 1, 0, 0, 0)], 0);
    assert d' == d.(q := d'.q, told := Told(d'.q.items, d'.q.items, Some(0)));
    var more, moreSteps := [d, d', Next(d', DoIngest(0, 1))], [append, DoIngest(0, 1)];
    Follow(trace, steps, more, moreSteps, Initial(1), d, TwoFilesOneSegment(a, b));
    trace, steps := trace + more[1..], steps + moreSteps;
  }

  /** A run in which removing the playing item, or NEXT, makes two streams share number 0. */
  lemma SharedNumberIsReachable(a: string, b: string, cmd: QueueCmd) returns (trace: seq<Daemon>, steps: seq<Step>)
    requires a != "" && b != "" && a != b && (cmd == CmdRemove(0) || cmd == CmdNext)
    ensures IsTrace(trace, steps) && trace[0] == Initial(1)
    ensures forall i :: 0 <= i < |steps| ==> !steps[i].DoForeignReset?
    ensures !Increasing(Arrived(trace, steps, |steps|))
  {
    trace, steps := TwoFilesOneSegmentIsReachable(a, b);
    var d, step := TwoFilesOneSegment(a, b), DoHandle(cmd, 1, true, true);
    SecondFileStarts(a, b, cmd);
    var more, moreSteps := OneStep(d, step);
    Follow(trace, steps, more, moreSteps, Initial(1), d, Next(d, step));
    assert (trace + more[1..])[|steps|] == d;
    trace, steps := trace + more[1..], steps + moreSteps;
    StreamsNeverShareNumbersExactlyWhen(1, trace, steps, |steps|);
    assert !Accounted(trace[|steps| - 1], steps[|steps| - 1]);
  }

  lemma SecondFileStarts(a: string, b: string, cmd: QueueCmd)
    requires a != "" && b != "" && a != b && (cmd == CmdRemove(0) || cmd == CmdNext)
    ensures !Accounted(TwoFilesOneSegment(a, b), DoHandle(cmd, 1, true, true))
  {
    var d := TwoFilesOneSegment(a, b);
    var next := d.Execute(cmd, 1);
    assert next.q.Head() == Some(Item(b, 1, 1, 0, 0, 0));
    assert next.React(true).runner.lastCtx == 2;
  }

  /**
   A skip, although it accounts for the ring, can lead there too: the skipped encoder returns late
   and clears the shared mark, and the next re-evaluation restarts the successor in mid-stream.
   */
  lemma LateReturnSharesNumber(a: string, b: string) returns (trace: seq<Daemon>, steps: seq<Step>)
    requires a != "" && b != "" && a != b
    ensures IsTrace(trace, steps) && trace[0] == Initial(1)
    ensures forall i :: 0 <= i < |steps| ==> !steps[i].DoForeignReset?
    ensures !Increasing(Arrived(trace, steps, |steps|))
  {
    trace, steps := TwoFilesOneSegmentIsReachable(a, b);
    var more, moreSteps, d := SkippedEncoderReturnsLate(a, b);
    Follow(trace, steps, more, moreSteps, Initial(1), TwoFilesOneSegment(a, b), d);
    trace, steps := trace + more[1..], steps + moreSteps;
    more, moreSteps := OneStep(d, DoReact(true));
    Follow(trace, steps, more, moreSteps, Initial(1), d, Next(d, DoReact(true)));
    assert (trace + more[1..])[|steps|] == d;
    trace, steps := trace + more[1..], steps + moreSteps;
    StreamsNeverShareNumbersExactlyWhen(1, trace, steps, |steps|);
    assert !Accounted(trace[|steps| - 1], steps[|steps| - 1]);
  }

  lemma SkippedEncoderReturnsLate(a: string, b: string) returns (trace: seq<Daemon>, steps: seq<Step>, d: Daemon)
    requires a != "" && b != "" && a != b
    ensures IsRun(trace, steps, TwoFilesOneSegment(a, b), d)
    ensures forall i :: 0 <= i < |steps| ==> !steps[i].DoForeignReset?
    ensures !Accounted(d, DoReact(true))
  {
    var d0, d1, d2 := TwoFilesOneSegment(a, b), Skipped(a, b, Spawned), Skipped(a, b, Encoding);
    var skip := DoHandle(CmdSkipNext, 1, true, true);
    SkipStartsSecond(a, b);
    trace, steps := [d0, d1, d2], [skip, DoBegin(2)];
    var d3 := d2.Release(1);
    assert d2.Exit(1, Cancelled, true) == d3;
    d := Next(d3, DoIngest(1, 2));
    MarkLostInMidStream(a, b);
    var more, moreSteps := [d2, d3, d], [DoExit(1, Cancelled, true), DoIngest(1, 2)];
    Follow(trace, steps, more, moreSteps, d0, d2, d);
    trace, steps := trace + more[1..], steps + moreSteps;
  }

  /**
   Although all starts are accounted for, a segment of the skipped encoder that arrives late takes
   the number of its successor's first.
   */
  lemma LateSegmentSharesNumber(a: string, b: string) returns (trace: seq<Daemon>, steps: seq<Step>)
    requires a != "" && b != "" && a != b
    ensures IsTrace(trace, steps) && trace[0] == Initial(1)
    ensures forall i :: 0 <= i < |steps| ==> !steps[i].DoForeignReset?
    ensures AllAccounted(trace, steps, |steps|) && !Increasing(Made(trace, steps, |steps|))
    ensures DoIngest(1, 1) in steps && DoIngest(1, 2) in steps
  {
    trace, steps := TwoFilesOneSegmentIsReachable(a, b);
    var d0, d1 := TwoFilesOneSegment(a, b), Skipped(a, b, Spawned);
    SkipStartsSecond(a, b);
    var d2 := Next(d1, DoIngest(1, 1));
    var d3 := Next(d2, DoIngest(1, 2));
    var more, moreSteps := [d0, d1, d2, d3], [DoHandle(CmdSkipNext, 1, true, true), DoIngest(1, 1), DoIngest(1, 2)];
    Follow(trace, steps, more, moreSteps, Initial(1), d0, d3);
    var k := |steps| + 1;
    trace, steps := trace + more[1..], steps + moreSteps;
    assert trace[k] == d1 && steps[k] == DoIngest(1, 1) && steps[k + 1] == DoIngest(1, 2);
    assert [Started(0, 0), Started(1, 1)][..1] == [Started(0, 0)];
    assert StartsOf(d1.log) == [Start(0, 0), Start(1, 1)];
    SharedByMakers(trace, steps, k);
  }

  lemma SharedByMakers(trace: seq<Daemon>, steps: seq<Step>, k: nat)
    requires IsTrace(trace, steps) && trace[0] == Initial(1) && k < |steps|
    requires forall i :: 0 <= i < |steps| ==> !steps[i].DoForeignReset?
    requires StartsOf(trace[|steps|].log) == StartsOf(trace[k].log) == [Start(0, 0), Start(1, 1)] && steps[k] == DoIngest(1, 1)
    ensures AllAccounted(trace, steps, |steps|) && !Increasing(Made(trace, steps, |steps|))
  {
    AccountedExactlyWhenAllSteps(trace, steps, |steps|);
    assert StartsAccounted(StartsOf(trace[|steps|].log));
    assert !IsLow(trace, steps, k);
    MakersNeverShareNumbersExactlyWhen(1, trace, steps, |steps|);
  }

  /** After the skip: the second file was started at number 1, the first encoder has not returned. */
  function Skipped(a: string, b: string, phase: Phase): Daemon {
    Daemon(1, QueueState([Item(a, 1, 1, 0, 0, 0), Item(b, 1, 1, 1, 0, 0)], 1), map[], 1,
           Runner(2, {1}, true, true, if phase.Spawned? then a else b, if phase.Spawned? then 0 else 1,
                  map[1 := Routine(a, 0, Encoding), 2 := Routine(b, 1, phase)]), 1, [Started(0, 0), Started(1, 1)],
           Told([Item(a, 1, 1, 0, 0, 0), Item(b, 1, 1, 1, 0, 0)], [Item(a, 1, 1, 0, 0, 0), Item(b, 1, 1, 1, 0, 0)], Some(1)))
  }

  lemma SkipStartsSecond(a: string, b: string)
    requires a != "" && b != "" && a != b
    ensures TwoFilesOneSegment(a, b).Handle(CmdSkipNext, 1, true, true) == Skipped(a, b, Spawned)
    ensures Skipped(a, b, Spawned).Begin(2) == Skipped(a, b, Encoding)
  {
    var d := TwoFilesOneSegment(a, b);
    var done := d.Execute(CmdSkipNext, 1);
    assert done == d.(q := d.q.(cursor := 1), globalSeq := 1, runner := d.runner.(cancelled := {1}));
    assert done.q.Head() == Some(Item(b, 1, 1, 0, 0, 0));
    var started := done.StartHead(1);
    assert started.q == Skipped(a, b, Spawned).q;
    assert started.runner == Skipped(a, b, Spawned).runner;
    assert started.log == Skipped(a, b, Spawned).log;
    assert Skipped(a, b, Spawned).Begin(2).runner == Skipped(a, b, Encoding).runner;
  }

  lemma MarkLostInMidStream(a: string, b: string)
    requires b != ""
    ensures !Accounted(Next(Skipped(a, b, Encoding).Release(1), DoIngest(1, 2)), DoReact(true))
  {
    var d := Next(Skipped(a, b, Encoding).Release(1), DoIngest(1, 2));
    assert d.ringNext == 2 && d.globalSeq == 1 && !d.runner.isRunning && d.HeadIsMine(true);
    assert d.React(true).runner.lastCtx == 3;
  }
}
