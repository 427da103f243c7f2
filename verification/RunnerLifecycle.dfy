/** Which encoder goroutine may still act, and when re-evaluating the runner changes nothing. */
module RunnerLifecycle {
  import opened Wrappers
  import opened Queues
  import opened RoleManagers
  import opened DaemonSpec
  import opened EventLog
  import BatonPass

  /** A context that was made and not cancelled. */
  predicate IsLive(r: Runner, c: nat) {
    1 <= c <= r.lastCtx && c !in r.cancelled
  }

  ghost predicate RunnerInv(r: Runner) {
    && (forall c :: c in r.routines ==> 1 <= c <= r.lastCtx)
    && (forall c :: c in r.cancelled ==> 1 <= c <= r.lastCtx)
    && (forall c :: 1 <= c < r.lastCtx ==> c in r.cancelled)
  }

  /** What any step may do to the runner: contexts only grow in number, cancellation is final. */
  ghost predicate RunnerMovesOn(r: Runner, r': Runner) {
    r.lastCtx <= r'.lastCtx && r.cancelled <= r'.cancelled
  }

  lemma ReactRunner(d: Daemon, canStream: bool)
    requires RunnerInv(d.runner)
    ensures RunnerInv(d.React(canStream).runner) && RunnerMovesOn(d.runner, d.React(canStream).runner)
  {
  }

  lemma HandleRunner(d: Daemon, cmd: QueueCmd, sender: PeerId, canQueue: bool, canStream: bool)
    requires RunnerInv(d.runner)
    ensures var d' := d.Handle(cmd, sender, canQueue, canStream);
      RunnerInv(d'.runner) && RunnerMovesOn(d.runner, d'.runner)
  {
    if !cmd.CmdUnknown? {
      ExecuteRunner(d, cmd, sender);
      ReactRunner(d.Execute(cmd, sender), canStream);
    }
  }

  /** A command at most stops the current encoder. */
  lemma ExecuteAtMostStops(d: Daemon, cmd: QueueCmd, sender: PeerId)
    requires !cmd.CmdUnknown?
    ensures d.Execute(cmd, sender).runner == d.runner || d.Execute(cmd, sender).runner == d.Stop().runner
  {
    match cmd
    case CmdSkipPrev => assert d.StopForSkip().runner == d.Stop().runner;
    case CmdSkipNext => assert d.StopForSkip().runner == d.Stop().runner;
    case _ =>
  }

  lemma ExecuteRunner(d: Daemon, cmd: QueueCmd, sender: PeerId)
    requires RunnerInv(d.runner) && !cmd.CmdUnknown?
    ensures RunnerInv(d.Execute(cmd, sender).runner) && RunnerMovesOn(d.runner, d.Execute(cmd, sender).runner)
  {
    var r := d.Execute(cmd, sender).runner;
    ExecuteAtMostStops(d, cmd, sender);
    assert r.routines == d.runner.routines && r.lastCtx == d.runner.lastCtx;
  }

  lemma ExecuteKeepsRoutines(d: Daemon, cmd: QueueCmd, sender: PeerId)
    requires !cmd.CmdUnknown?
    ensures var r := d.Execute(cmd, sender).runner;
      r == d.runner.(cancelled := r.cancelled, encoderLive := r.encoderLive)
  {
    ExecuteAtMostStops(d, cmd, sender);
  }

  lemma CheckRunner(d: Daemon, s: nat, canStream: bool)
    requires RunnerInv(d.runner)
    ensures RunnerInv(d.Check(s, canStream).runner) && RunnerMovesOn(d.runner, d.Check(s, canStream).runner)
  {
    if d.Ready(s) {
      HandleRunner(d.Emit(Pass(s, d.q.Head().value.storedBy)), CmdNext, d.me, true, canStream);
    }
  }

  lemma ExitRunner(d: Daemon, c: nat, outcome: Outcome, canStream: bool)
    requires RunnerInv(d.runner) && c in d.runner.routines && !d.runner.routines[c].phase.Spawned?
    ensures var d' := d.Exit(c, outcome, canStream);
      RunnerInv(d'.runner) && RunnerMovesOn(d.runner, d'.runner)
  {
    CheckRunner(d.Quit(c).UpdateGlobal(d.ringNext).HearEncoder(d.runner.routines[c].seqBase), d.runner.routines[c].seqBase, canStream);
  }

  lemma NextRunner(d: Daemon, step: Step)
    requires RunnerInv(d.runner) && Enabled(d, step)
    ensures RunnerInv(Next(d, step).runner) && RunnerMovesOn(d.runner, Next(d, step).runner)
  {
    match step
    case DoHandle(cmd, sender, canQueue, canStream) => HandleRunner(d, cmd, sender, canQueue, canStream);
    case DoApplyUpdate(items, canQueue, canStream) => ReactRunner(d.Replaced(items), canStream);
    case DoPlayer(s, p, canStream) => CheckRunner(d.HearPlayer(s, p), s, canStream);
    case DoReact(canStream) => ReactRunner(d, canStream);
    case DoExit(c, outcome, canStream) => ExitRunner(d, c, outcome, canStream);
    case _ =>
  }

  lemma TraceStepRunner(trace: seq<Daemon>, steps: seq<Step>, i: nat)
    requires IsTrace(trace, steps) && i < |steps| && RunnerInv(trace[i].runner)
    ensures RunnerInv(trace[i + 1].runner) && RunnerMovesOn(trace[i].runner, trace[i + 1].runner)
  {
    NextRunner(trace[i], steps[i]);
  }

  /** Every step of the trace keeps the invariant and moves on. */
  ghost predicate MovesStepwise(trace: seq<Daemon>) {
    forall i :: 0 <= i < |trace| - 1 && RunnerInv(trace[i].runner)
      ==> RunnerInv(trace[i + 1].runner) && RunnerMovesOn(trace[i].runner, trace[i + 1].runner)
  }

  lemma TraceMovesStepwise(trace: seq<Daemon>, steps: seq<Step>)
    requires IsTrace(trace, steps)
    ensures MovesStepwise(trace)
  {
    forall i | 0 <= i < |trace| - 1 && RunnerInv(trace[i].runner)
      ensures RunnerInv(trace[i + 1].runner) && RunnerMovesOn(trace[i].runner, trace[i + 1].runner)
    {
      TraceStepRunner(trace, steps, i);
    }
  }

  lemma {:induction false} RunnerMovesOnAlong(trace: seq<Daemon>, m: nat, n: nat)
    requires MovesStepwise(trace) && m <= n < |trace| && RunnerInv(trace[m].runner)
    ensures RunnerInv(trace[n].runner) && RunnerMovesOn(trace[m].runner, trace[n].runner)
    decreases n
  {
    if m < n {
      RunnerMovesOnAlong(trace, m, n - 1);
      MovesOnTransitively(trace[m].runner, trace[n - 1].runner, trace[n].runner);
    }
  }

  /** In every state of every run at most one context is live, and it is the node's current one. */
  lemma AtMostOneLive(me: PeerId, trace: seq<Daemon>, steps: seq<Step>, n: nat)
    requires IsTrace(trace, steps) && trace[0] == Initial(me) && n <= |steps|
    ensures RunnerInv(trace[n].runner)
    ensures forall c :: IsLive(trace[n].runner, c) ==> c == trace[n].runner.lastCtx
  {
    TraceMovesStepwise(trace, steps);
    RunnerMovesOnAlong(trace, 0, n);
  }

  lemma MovesOnTransitively(a: Runner, b: Runner, c: Runner)
    requires RunnerMovesOn(a, b) && RunnerMovesOn(b, c)
    ensures RunnerMovesOn(a, c)
  {
  }

  /** Once superseded, a goroutine's context stays superseded and cancelled for the rest of the run. */
  lemma SupersededForever(trace: seq<Daemon>, steps: seq<Step>, m: nat, n: nat, c: nat)
    requires IsTrace(trace, steps) && m <= n <= |steps| && RunnerInv(trace[m].runner)
    requires 1 <= c < trace[m].runner.lastCtx
    ensures c < trace[n].runner.lastCtx && c in trace[n].runner.cancelled
  {
    TraceMovesStepwise(trace, steps);
    RunnerMovesOnAlong(trace, m, n);
    StaysSuperseded(trace[m].runner, trace[n].runner, c);
  }

  lemma StaysSuperseded(r: Runner, r': Runner, c: nat)
    requires RunnerInv(r') && RunnerMovesOn(r, r') && 1 <= c < r.lastCtx
    ensures c < r'.lastCtx && c in r'.cancelled
  {
  }

  /**
   A goroutine superseded at some point of a run changes nothing when it returns at any later point:
   it is gone, and at most the shared running mark is cleared.
   */
  lemma SupersededExitIsSilent(me: PeerId, trace: seq<Daemon>, steps: seq<Step>, m: nat, n: nat,
                               c: nat, outcome: Outcome, canStream: bool)
    requires IsTrace(trace, steps) && trace[0] == Initial(me) && m <= n < |steps|
    requires 1 <= c < trace[m].runner.lastCtx && steps[n] == DoExit(c, outcome, canStream)
    ensures var r := trace[n].runner;
      && trace[n + 1] == trace[n].(runner := r.(isRunning := trace[n + 1].runner.isRunning, routines := r.routines - {c}))
      && (trace[n + 1].runner.isRunning ==> r.isRunning)
  {
    AtMostOneLive(me, trace, steps, m);
    SupersededForever(trace, steps, m, n, c);
    assert trace[n + 1] == Next(trace[n], steps[n]);
  }

  /** Only the current goroutine, uncancelled and at end of file, reports; all others stay silent. */
  lemma ExitReportsExactlyWhen(d: Daemon, c: nat, outcome: Outcome, canStream: bool)
    requires c in d.runner.routines && !d.runner.routines[c].phase.Spawned?
    ensures d.Exit(c, outcome, canStream).log != d.log
       <==> c == d.runner.lastCtx && c !in d.runner.cancelled && outcome == Eof
  {
    if d.WillReport(c, outcome) {
      var s := d.runner.routines[c].seqBase;
      CheckOnlyAddsEvents(d.Quit(c).UpdateGlobal(d.ringNext).HearEncoder(s), s, canStream);
    }
  }

  lemma CheckOnlyAddsEvents(d: Daemon, s: nat, canStream: bool)
    ensures |d.log| <= |d.Check(s, canStream).log|
  {
  }

  // ----- no more reports than starts -----

  /** The current goroutine of a stream is still to return. */
  function StillOut(r: Runner, s: nat): nat {
    if r.lastCtx in r.routines && r.routines[r.lastCtx].seqBase == s then 1 else 0
  }

  ghost predicate ReportsAccounted(d: Daemon) {
    forall s :: EncoderReports(d.log, s) + StillOut(d.runner, s) <= StartsAt(StartsOf(d.log), s)
  }

  /** A start pays for the one report its goroutine may make. */
  lemma StartKeepsAccounts(d: Daemon, d': Daemon)
    requires ReportsAccounted(d) && d'.log == d.log + [Started(d.globalSeq, d.ringNext)]
    requires forall s :: StillOut(d'.runner, s) <= if s == d.globalSeq then 1 else 0
    ensures ReportsAccounted(d')
  {
    LogGrows(d.log, Started(d.globalSeq, d.ringNext));
    var starts, start := StartsOf(d.log), Start(d.globalSeq, d.ringNext);
    assert (starts + [start])[..|starts|] == starts;
    forall s ensures EncoderReports(d'.log, s) + StillOut(d'.runner, s) <= StartsAt(StartsOf(d'.log), s) {
      assert EncoderReports(d.log, s) + StillOut(d.runner, s) <= StartsAt(StartsOf(d.log), s);
    }
  }

  lemma ReactKeepsAccounts(d: Daemon, canStream: bool)
    requires ReportsAccounted(d)
    ensures ReportsAccounted(d.React(canStream))
  {
    var d' := d.React(canStream);
    ReactLog(d, canStream);
    if d'.log == d.log {
      assert d'.runner.lastCtx == d.runner.lastCtx && d'.runner.routines == d.runner.routines by {
        LogGrows(d.log, Started(d.globalSeq, d.ringNext));
      }
      FewerOutKeepsAccounts(d, d');
    } else {
      assert d' == d.StartHead(d.globalSeq);
      StartKeepsAccounts(d, d');
    }
  }

  /** An event other than a report of an encoder or a start changes no account. */
  lemma OtherEventsKeepAccounts(d: Daemon, e: Event, d': Daemon)
    requires ReportsAccounted(d) && !e.EncoderReport? && !e.Started?
    requires d'.log == d.log + [e] && d'.runner == d.runner
    ensures ReportsAccounted(d')
  {
    LogGrows(d.log, e);
    forall s ensures EncoderReports(d'.log, s) + StillOut(d'.runner, s) <= StartsAt(StartsOf(d'.log), s) {
      assert EncoderReports(d.log, s) + StillOut(d.runner, s) <= StartsAt(StartsOf(d.log), s);
    }
  }

  lemma FewerOutKeepsAccounts(d: Daemon, d': Daemon)
    requires ReportsAccounted(d) && d'.log == d.log && forall s :: StillOut(d'.runner, s) <= StillOut(d.runner, s)
    ensures ReportsAccounted(d')
  {
    forall s ensures EncoderReports(d'.log, s) + StillOut(d'.runner, s) <= StartsAt(StartsOf(d'.log), s) {
      assert EncoderReports(d.log, s) + StillOut(d.runner, s) <= StartsAt(StartsOf(d.log), s);
    }
  }

  lemma ExecuteKeepsAccounts(d: Daemon, cmd: QueueCmd, sender: PeerId)
    requires ReportsAccounted(d) && !cmd.CmdUnknown?
    ensures ReportsAccounted(d.Execute(cmd, sender))
  {
    ExecuteKeepsLog(d, cmd, sender);
    ExecuteKeepsRoutines(d, cmd, sender);
    FewerOutKeepsAccounts(d, d.Execute(cmd, sender));
  }

  lemma HandleKeepsAccounts(d: Daemon, cmd: QueueCmd, sender: PeerId, canQueue: bool, canStream: bool)
    requires ReportsAccounted(d)
    ensures ReportsAccounted(d.Handle(cmd, sender, canQueue, canStream))
  {
    if !cmd.CmdUnknown? {
      ExecuteKeepsAccounts(d, cmd, sender);
      ReactKeepsAccounts(d.Execute(cmd, sender), canStream);
    }
  }

  lemma CheckKeepsAccounts(d: Daemon, s: nat, canStream: bool)
    requires ReportsAccounted(d)
    ensures ReportsAccounted(d.Check(s, canStream))
  {
    OtherEventsKeepAccounts(d, Cleanup(s), d.Forget(s));
    if d.Ready(s) {
      var e := Pass(s, d.q.Head().value.storedBy);
      OtherEventsKeepAccounts(d, e, d.Emit(e));
      HandleKeepsAccounts(d.Emit(e), CmdNext, d.me, true, canStream);
      var moved := d.Emit(e).Handle(CmdNext, d.me, true, canStream);
      OtherEventsKeepAccounts(moved, Cleanup(s), moved.Forget(s));
    }
  }

  /** The report of the current goroutine takes its place in the account. */
  lemma ExitKeepsAccounts(d: Daemon, c: nat, outcome: Outcome, canStream: bool)
    requires ReportsAccounted(d) && c in d.runner.routines && !d.runner.routines[c].phase.Spawned?
    ensures ReportsAccounted(d.Exit(c, outcome, canStream))
  {
    if d.WillReport(c, outcome) {
      var t := d.runner.routines[c].seqBase;
      var told := d.Quit(c).UpdateGlobal(d.ringNext).HearEncoder(t);
      LogGrows(d.log, EncoderReport(t));
      forall s ensures EncoderReports(told.log, s) + StillOut(told.runner, s) <= StartsAt(StartsOf(told.log), s) {
        assert EncoderReports(d.log, s) + StillOut(d.runner, s) <= StartsAt(StartsOf(d.log), s);
      }
      CheckKeepsAccounts(told, t, canStream);
    } else {
      FewerOutKeepsAccounts(d, d.Exit(c, outcome, canStream));
    }
  }

  lemma NextKeepsAccounts(d: Daemon, step: Step)
    requires ReportsAccounted(d) && Enabled(d, step)
    ensures ReportsAccounted(Next(d, step))
  {
    match step
    case DoHandle(cmd, sender, canQueue, canStream) => HandleKeepsAccounts(d, cmd, sender, canQueue, canStream);
    case DoApplyUpdate(items, canQueue, canStream) =>
      var replaced := d.Replaced(items);
      FewerOutKeepsAccounts(d, replaced);
      ReactKeepsAccounts(replaced, canStream);
    case DoPlayer(s, p, canStream) =>
      OtherEventsKeepAccounts(d, PlayerReport(s, p), d.HearPlayer(s, p));
      CheckKeepsAccounts(d.HearPlayer(s, p), s, canStream);
    case DoReact(canStream) => ReactKeepsAccounts(d, canStream);
    case DoExit(c, outcome, canStream) => ExitKeepsAccounts(d, c, outcome, canStream);
    case _ => FewerOutKeepsAccounts(d, Next(d, step));
  }

  lemma {:induction false} RunKeepsAccounts(trace: seq<Daemon>, steps: seq<Step>, n: nat)
    requires IsTrace(trace, steps) && ReportsAccounted(trace[0]) && n <= |steps|
    ensures ReportsAccounted(trace[n])
  {
    if n != 0 {
      RunKeepsAccounts(trace, steps, n - 1);
      NextKeepsAccounts(trace[n - 1], steps[n - 1]);
    }
  }

  /**
   In every state of every run a stream was passed on at most as often as its end was reported, and
   that at most as often as it was started: a start reports at most once, and one that superseded
   another does not inherit its report.
   */
  lemma PassesReportsStarts(me: PeerId, trace: seq<Daemon>, steps: seq<Step>, n: nat, s: nat)
    requires IsTrace(trace, steps) && trace[0] == Initial(me) && n <= |steps|
    ensures StreamPasses(trace[n].log, s) <= EncoderReports(trace[n].log, s) <= StartsAt(StartsOf(trace[n].log), s)
  {
    BatonPass.EveryPassIsBackedAndConsumes(me, trace, steps, n, s, me);
    RunKeepsAccounts(trace, steps, n);
  }

  // ----- re-evaluating the runner -----

  /** The shared runner is marked as running the head from the next sequence number. */
  predicate RunsHead(d: Daemon) {
    d.q.Head().Some? && d.runner.Marked(d.q.Head().value.path, d.globalSeq)
  }

  /** Re-evaluation changes nothing exactly when the runner already is what it should be. */
  lemma ReactChangesNothingExactlyWhen(d: Daemon, canStream: bool)
    ensures d.React(canStream) == d <==>
            if d.HeadIsMine(canStream) && d.q.Head().value.path != "" then RunsHead(d)
            else !d.runner.encoderLive && (d.runner.isRunning && d.runner.lastCtx != 0 ==> d.runner.lastCtx in d.runner.cancelled)
  {
    if d.HeadIsMine(canStream) && d.q.Head().value.path != "" && !RunsHead(d) {
      assert d.React(canStream).runner.lastCtx == d.runner.lastCtx + 1;
    }
  }

  /**
   The mark is set only when the new goroutine enters Start: until then every further re-evaluation
   cancels the start before it and starts again.
   */
  lemma ReactRestartsUntilBegun(d: Daemon, canStream: bool)
    requires d.HeadIsMine(canStream) && d.q.Head().value.path != "" && !RunsHead(d)
    ensures var once := d.React(canStream); var twice := once.React(canStream);
      && once.runner.lastCtx == d.runner.lastCtx + 1
      && twice.runner.lastCtx == d.runner.lastCtx + 2 && once.runner.lastCtx in twice.runner.cancelled
  {
    assert !RunsHead(d.React(canStream));
  }

  /**
   The mark is shared: a superseded encoder that returns after its successor entered Start clears
   it, and the next re-evaluation cancels and restarts a stream that is being encoded.
   */
  lemma SupersededExitHidesLiveEncoder(d: Daemon, c: nat, outcome: Outcome)
    requires RunsHead(d) && d.HeadIsMine(true) && d.q.Head().value.path != ""
    requires d.runner.lastCtx in d.runner.routines && d.runner.routines[d.runner.lastCtx].phase.Encoding? && IsLive(d.runner, d.runner.lastCtx)
    requires c in d.runner.routines && d.runner.routines[c].phase.Encoding? && c != d.runner.lastCtx
    ensures var after := d.Exit(c, outcome, true);
      && after.runner.routines[d.runner.lastCtx].phase.Encoding? && IsLive(after.runner, d.runner.lastCtx)
      && after.React(true).runner.lastCtx == d.runner.lastCtx + 1
      && d.runner.lastCtx in after.React(true).runner.cancelled
  {
  }

  lemma FirstAppendStarts(a: string)
    requires a != ""
    ensures var d := Next(Initial(1), DoHandle(CmdAppend(a, 0, 0), 1, true, true));
      && d.q == QueueState([Item(a, 1, 1, 0, 0, 0)], 0) && d.me == 1 && d.globalSeq == 0 && d.ringNext == 0
      && d.completions == map[]
      && d.runner == Runner(1, {}, true, false, "", 0, map[1 := Routine(a, 0, Spawned)])
  {
  }

  /** Such a state is reached by two files and one skip. */
  lemma HiddenEncoderIsReachable(a: string, b: string) returns (trace: seq<Daemon>, steps: seq<Step>)
    requires a != "" && b != "" && a != b
    ensures IsTrace(trace, steps) && trace[0] == Initial(1)
    ensures var d := trace[|steps|];
      && RunsHead(d) && d.HeadIsMine(true) && d.runner.lastCtx == 2 && IsLive(d.runner, 2)
      && 1 in d.runner.routines && d.runner.routines[1].phase.Encoding?
      && 2 in d.runner.routines && d.runner.routines[2].phase.Encoding?
  {
    var one := BatonPass.FirstStream(QueueState([Item(a, 1, 1, 0, 0, 0)], 0), a);
    var two := BatonPass.FirstStream(QueueState([Item(a, 1, 1, 0, 0, 0), Item(b, 1, 1, 0, 0, 0)], 0), a);
    trace, steps := BatonPass.FirstStreamStarts(a);
    var more, moreSteps := OneStep(one, DoHandle(CmdAppend(b, 0, 0), 1, true, true));
    OwnItemAppended(a, b);
    Follow(trace, steps, more, moreSteps, Initial(1), one, two);
    trace, steps := trace + more[1..], steps + moreSteps;
    var d: Daemon;
    more, moreSteps, d := SkipHidesEncoder(a, b);
    Follow(trace, steps, more, moreSteps, Initial(1), two, d);
    trace, steps := trace + more[1..], steps + moreSteps;
  }

  lemma OwnItemAppended(a: string, b: string)
    requires a != "" && b != ""
    ensures BatonPass.FirstStream(QueueState([Item(a, 1, 1, 0, 0, 0)], 0), a).Handle(CmdAppend(b, 0, 0), 1, true, true)
         == BatonPass.FirstStream(QueueState([Item(a, 1, 1, 0, 0, 0), Item(b, 1, 1, 0, 0, 0)], 0), a)
  {
  }

  lemma SkipHidesEncoder(a: string, b: string) returns (trace: seq<Daemon>, steps: seq<Step>, d: Daemon)
    requires a != "" && b != "" && a != b
    ensures IsRun(trace, steps, BatonPass.FirstStream(QueueState([Item(a, 1, 1, 0, 0, 0), Item(b, 1, 1, 0, 0, 0)], 0), a), d)
    ensures RunsHead(d) && d.HeadIsMine(true) && d.runner.lastCtx == 2 && IsLive(d.runner, 2)
    ensures 1 in d.runner.routines && d.runner.routines[1].phase.Encoding?
    ensures 2 in d.runner.routines && d.runner.routines[2].phase.Encoding?
  {
    var d0 := BatonPass.FirstStream(QueueState([Item(a, 1, 1, 0, 0, 0), Item(b, 1, 1, 0, 0, 0)], 0), a);
    var d1 := d0.Handle(CmdSkipNext, 1, true, true);
    assert d1.q.cursor == 1 && d1.q.Head().value.path == b && d1.globalSeq == 0;
    assert d1.runner == Runner(2, {1}, true, true, a, 0, map[1 := Routine(a, 0, Encoding), 2 := Routine(b, 0, Spawned)]);
    d := d1.Begin(2);
    trace, steps := [d0, d1, d], [DoHandle(CmdSkipNext, 1, true, true), DoBegin(2)];
  }
}
