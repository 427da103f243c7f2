/** Goroutines that Start turns away as duplicates, and the ends of file they report. */
module FalseReports {
  import opened Wrappers
  import opened Queues
  import opened RoleManagers
  import opened DaemonSpec
  import opened EventLog
  import opened RunnerLifecycle

  // ----- what a step does to the goroutines -----

  /** The runner after the goroutine that moves in this step, if any, has done its own part. */
  function AfterRoutine(d: Daemon, step: Step): Runner
    requires Enabled(d, step)
  {
    match step
    case DoBegin(c) => d.Begin(c).runner
    case DoExit(c, _, _) => d.Release(c).runner
    case _ => d.runner
  }

  /** The rest of a step leaves the mark alone, and makes at most one new goroutine, for a task not marked. */
  ghost predicate AtMostOneNew(r: Runner, r': Runner) {
    && r'.isRunning == r.isRunning && r'.path == r.path && r'.seqBase == r.seqBase
    && if r'.lastCtx == r.lastCtx then r'.routines == r.routines
       else
         && r'.lastCtx == r.lastCtx + 1 && r'.lastCtx in r'.routines && r'.lastCtx !in r'.cancelled
         && r'.routines == r.routines[r'.lastCtx := r'.routines[r'.lastCtx]]
         && r'.routines[r'.lastCtx].phase.Spawned?
         && !r.Marked(r'.routines[r'.lastCtx].path, r'.routines[r'.lastCtx].seqBase)
  }

  lemma ReactMakesOne(d: Daemon, canStream: bool)
    requires RunnerInv(d.runner)
    ensures AtMostOneNew(d.runner, d.React(canStream).runner)
  {
  }

  lemma HandleMakesOne(d: Daemon, cmd: QueueCmd, sender: PeerId, canQueue: bool, canStream: bool)
    requires RunnerInv(d.runner)
    ensures AtMostOneNew(d.runner, d.Handle(cmd, sender, canQueue, canStream).runner)
  {
    if !cmd.CmdUnknown? {
      ExecuteRunner(d, cmd, sender);
      ExecuteKeepsRoutines(d, cmd, sender);
      ReactMakesOne(d.Execute(cmd, sender), canStream);
      SameRoutines(d.runner, d.Execute(cmd, sender).runner, d.Execute(cmd, sender).React(canStream).runner);
    }
  }

  lemma SameRoutines(r: Runner, s: Runner, r': Runner)
    requires s == r.(cancelled := s.cancelled, encoderLive := s.encoderLive) && AtMostOneNew(s, r')
    ensures AtMostOneNew(r, r')
  {
  }

  lemma CheckMakesOne(d: Daemon, s: nat, canStream: bool)
    requires RunnerInv(d.runner)
    ensures AtMostOneNew(d.runner, d.Check(s, canStream).runner)
  {
    if d.Ready(s) {
      HandleMakesOne(d.Emit(Pass(s, d.q.Head().value.storedBy)), CmdNext, d.me, true, canStream);
    }
  }

  lemma NextMakesOne(d: Daemon, step: Step)
    requires RunnerInv(d.runner) && Enabled(d, step)
    ensures AtMostOneNew(AfterRoutine(d, step), Next(d, step).runner)
  {
    match step
    case DoHandle(cmd, sender, canQueue, canStream) => HandleMakesOne(d, cmd, sender, canQueue, canStream);
    case DoApplyUpdate(items, canQueue, canStream) => ReactMakesOne(d.Replaced(items), canStream);
    case DoPlayer(s, p, canStream) => CheckMakesOne(d.HearPlayer(s, p), s, canStream);
    case DoReact(canStream) => ReactMakesOne(d, canStream);
    case DoExit(c, outcome, canStream) =>
      if d.WillReport(c, outcome) {
        var s := d.runner.routines[c].seqBase;
        CheckMakesOne(d.Quit(c).UpdateGlobal(d.ringNext).HearEncoder(s), s, canStream);
      }
    case _ =>
  }

  // ----- who is turned away -----

  /** What one step does to the goroutine of context `c`. */
  ghost predicate RoutineMoves(r: Runner, r': Runner, step: Step, c: nat) {
    && r.lastCtx <= r'.lastCtx
    && (c in r.routines ==> c <= r.lastCtx)
    && (step == DoBegin(c) ==> c in r.routines && r.routines[c].phase.Spawned?)
    && (c in r'.routines ==>
          if c !in r.routines then r.lastCtx < c && r'.routines[c].phase.Spawned?
          else if step != DoBegin(c) then r'.routines[c] == r.routines[c]
          else r'.routines[c] == r.routines[c].(phase := if FindsMark(r, c) then TurnedAway else Encoding))
  }

  /** The shared mark is set for the task of goroutine `c`. */
  predicate FindsMark(r: Runner, c: nat) {
    c in r.routines && r.Marked(r.routines[c].path, r.routines[c].seqBase)
  }

  lemma StepMovesRoutine(d: Daemon, step: Step, c: nat)
    requires RunnerInv(d.runner) && Enabled(d, step)
    ensures RoutineMoves(d.runner, Next(d, step).runner, step, c)
  {
    NextMakesOne(d, step);
    assert c in AfterRoutine(d, step).routines ==> c in d.runner.routines;
  }

  function Runners(trace: seq<Daemon>): seq<Runner> {
    seq(|trace|, i requires 0 <= i < |trace| => trace[i].runner)
  }

  ghost predicate RoutineHistory(rs: seq<Runner>, steps: seq<Step>, c: nat) {
    && |rs| == |steps| + 1 && rs[0].routines == map[]
    && forall i :: 0 <= i < |steps| ==> RoutineMoves(rs[i], rs[i + 1], steps[i], c)
  }

  lemma TraceGivesHistory(me: PeerId, trace: seq<Daemon>, steps: seq<Step>, c: nat)
    requires IsTrace(trace, steps) && trace[0] == Initial(me)
    ensures RoutineHistory(Runners(trace), steps, c)
  {
    forall i | 0 <= i < |steps| ensures RoutineMoves(Runners(trace)[i], Runners(trace)[i + 1], steps[i], c) {
      AtMostOneLive(me, trace, steps, i);
      StepMovesRoutine(trace[i], steps[i], c);
    }
  }

  /** Context `c` entered Start when the shared mark was set for its task. */
  ghost predicate FoundMark(rs: seq<Runner>, steps: seq<Step>, n: nat, c: nat)
    requires n <= |steps| < |rs|
  {
    exists j :: 0 <= j < n && steps[j] == DoBegin(c) && FindsMark(rs[j], c)
  }

  predicate Encodes(r: Runner, c: nat) {
    c in r.routines && r.routines[c].phase.Encoding?
  }

  ghost predicate EverEncoded(rs: seq<Runner>, n: nat, c: nat)
    requires n < |rs|
  {
    exists j :: 0 <= j <= n && Encodes(rs[j], c)
  }

  /** The phase of a goroutine tells its history. */
  lemma {:induction false} PhaseTellsHistory(rs: seq<Runner>, steps: seq<Step>, n: nat, c: nat)
    requires RoutineHistory(rs, steps, c) && n <= |steps| && c in rs[n].routines
    ensures rs[n].routines[c].phase.TurnedAway? <==> FoundMark(rs, steps, n, c)
    ensures rs[n].routines[c].phase.Encoding? <==> EverEncoded(rs, n, c)
    ensures rs[n].routines[c].phase.Spawned? ==> forall j :: 0 <= j < n ==> steps[j] != DoBegin(c)
  {
    if n != 0 {
      assert RoutineMoves(rs[n - 1], rs[n], steps[n - 1], c);
      if c in rs[n - 1].routines {
        PhaseTellsHistory(rs, steps, n - 1, c);
        assert FoundMark(rs, steps, n, c) <==> (FoundMark(rs, steps, n - 1, c) || (steps[n - 1] == DoBegin(c) && FindsMark(rs[n - 1], c)));
        assert EverEncoded(rs, n, c) <==> (EverEncoded(rs, n - 1, c) || Encodes(rs[n], c));
      } else {
        forall j | 0 <= j < n ensures c !in rs[j].routines && steps[j] != DoBegin(c) {
          assert RoutineMoves(rs[j], rs[j + 1], steps[j], c);
          ContextsOnlyGrow(rs, steps, c, j, n - 1);
        }
      }
    }
  }

  lemma {:induction false} ContextsOnlyGrow(rs: seq<Runner>, steps: seq<Step>, c: nat, m: nat, n: nat)
    requires RoutineHistory(rs, steps, c) && m <= n <= |steps|
    ensures rs[m].lastCtx <= rs[n].lastCtx
    decreases n
  {
    if m < n {
      ContextsOnlyGrow(rs, steps, c, m, n - 1);
      assert RoutineMoves(rs[n - 1], rs[n], steps[n - 1], c);
    }
  }

  /** The end of file is reported by a goroutine that Start turned away. */
  predicate FalseReport(d: Daemon, step: Step)
    requires Enabled(d, step)
  {
    step.DoExit? && d.WillReport(step.ctx, step.outcome) && d.runner.routines[step.ctx].phase.TurnedAway?
  }

  /**
   In every run a goroutine that reports the end of its stream has never encoded anything exactly
   when, on entering Start, it found the shared mark set for its own task.
   */
  lemma ReportIsFalseExactlyWhenMarkWasSet(me: PeerId, trace: seq<Daemon>, steps: seq<Step>, n: nat)
    requires IsTrace(trace, steps) && trace[0] == Initial(me) && n < |steps|
    requires steps[n].DoExit? && trace[n].WillReport(steps[n].ctx, steps[n].outcome)
    ensures FalseReport(trace[n], steps[n]) <==> !EverEncoded(Runners(trace), n, steps[n].ctx)
    ensures FalseReport(trace[n], steps[n]) <==> FoundMark(Runners(trace), steps, n, steps[n].ctx)
  {
    TraceGivesHistory(me, trace, steps, steps[n].ctx);
    PhaseTellsHistory(Runners(trace), steps, n, steps[n].ctx);
  }

  // ----- what the mark tells -----

  /** A goroutine of this task enters Start and sets the mark. */
  predicate Enters(d: Daemon, step: Step, path: string, seqBase: nat)
    requires Enabled(d, step)
  {
    step.DoBegin? && !FindsMark(d.runner, step.ctx)
    && d.runner.routines[step.ctx].path == path && d.runner.routines[step.ctx].seqBase == seqBase
  }

  /** An encoding goroutine enters Start, or returns from it. */
  predicate MovesMark(d: Daemon, step: Step)
    requires Enabled(d, step)
  {
    (step.DoBegin? && !FindsMark(d.runner, step.ctx)) || (step.DoExit? && d.runner.routines[step.ctx].phase.Encoding?)
  }

  /** At step `j` a goroutine of this task set the mark, and none has entered or returned since. */
  ghost predicate EnteredLast(trace: seq<Daemon>, steps: seq<Step>, n: nat, path: string, seqBase: nat, j: nat)
    requires IsTrace(trace, steps) && n <= |steps|
  {
    j < n && Enters(trace[j], steps[j], path, seqBase) && forall k :: j < k < n ==> !MovesMark(trace[k], steps[k])
  }

  ghost predicate LastMoveEntered(trace: seq<Daemon>, steps: seq<Step>, n: nat, path: string, seqBase: nat)
    requires IsTrace(trace, steps) && n <= |steps|
  {
    exists j: nat :: EnteredLast(trace, steps, n, path, seqBase, j)
  }

  lemma StepMovesMark(d: Daemon, step: Step, path: string, seqBase: nat)
    requires Enabled(d, step) && RunnerInv(d.runner)
    ensures Next(d, step).runner.Marked(path, seqBase)
       <==> if MovesMark(d, step) then Enters(d, step, path, seqBase) else d.runner.Marked(path, seqBase)
  {
    NextMakesOne(d, step);
  }

  /** What each move sets, and nothing else changes, is as the last move left it. */
  lemma {:induction false} LastMoveTells(marked: seq<bool>, moves: seq<bool>, enters: seq<bool>, n: nat)
    requires |marked| == |moves| + 1 == |enters| + 1 && n <= |moves| && !marked[0]
    requires forall i :: 0 <= i < |moves| ==> (marked[i + 1] <==> if moves[i] then enters[i] else marked[i])
    ensures marked[n] <==> exists j :: 0 <= j < n && IsLastMove(moves, n, j) && enters[j]
  {
    if n != 0 {
      var m := n - 1;
      LastMoveTells(marked, moves, enters, m);
      assert marked[m + 1] <==> if moves[m] then enters[m] else marked[m];
      if moves[m] {
        assert forall j :: 0 <= j < m ==> !IsLastMove(moves, n, j);
        assert IsLastMove(moves, n, m);
      } else {
        assert forall j :: 0 <= j < m ==> (IsLastMove(moves, n, j) <==> IsLastMove(moves, m, j));
        assert !IsLastMove(moves, n, m);
      }
    }
  }

  ghost predicate IsLastMove(moves: seq<bool>, n: nat, j: nat)
    requires j < n <= |moves|
  {
    moves[j] && forall k :: j < k < n ==> !moves[k]
  }

  /** In every run the mark is set for a task exactly when its last move was the entry of a goroutine of that task. */
  lemma MarkTellsLastMove(me: PeerId, trace: seq<Daemon>, steps: seq<Step>, n: nat, path: string, seqBase: nat)
    requires IsTrace(trace, steps) && trace[0] == Initial(me) && n <= |steps|
    ensures trace[n].runner.Marked(path, seqBase) <==> LastMoveEntered(trace, steps, n, path, seqBase)
  {
    var marked := seq(|trace|, i requires 0 <= i < |trace| => trace[i].runner.Marked(path, seqBase));
    var moves := seq(|steps|, i requires 0 <= i < |steps| => MovesMark(trace[i], steps[i]));
    var enters := seq(|steps|, i requires 0 <= i < |steps| => Enters(trace[i], steps[i], path, seqBase));
    forall i | 0 <= i < |steps| ensures marked[i + 1] <==> if moves[i] then enters[i] else marked[i] {
      AtMostOneLive(me, trace, steps, i);
      StepMovesMark(trace[i], steps[i], path, seqBase);
    }
    LastMoveTells(marked, moves, enters, n);
    SameLastMove(trace, steps, n, path, seqBase, moves, enters);
  }

  lemma SameLastMove(trace: seq<Daemon>, steps: seq<Step>, n: nat, path: string, seqBase: nat, moves: seq<bool>, enters: seq<bool>)
    requires IsTrace(trace, steps) && n <= |steps| == |moves| == |enters|
    requires forall i :: 0 <= i < |steps| ==> moves[i] == MovesMark(trace[i], steps[i])
    requires forall i :: 0 <= i < |steps| ==> enters[i] == Enters(trace[i], steps[i], path, seqBase)
    ensures LastMoveEntered(trace, steps, n, path, seqBase) <==> exists j :: 0 <= j < n && IsLastMove(moves, n, j) && enters[j]
  {
    if j: nat :| EnteredLast(trace, steps, n, path, seqBase, j) {
      assert IsLastMove(moves, n, j) && enters[j];
    }
    if j :| 0 <= j < n && IsLastMove(moves, n, j) && enters[j] {
      assert forall k :: j < k < n ==> !moves[k];
      assert EnteredLast(trace, steps, n, path, seqBase, j);
    }
  }

  /**
   In every run the re-evaluation restarts the head that its own encoder is encoding, from the
   number it was started at, exactly when that encoder's entry, or that of one for the same task,
   was not the last move of the mark: another has entered or returned since.
   */
  lemma LiveEncoderIsRestartedExactlyWhen(me: PeerId, trace: seq<Daemon>, steps: seq<Step>, n: nat, canStream: bool)
    requires IsTrace(trace, steps) && trace[0] == Initial(me) && n <= |steps|
    requires var d := trace[n]; d.HeadIsMine(canStream) && Encodes(d.runner, d.runner.lastCtx)
    requires var d := trace[n]; var g := d.runner.routines[d.runner.lastCtx];
      g.path == d.q.Head().value.path != "" && g.seqBase == d.globalSeq
    ensures var d := trace[n]; var g := d.runner.routines[d.runner.lastCtx];
      d.React(canStream).runner.lastCtx != d.runner.lastCtx <==> !LastMoveEntered(trace, steps, n, g.path, g.seqBase)
  {
    var d := trace[n];
    var g := d.runner.routines[d.runner.lastCtx];
    MarkTellsLastMove(me, trace, steps, n, g.path, g.seqBase);
  }

  // ----- which starts lead to false reports -----

  predicate SameTask(g: Routine, h: Routine) {
    g.path == h.path && g.seqBase == h.seqBase
  }

  /** Some other goroutine for the current one's task has not entered Start yet. */
  ghost predicate TwinWaits(r: Runner) {
    && r.lastCtx in r.routines
    && exists c :: c in r.routines && c != r.lastCtx && r.routines[c].phase.Spawned? && SameTask(r.routines[c], r.routines[r.lastCtx])
  }

  /** The step starts a stream while an earlier start of the same file at the same number has not entered Start. */
  ghost predicate Duplicates(d: Daemon, step: Step)
    requires Enabled(d, step)
  {
    Starts(d, step) && TwinWaits(Next(d, step).runner)
  }

  /** The current goroutine was not turned away, and cannot be. */
  ghost predicate Secure(r: Runner) {
    r.lastCtx in r.routines ==>
      var g := r.routines[r.lastCtx];
      && !g.phase.TurnedAway?
      && (g.phase.Spawned? ==> !r.Marked(g.path, g.seqBase) && !TwinWaits(r))
  }

  lemma NextKeepsSecure(d: Daemon, step: Step)
    requires Enabled(d, step) && RunnerInv(d.runner) && Secure(d.runner) && !Duplicates(d, step)
    ensures Secure(Next(d, step).runner)
  {
    NextMakesOne(d, step);
    RoutineKeepsSecure(d, step);
    var r, r' := AfterRoutine(d, step), Next(d, step).runner;
    if r'.lastCtx == r.lastCtx {
      assert TwinWaits(r') ==> TwinWaits(r);
    }
  }

  lemma RoutineKeepsSecure(d: Daemon, step: Step)
    requires Enabled(d, step) && RunnerInv(d.runner) && Secure(d.runner)
    ensures Secure(AfterRoutine(d, step)) && AfterRoutine(d, step).lastCtx == d.runner.lastCtx
  {
    var r, r' := d.runner, AfterRoutine(d, step);
    if r'.lastCtx in r'.routines && r'.routines[r'.lastCtx].phase.Spawned? {
      assert r'.routines[r'.lastCtx] == r.routines[r.lastCtx];
      assert TwinWaits(r') ==> TwinWaits(r);
      assert step.DoBegin? ==> !SameTask(r.routines[step.ctx], r.routines[r.lastCtx]);
    }
  }

  lemma {:induction false} SecureAlong(trace: seq<Daemon>, steps: seq<Step>, n: nat)
    requires IsTrace(trace, steps) && RunnerInv(trace[0].runner) && Secure(trace[0].runner) && n <= |steps|
    requires forall i :: 0 <= i < n ==> !Duplicates(trace[i], steps[i])
    ensures RunnerInv(trace[n].runner) && Secure(trace[n].runner)
  {
    if n != 0 {
      SecureAlong(trace, steps, n - 1);
      TraceStepRunner(trace, steps, n - 1);
      NextKeepsSecure(trace[n - 1], steps[n - 1]);
    }
  }

  /** A run from `d` that ends in a false report, with no further start before it. */
  ghost predicate LeadsToFalseReport(d: Daemon, trace: seq<Daemon>, steps: seq<Step>) {
    && IsTrace(trace, steps) && trace[0] == d && steps != []
    && (forall i :: 0 <= i < |steps| - 1 ==> !Starts(trace[i], steps[i]))
    && FalseReport(trace[|steps| - 1], steps[|steps| - 1])
  }

  ghost predicate FalseReportLooms(d: Daemon) {
    exists trace, steps :: LeadsToFalseReport(d, trace, steps)
  }

  lemma SecureMeansNoneLooms(d: Daemon)
    requires RunnerInv(d.runner) && Secure(d.runner)
    ensures !FalseReportLooms(d)
  {
    if trace, steps :| LeadsToFalseReport(d, trace, steps) {
      SecureAlong(trace, steps, |steps| - 1);
    }
  }

  /** The twin enters Start first, the current goroutine is turned away, and reports. */
  lemma TwinLeadsToFalseReport(d: Daemon)
    requires RunnerInv(d.runner) && TwinWaits(d.runner)
    requires d.runner.routines[d.runner.lastCtx].phase.Spawned? && d.runner.lastCtx !in d.runner.cancelled
    ensures FalseReportLooms(d)
  {
    var r, last := d.runner, d.runner.lastCtx;
    var c :| c in r.routines && c != last && r.routines[c].phase.Spawned? && SameTask(r.routines[c], r.routines[last]);
    TwinTurnsAway(d, c);
    var d1 := d.Begin(c);
    var d2 := d1.Begin(last);
    LeadsThere(d, d1, d2, c, last);
  }

  /** Once the twin has entered, the mark is set for the common task. */
  lemma TwinTurnsAway(d: Daemon, c: nat)
    requires var r := d.runner; r.lastCtx in r.routines && c in r.routines && c != r.lastCtx
    requires d.runner.routines[c].phase.Spawned? && d.runner.routines[d.runner.lastCtx].phase.Spawned?
    requires SameTask(d.runner.routines[c], d.runner.routines[d.runner.lastCtx])
    ensures var last := d.runner.lastCtx; var d1 := d.Begin(c);
      && d1.runner.lastCtx == last && d1.runner.cancelled == d.runner.cancelled
      && last in d1.runner.routines && d1.runner.routines[last].phase.Spawned?
      && d1.Begin(last).runner == d1.runner.(routines := d1.runner.routines[last := d.runner.routines[last].(phase := TurnedAway)])
  {
    var last := d.runner.lastCtx;
    assert d.Begin(c).runner.routines[last] == d.runner.routines[last];
    assert FindsMark(d.Begin(c).runner, last);
  }

  lemma LeadsThere(d: Daemon, d1: Daemon, d2: Daemon, c: nat, last: nat)
    requires Enabled(d, DoBegin(c)) && d1 == d.Begin(c) && Enabled(d1, DoBegin(last)) && d2 == d1.Begin(last)
    requires last in d2.runner.routines && d2.runner.routines[last].phase.TurnedAway? && d2.WillReport(last, Eof)
    ensures FalseReportLooms(d)
  {
    var trace := [d, d1, d2, d2.Exit(last, Eof, false)];
    var steps := [DoBegin(c), DoBegin(last), DoExit(last, Eof, false)];
    assert !Starts(d, steps[0]) && !Starts(d1, steps[1]);
    assert LeadsToFalseReport(d, trace, steps);
  }

  ghost predicate NoneLooms(trace: seq<Daemon>) {
    forall d :: d in trace ==> !FalseReportLooms(d)
  }

  ghost predicate NoDuplicates(trace: seq<Daemon>, steps: seq<Step>)
    requires IsTrace(trace, steps)
  {
    forall i :: 0 <= i < |steps| ==> !Duplicates(trace[i], steps[i])
  }

  /**
   In every run: no schedule of the goroutines can make a false report follow at any point,
   exactly when no start was made while an earlier one for the same task had yet to enter Start.
   */
  lemma NoFalseReportExactlyWhenNoDuplicateStart(me: PeerId, trace: seq<Daemon>, steps: seq<Step>)
    requires IsTrace(trace, steps) && trace[0] == Initial(me)
    ensures NoneLooms(trace) <==> NoDuplicates(trace, steps)
  {
    if NoDuplicates(trace, steps) {
      NoDuplicatesNoneLooms(me, trace, steps);
    }
    if i :| 0 <= i < |steps| && Duplicates(trace[i], steps[i]) {
      AtMostOneLive(me, trace, steps, i);
      DuplicateLooms(trace[i], steps[i], trace[i + 1]);
    }
  }

  lemma NoDuplicatesNoneLooms(me: PeerId, trace: seq<Daemon>, steps: seq<Step>)
    requires IsTrace(trace, steps) && trace[0] == Initial(me) && NoDuplicates(trace, steps)
    ensures NoneLooms(trace)
  {
    forall n | 0 <= n < |trace| ensures !FalseReportLooms(trace[n]) {
      SecureAlong(trace, steps, n);
      SecureMeansNoneLooms(trace[n]);
    }
  }

  lemma DuplicateLooms(d: Daemon, step: Step, d': Daemon)
    requires RunnerInv(d.runner) && Enabled(d, step) && Duplicates(d, step) && d' == Next(d, step)
    ensures FalseReportLooms(d')
  {
    NextRunner(d, step);
    NextMakesOne(d, step);
    TwinLeadsToFalseReport(d');
  }

  /** In particular every false report comes after such a start. */
  lemma FalseReportNeedsDuplicateStart(me: PeerId, trace: seq<Daemon>, steps: seq<Step>, n: nat)
    requires IsTrace(trace, steps) && trace[0] == Initial(me) && n < |steps| && FalseReport(trace[n], steps[n])
    ensures exists i :: 0 <= i < n && Duplicates(trace[i], steps[i])
  {
    if forall i :: 0 <= i < n ==> !Duplicates(trace[i], steps[i]) {
      SecureAlong(trace, steps, n);
    }
  }

  /** A goroutine that Start turned away as a duplicate returns as if its file had ended. */
  lemma TurnedAwayExitReports(d: Daemon, c: nat, canStream: bool)
    requires c in d.runner.routines && d.runner.routines[c].phase.TurnedAway?
    requires c == d.runner.lastCtx && c !in d.runner.cancelled && d.completions == map[]
    requires d.q.Head().Some? && d.q.Head().value.firstSeq == d.runner.routines[c].seqBase
    ensures var d' := d.Exit(c, Eof, canStream); var s := d.runner.routines[c].seqBase;
      d'.log == d.log + [EncoderReport(s)] && d'.Reports(s).encoderFinished && d'.ringNext == d.ringNext
  {
  }

  /**
   So two re-evaluations in a row can make a node report the end of a stream of which nothing was
   encoded.
   */
  lemma FalseEndOfFileIsReachable(a: string) returns (trace: seq<Daemon>, steps: seq<Step>)
    requires a != ""
    ensures IsTrace(trace, steps) && trace[0] == Initial(1)
    ensures EncoderReport(0) in trace[|steps|].log && trace[|steps|].Reports(0).encoderFinished
    ensures trace[|steps|].ringNext == 0 && forall i :: 0 <= i < |steps| ==> !steps[i].DoIngest?
  {
    var s0 := DoHandle(CmdAppend(a, 0, 0), 1, true, true);
    var d1 := Next(Initial(1), s0);
    SecondReactStarts(a, d1);
    trace, steps := [Initial(1), d1, d1.React(true)], [s0, DoReact(true)];
    var more, moreSteps, d := TwinReportsFalsely(a, d1.React(true));
    Follow(trace, steps, more, moreSteps, Initial(1), d1.React(true), d);
    trace, steps := trace + more[1..], steps + moreSteps;
  }

  lemma TwinReportsFalsely(a: string, d: Daemon) returns (trace: seq<Daemon>, steps: seq<Step>, d': Daemon)
    requires d.q == QueueState([Item(a, 1, 1, 0, 0, 0)], 0) && d.completions == map[] && d.ringNext == 0
    requires d.runner == Runner(2, {1}, true, false, "", 0, map[1 := Routine(a, 0, Spawned), 2 := Routine(a, 0, Spawned)])
    ensures IsRun(trace, steps, d, d') && steps == [DoBegin(1), DoBegin(2), DoExit(2, Eof, true)]
    ensures EncoderReport(0) in d'.log && d'.Reports(0).encoderFinished && d'.ringNext == 0
  {
    SecondBeginIsTurnedAway(a, d);
    var turned := d.Begin(1).Begin(2);
    TurnedAwayExitReports(turned, 2, true);
    d' := turned.Exit(2, Eof, true);
    assert d'.log[|turned.log|] == EncoderReport(0);
    trace, steps := [d, d.Begin(1), turned, d'], [DoBegin(1), DoBegin(2), DoExit(2, Eof, true)];
  }

  lemma SecondReactStarts(a: string, d: Daemon)
    requires a != "" && d == Next(Initial(1), DoHandle(CmdAppend(a, 0, 0), 1, true, true))
    ensures var d' := d.React(true);
      && d'.q == QueueState([Item(a, 1, 1, 0, 0, 0)], 0) && d'.completions == map[] && d'.ringNext == 0
      && d'.runner == Runner(2, {1}, true, false, "", 0, map[1 := Routine(a, 0, Spawned), 2 := Routine(a, 0, Spawned)])
  {
    FirstAppendStarts(a);
  }

  lemma SecondBeginIsTurnedAway(a: string, d: Daemon)
    requires d.runner == Runner(2, {1}, true, false, "", 0, map[1 := Routine(a, 0, Spawned), 2 := Routine(a, 0, Spawned)])
    ensures d.Begin(1).runner.routines[2] == Routine(a, 0, Spawned)
    ensures d.Begin(1).Begin(2) ==
            d.(runner := Runner(2, {1}, true, true, a, 0, map[1 := Routine(a, 0, Encoding), 2 := Routine(a, 0, TurnedAway)]))
  {
  }
}
