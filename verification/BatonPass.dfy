/** When the queue advances by itself: the hand-off from one streamer to the next. */
module BatonPass {
  import opened Wrappers
  import opened Queues
  import opened RoleManagers
  import opened DaemonSpec
  import opened EventLog

  // ----- the invariant -----

  /** Every pass so far was backed by both reports, made since the stream's last cleanup. */
  ghost predicate PassesAreBacked(log: seq<Event>) {
    forall i :: 0 <= i < |log| && log[i].Pass? ==>
      Since(log[..i], log[i].stream).encoderFinished && log[i].storer in Since(log[..i], log[i].stream).players
  }

  /** Reports not yet consumed still stand between the counts. */
  ghost predicate CountsHold(log: seq<Event>, s: nat) {
    && StreamPasses(log, s) + (if Since(log, s).encoderFinished then 1 else 0) <= EncoderReports(log, s)
    && forall p :: Passes(log, s, p) + (if p in Since(log, s).players then 1 else 0) <= PlayerReports(log, s, p)
  }

  /** The stored completion states are exactly the reports since the last cleanup. */
  ghost predicate StatesMatchLog(d: Daemon) {
    forall s :: d.Reports(s) == Since(d.log, s)
  }

  ghost predicate PassInv(d: Daemon) {
    StatesMatchLog(d) && PassesAreBacked(d.log) && forall s :: CountsHold(d.log, s)
  }

  // ----- one event at a time -----

  lemma BackedGrows(log: seq<Event>, e: Event)
    requires PassesAreBacked(log)
    requires e.Pass? ==> Since(log, e.stream).encoderFinished && e.storer in Since(log, e.stream).players
    ensures PassesAreBacked(log + [e])
  {
    forall i | 0 <= i < |log + [e]| && (log + [e])[i].Pass?
      ensures var x := (log + [e])[i]; Since((log + [e])[..i], x.stream).encoderFinished && x.storer in Since((log + [e])[..i], x.stream).players
    {
      assert (log + [e])[..i] == log[..i];
      if i == |log| {
        assert log[..i] == log;
      } else {
        assert (log + [e])[i] == log[i];
      }
    }
  }

  lemma EmitReport(d: Daemon, e: Event, d': Daemon, s: nat)
    requires PassInv(d)
    requires e == EncoderReport(s) || exists p :: e == PlayerReport(s, p)
    requires d' == d.(completions := d.completions[s := Since(d.log + [e], s)]).Emit(e)
    ensures PassInv(d')
  {
    LogGrows(d.log, e);
    BackedGrows(d.log, e);
    forall t ensures CountsHold(d'.log, t) && d'.Reports(t) == Since(d'.log, t) {
      assert CountsHold(d.log, t) && d.Reports(t) == Since(d.log, t);
    }
  }

  lemma EmitCleanup(d: Daemon, s: nat)
    requires PassInv(d)
    ensures PassInv(d.Forget(s))
  {
    LogGrows(d.log, Cleanup(s));
    BackedGrows(d.log, Cleanup(s));
    forall t ensures CountsHold(d.Forget(s).log, t) && d.Forget(s).Reports(t) == Since(d.Forget(s).log, t) {
      assert CountsHold(d.log, t) && d.Reports(t) == Since(d.log, t);
    }
  }

  /** Starting a stream concerns no reports. */
  lemma EmitStarted(d: Daemon, d': Daemon, base: nat, next: nat)
    requires PassInv(d) && d'.log == d.log + [Started(base, next)] && d'.completions == d.completions
    ensures PassInv(d')
  {
    LogGrows(d.log, Started(base, next));
    BackedGrows(d.log, Started(base, next));
    forall t ensures CountsHold(d'.log, t) && d'.Reports(t) == Since(d'.log, t) {
      assert CountsHold(d.log, t) && d.Reports(t) == Since(d.log, t);
    }
  }

  lemma ReactKeepsPassInv(d: Daemon, canStream: bool)
    requires PassInv(d)
    ensures PassInv(d.React(canStream))
  {
    ReactLog(d, canStream);
    var d' := d.React(canStream);
    if d'.log != d.log {
      EmitStarted(d, d', d.globalSeq, d.ringNext);
    } else {
      SameLog(d, d');
    }
  }

  lemma SameLog(d: Daemon, d': Daemon)
    requires PassInv(d) && d'.log == d.log && d'.completions == d.completions
    ensures PassInv(d')
  {
    assert forall s :: d'.Reports(s) == d.Reports(s);
  }

  lemma HandleKeepsPassInv(d: Daemon, cmd: QueueCmd, sender: PeerId, canQueue: bool, canStream: bool)
    requires PassInv(d)
    ensures PassInv(d.Handle(cmd, sender, canQueue, canStream))
  {
    if !cmd.CmdUnknown? {
      ExecuteKeepsLog(d, cmd, sender);
      SameLog(d, d.Execute(cmd, sender));
      ReactKeepsPassInv(d.Execute(cmd, sender), canStream);
    }
  }

  // ----- the pass itself -----

  /** The counts with the reports of stream `s` already consumed. */
  lemma ConsumeReports(d: Daemon, s: nat, p: PeerId, after: Daemon)
    requires PassInv(d) && Since(d.log, s).encoderFinished && p in Since(d.log, s).players
    requires after.completions == d.completions
    requires after.log == d.log + [Pass(s, p)] || exists b, n :: after.log == d.log + [Pass(s, p)] + [Started(b, n)]
    ensures PassInv(after.Forget(s))
  {
    var passed := d.log + [Pass(s, p)];
    LogGrows(d.log, Pass(s, p));
    BackedGrows(d.log, Pass(s, p));
    ConsumedCounts(d.log, s, p);
    if after.log == passed {
      LogGrows(passed, Cleanup(s));
      BackedGrows(passed, Cleanup(s));
      ForgottenCounts(d, passed, s, after);
    } else {
      var b, n :| after.log == passed + [Started(b, n)];
      LogGrows(passed, Started(b, n));
      LogGrows(after.log, Cleanup(s));
      BackedGrows(passed, Started(b, n));
      BackedGrows(after.log, Cleanup(s));
      StartedCounts(passed, s, b, n);
      ForgottenCounts(d, after.log, s, after);
    }
  }

  /** The counts of a stream just passed, before its cleanup. */
  ghost predicate CountsConsumed(log: seq<Event>, s: nat) {
    && StreamPasses(log, s) <= EncoderReports(log, s)
    && forall p :: Passes(log, s, p) <= PlayerReports(log, s, p)
  }

  lemma ConsumedCounts(log: seq<Event>, s: nat, p: PeerId)
    requires forall t :: CountsHold(log, t)
    requires Since(log, s).encoderFinished && p in Since(log, s).players
    ensures CountsConsumed(log + [Pass(s, p)], s)
    ensures forall t :: t != s ==> CountsHold(log + [Pass(s, p)], t)
    ensures forall t :: Since(log + [Pass(s, p)], t) == Since(log, t)
  {
    LogGrows(log, Pass(s, p));
    assert CountsHold(log, s);
    forall t | t != s ensures CountsHold(log + [Pass(s, p)], t) {
      assert CountsHold(log, t);
    }
  }

  lemma StartedCounts(log: seq<Event>, s: nat, b: nat, n: nat)
    requires CountsConsumed(log, s) && forall t :: t != s ==> CountsHold(log, t)
    ensures CountsConsumed(log + [Started(b, n)], s)
    ensures forall t :: t != s ==> CountsHold(log + [Started(b, n)], t)
    ensures forall t :: Since(log + [Started(b, n)], t) == Since(log, t)
  {
    LogGrows(log, Started(b, n));
    forall t | t != s ensures CountsHold(log + [Started(b, n)], t) {
      assert CountsHold(log, t);
    }
  }

  lemma ForgottenCounts(d: Daemon, log: seq<Event>, s: nat, after: Daemon)
    requires StatesMatchLog(d) && after.log == log && after.completions == d.completions
    requires CountsConsumed(log, s) && forall t :: t != s ==> CountsHold(log, t)
    requires forall t :: Since(log, t) == Since(d.log, t)
    ensures StatesMatchLog(after.Forget(s)) && forall t :: CountsHold(after.Forget(s).log, t)
  {
    LogGrows(log, Cleanup(s));
    forall t ensures CountsHold(after.Forget(s).log, t) && after.Forget(s).Reports(t) == Since(after.Forget(s).log, t) {
      assert d.Reports(t) == Since(d.log, t);
      if t != s {
        assert CountsHold(log, t);
      }
    }
  }

  lemma CheckKeepsPassInv(d: Daemon, s: nat, canStream: bool)
    requires PassInv(d)
    ensures PassInv(d.Check(s, canStream))
  {
    if s in d.completions {
      EmitCleanup(d, s);
      if d.Ready(s) {
        var p := d.q.Head().value.storedBy;
        var passed := d.Emit(Pass(s, p));
        assert d.Reports(s) == Since(d.log, s);
        ExecuteKeepsLog(passed, CmdNext, passed.me);
        ReactLog(passed.Execute(CmdNext, passed.me), canStream);
        ConsumeReports(d, s, p, passed.Handle(CmdNext, passed.me, true, canStream));
      }
    }
  }

  lemma NotifyKeepsPassInv(d: Daemon, s: nat, p: PeerId, canStream: bool)
    requires PassInv(d)
    ensures PassInv(d.NotifyEncoder(s, canStream)) && PassInv(d.NotifyPlayer(s, p, canStream))
  {
    assert d.Reports(s) == Since(d.log, s);
    LogGrows(d.log, EncoderReport(s));
    LogGrows(d.log, PlayerReport(s, p));
    var enc := d.HearEncoder(s);
    var ply := d.HearPlayer(s, p);
    EmitReport(d, EncoderReport(s), enc, s);
    EmitReport(d, PlayerReport(s, p), ply, s);
    CheckKeepsPassInv(enc, s, canStream);
    CheckKeepsPassInv(ply, s, canStream);
  }

  lemma NextKeepsPassInv(d: Daemon, step: Step)
    requires PassInv(d) && Enabled(d, step)
    ensures PassInv(Next(d, step))
  {
    match step
    case DoHandle(cmd, sender, canQueue, canStream) => HandleKeepsPassInv(d, cmd, sender, canQueue, canStream);
    case DoApplyUpdate(items, canQueue, canStream) =>
      var replaced := d.Replaced(items);
      SameLog(d, replaced);
      ReactKeepsPassInv(replaced, canStream);
    case DoPlayer(s, p, canStream) => NotifyKeepsPassInv(d, s, p, canStream);
    case DoReact(canStream) => ReactKeepsPassInv(d, canStream);
    case DoExit(c, outcome, canStream) => ExitKeepsPassInv(d, c, outcome, canStream);
    case _ => SameLog(d, Next(d, step));
  }

  lemma ExitKeepsPassInv(d: Daemon, c: nat, outcome: Outcome, canStream: bool)
    requires PassInv(d) && c in d.runner.routines && !d.runner.routines[c].phase.Spawned?
    ensures PassInv(d.Exit(c, outcome, canStream))
  {
    SameLog(d, d.Release(c));
    SameLog(d, d.Quit(c));
    SameLog(d, d.Quit(c).UpdateGlobal(d.ringNext));
    NotifyKeepsPassInv(d.Quit(c).UpdateGlobal(d.ringNext), d.runner.routines[c].seqBase, d.me, canStream);
  }

  // ----- over whole runs -----

  lemma {:induction false} RunKeepsPassInv(trace: seq<Daemon>, steps: seq<Step>, n: nat)
    requires IsTrace(trace, steps) && PassInv(trace[0]) && n <= |steps|
    ensures PassInv(trace[n])
  {
    if n != 0 {
      RunKeepsPassInv(trace, steps, n - 1);
      NextKeepsPassInv(trace[n - 1], steps[n - 1]);
    }
  }

  lemma InitialPassInv(me: PeerId)
    ensures PassInv(Initial(me))
  {
  }

  /**
   In every state of every run of a daemon: each self-initiated NEXT for a stream was backed by an
   encoder report and a report of the storing peer's own player, both since the stream's last
   cleanup, and uses them up.
   */
  lemma EveryPassIsBackedAndConsumes(me: PeerId, trace: seq<Daemon>, steps: seq<Step>, n: nat, s: nat, p: PeerId)
    requires IsTrace(trace, steps) && trace[0] == Initial(me) && n <= |steps|
    ensures PassesAreBacked(trace[n].log)
    ensures StreamPasses(trace[n].log, s) <= EncoderReports(trace[n].log, s)
    ensures Passes(trace[n].log, s, p) <= PlayerReports(trace[n].log, s, p)
  {
    InitialPassInv(me);
    RunKeepsPassInv(trace, steps, n);
    assert CountsHold(trace[n].log, s);
  }

  // ----- who can cause a pass -----

  /** The state a ready stream's check leads to, step by step. */
  lemma CheckWhenReady(d: Daemon, s: nat, canStream: bool)
    requires d.Ready(s)
    ensures AllPasses(d.Check(s, canStream).log) == AllPasses(d.log) + 1
    ensures d.Check(s, canStream).q.cursor == d.q.Advance().cursor
    ensures |d.Check(s, canStream).q.items| == |d.q.items|
  {
    var e := Pass(s, d.q.Head().value.storedBy);
    var passed := d.Emit(e);
    LogGrows(d.log, e);
    ExecuteKeepsLog(passed, CmdNext, passed.me);
    var moved := passed.Execute(CmdNext, passed.me);
    ReactLog(moved, canStream);
    LogGrows(passed.log, Started(moved.globalSeq, moved.ringNext));
    var reacted := moved.React(canStream);
    LogGrows(reacted.log, Cleanup(s));
    assert AllPasses(passed.log) == AllPasses(d.log) + 1;
    assert AllPasses(reacted.log) == AllPasses(passed.log);
    assert AllPasses(reacted.log + [Cleanup(s)]) == AllPasses(reacted.log);
    assert d.Check(s, canStream) == reacted.Forget(s);
  }

  lemma CheckWhenNotReady(d: Daemon, s: nat, canStream: bool)
    requires !d.Ready(s)
    ensures AllPasses(d.Check(s, canStream).log) == AllPasses(d.log)
    ensures d.Check(s, canStream).q == d.q
  {
    LogGrows(d.log, Cleanup(s));
  }

  /** A player report advances the queue exactly when it completes the head's pair of reports. */
  lemma PlayerReportPassesExactlyWhen(d: Daemon, s: nat, p: PeerId, canStream: bool)
    ensures AllPasses(d.NotifyPlayer(s, p, canStream).log) == AllPasses(d.log) + 1 <==>
            var head := d.q.Head();
            && head.Some? && head.value.firstSeq == s && d.Reports(s).encoderFinished
            && (head.value.storedBy == p || head.value.storedBy in d.Reports(s).players)
    ensures AllPasses(d.log) <= AllPasses(d.NotifyPlayer(s, p, canStream).log) <= AllPasses(d.log) + 1
  {
    var told := d.HearPlayer(s, p);
    LogGrows(d.log, PlayerReport(s, p));
    if told.Ready(s) {
      CheckWhenReady(told, s, canStream);
    } else {
      CheckWhenNotReady(told, s, canStream);
    }
  }

  /** The stream and the storer of the current item. */
  function HeadKey(d: Daemon): Option<(nat, PeerId)> {
    match d.q.Head()
    case Some(it) => Some((it.firstSeq, it.storedBy))
    case None => None
  }

  /** Both reports of the current item are waiting. */
  predicate HeadIsReady(d: Daemon) {
    d.q.Head().Some? && d.Ready(d.q.Head().value.firstSeq)
  }

  /** A report of some player other than the current storer's would advance the queue. */
  ghost predicate OthersCanPass(d: Daemon) {
    exists s, p, canStream ::
      && (d.q.Head().Some? ==> p != d.q.Head().value.storedBy)
      && AllPasses(d.NotifyPlayer(s, p, canStream).log) != AllPasses(d.log)
  }

  lemma OthersCanPassExactlyWhenReady(d: Daemon)
    ensures OthersCanPass(d) <==> HeadIsReady(d)
  {
    if HeadIsReady(d) {
      var head := d.q.Head().value;
      PlayerReportPassesExactlyWhen(d, head.firstSeq, head.storedBy + 1, true);
      assert AllPasses(d.NotifyPlayer(head.firstSeq, head.storedBy + 1, true).log) != AllPasses(d.log);
    }
    if s, p, canStream :|
      && (d.q.Head().Some? ==> p != d.q.Head().value.storedBy)
      && AllPasses(d.NotifyPlayer(s, p, canStream).log) != AllPasses(d.log)
    {
      PlayerReportPassesExactlyWhen(d, s, p, canStream);
    }
  }

  lemma ReportKeepsWaiting(d: Daemon, s: nat, told: Daemon, canStream: bool)
    requires !HeadIsReady(d) && told.q == d.q && s in told.completions && told.completions - {s} == d.completions - {s}
    requires HeadKey(told.Check(s, canStream)) == HeadKey(d)
    ensures !HeadIsReady(told.Check(s, canStream))
  {
    assert forall t :: t != s ==> (t in told.completions - {s} <==> t in told.completions);
    assert forall t :: t != s ==> (t in d.completions - {s} <==> t in d.completions);
    if told.Ready(s) {
      var passed := told.Emit(Pass(s, told.q.Head().value.storedBy));
      ExecuteKeepsLog(passed, CmdNext, passed.me);
      ReactLog(passed.Execute(CmdNext, passed.me), canStream);
    }
  }

  /** While the current item stays, its pair of reports never lies complete. */
  lemma NextKeepsWaiting(d: Daemon, step: Step)
    requires Enabled(d, step) && !HeadIsReady(d) && HeadKey(Next(d, step)) == HeadKey(d)
    ensures !HeadIsReady(Next(d, step))
  {
    match step
    case DoHandle(cmd, sender, canQueue, canStream) =>
      if !cmd.CmdUnknown? {
        ExecuteKeepsLog(d, cmd, sender);
        ReactLog(d.Execute(cmd, sender), canStream);
      }
    case DoApplyUpdate(items, canQueue, canStream) =>
      ReactLog(d.Replaced(items), canStream);
    case DoPlayer(s, p, canStream) => ReportKeepsWaiting(d, s, d.HearPlayer(s, p), canStream);
    case DoReact(canStream) => ReactLog(d, canStream);
    case DoExit(c, outcome, canStream) =>
      if d.WillReport(c, outcome) {
        var s := d.runner.routines[c].seqBase;
        ReportKeepsWaiting(d, s, d.Quit(c).UpdateGlobal(d.ringNext).HearEncoder(s), canStream);
      }
    case _ =>
  }

  /** No change of the current item brings up one whose pair of reports is already complete. */
  ghost predicate NewHeadsWait(trace: seq<Daemon>, n: nat)
    requires n < |trace|
  {
    forall i :: 0 <= i < n ==> HeadKey(trace[i + 1]) == HeadKey(trace[i]) || !HeadIsReady(trace[i + 1])
  }

  lemma {:induction false} HeadsWait(trace: seq<Daemon>, steps: seq<Step>, n: nat)
    requires IsTrace(trace, steps) && n <= |steps| && trace[0].completions == map[]
    requires NewHeadsWait(trace, n)
    ensures forall i :: 0 <= i <= n ==> !HeadIsReady(trace[i])
  {
    if n != 0 {
      HeadsWait(trace, steps, n - 1);
      if HeadKey(trace[n]) == HeadKey(trace[n - 1]) {
        NextKeepsWaiting(trace[n - 1], steps[n - 1]);
      }
    }
  }

  /**
   In every run: in none of its states could a player other than the current storer's advance the
   queue, exactly when no change of the current item brought up one whose reports were complete.
   */
  lemma OthersCannotPassExactlyWhenNewHeadsWait(trace: seq<Daemon>, steps: seq<Step>, n: nat)
    requires IsTrace(trace, steps) && n <= |steps| && trace[0].completions == map[]
    ensures (forall i :: 0 <= i <= n ==> !OthersCanPass(trace[i])) <==> NewHeadsWait(trace, n)
  {
    if NewHeadsWait(trace, n) {
      HeadsWait(trace, steps, n);
    }
    forall i | 0 <= i <= n ensures OthersCanPass(trace[i]) <==> HeadIsReady(trace[i]) {
      OthersCanPassExactlyWhenReady(trace[i]);
    }
    if forall i :: 0 <= i <= n ==> !OthersCanPass(trace[i]) {
      assert forall i :: 0 <= i <= n ==> !HeadIsReady(trace[i]);
    }
  }

  /** So then reports of players other than the current storer's never advance the queue. */
  lemma OtherPlayersNeverPass(trace: seq<Daemon>, steps: seq<Step>, n: nat)
    requires IsTrace(trace, steps) && n <= |steps| && trace[0].completions == map[] && NewHeadsWait(trace, n)
    ensures forall i :: 0 <= i < n && steps[i].DoPlayer?
              && (trace[i].q.Head().Some? ==> steps[i].peer != trace[i].q.Head().value.storedBy)
              ==> AllPasses(trace[i + 1].log) == AllPasses(trace[i].log)
  {
    HeadsWait(trace, steps, n);
    forall i | 0 <= i < n && steps[i].DoPlayer?
               && (trace[i].q.Head().Some? ==> steps[i].peer != trace[i].q.Head().value.storedBy)
      ensures AllPasses(trace[i + 1].log) == AllPasses(trace[i].log)
    {
      PlayerReportPassesExactlyWhen(trace[i], steps[i].stream, steps[i].peer, steps[i].canStream);
    }
  }

  // ----- two ways in which others' reports do pass -----

  /**
   If a received queue update hands the head's stream to a peer that has already reported, the
   next report of anyone at all advances the queue.
   */
  lemma ReassignedStorerLetsOthersPass(d: Daemon, it: Item, p: PeerId, canStream: bool)
    requires d.q == QueueState([it], 0) && d.me != it.storedBy && d.me != p
    requires d.Reports(it.firstSeq) == Completion(true, {p}) && p != it.storedBy
    ensures var updated := d.ApplyUpdate([Some(it.(storedBy := p))], true, canStream);
      forall x :: AllPasses(updated.NotifyPlayer(it.firstSeq, x, canStream).log) == AllPasses(updated.log) + 1
  {
    var items := [Some(it.(storedBy := p))];
    assert items[..0] == [];
    assert Decoded(items) == [it.(storedBy := p)];
    var updated := d.ApplyUpdate(items, true, canStream);
    assert updated.q == QueueState([it.(storedBy := p)], 0);
    forall x ensures AllPasses(updated.NotifyPlayer(it.firstSeq, x, canStream).log) == AllPasses(updated.log) + 1 {
      PlayerReportPassesExactlyWhen(updated, it.firstSeq, x, canStream);
    }
  }

  /** Peer 1's own stream 0 is being encoded. */
  function FirstStream(q: QueueState<Item>, a: string): Daemon {
    Daemon(1, q, map[], 0, Runner(1, {}, true, true, a, 0, map[1 := Routine(a, 0, Encoding)]), 0, [Started(0, 0)],
           Told(q.items, q.items, Some(0)))
  }

  /** It has ended; peer 2's player, but not peer 1's own, has reported its end before. */
  function EndedEarly(q: QueueState<Item>, a: string): Daemon {
    Daemon(1, q, map[0 := Completion(true, {2})], 0, Runner(1, {}, false, false, a, 0, map[]), 0,
           [Started(0, 0), PlayerReport(0, 2), EncoderReport(0)], Told(q.items, q.items, Some(0)))
  }

  lemma FirstStreamStarts(a: string) returns (trace: seq<Daemon>, steps: seq<Step>)
    requires a != ""
    ensures IsRun(trace, steps, Initial(1), FirstStream(QueueState([Item(a, 1, 1, 0, 0, 0)], 0), a))
    ensures steps == [DoHandle(CmdAppend(a, 0, 0), 1, true, true), DoBegin(1)]
  {
    var d0 := Initial(1);
    var s0 := DoHandle(CmdAppend(a, 0, 0), 1, true, true);
    var d1 := Next(d0, s0);
    assert d1.runner == Runner(1, {}, true, false, "", 0, map[1 := Routine(a, 0, Spawned)]);
    trace, steps := [d0, d1, Next(d1, DoBegin(1))], [s0, DoBegin(1)];
  }

  lemma FirstStreamEndsEarly(q: QueueState<Item>, a: string) returns (trace: seq<Daemon>, steps: seq<Step>)
    requires q.Head().Some? && q.Head().value.firstSeq == 0 && q.Head().value.storedBy == 1
    ensures IsRun(trace, steps, FirstStream(q, a), EndedEarly(q, a))
    ensures steps == [DoPlayer(0, 2, true), DoExit(1, Eof, true)]
  {
    var d0 := FirstStream(q, a);
    var early := d0.HearPlayer(0, 2);
    assert d0.Reports(0) == NO_REPORTS && {} + {2} == {2};
    assert early == d0.(completions := map[0 := Completion(false, {2})], log := [Started(0, 0), PlayerReport(0, 2)]);
    assert early.Check(0, true) == early;
    var ended := early.Quit(1).UpdateGlobal(0).HearEncoder(0);
    assert early.runner.routines - {1} == map[];
    assert ended == EndedEarly(q, a);
    assert ended.Check(0, true) == ended;
    trace, steps := [d0, early, ended], [DoPlayer(0, 2, true), DoExit(1, Eof, true)];
  }

  /** A run in which the storer is reassigned after peer 2 has reported, and peer 3's report passes. */
  lemma ReassignedPassIsReachable(a: string) returns (trace: seq<Daemon>, steps: seq<Step>)
    requires a != ""
    ensures IsTrace(trace, steps) && trace[0] == Initial(1)
    ensures trace[|steps|].q.Head().Some? && trace[|steps|].q.Head().value.storedBy == 2
    ensures AllPasses(trace[|steps|].NotifyPlayer(0, 3, true).log) == AllPasses(trace[|steps|].log) + 1
  {
    var it := Item(a, 1, 1, 0, 0, 0);
    var q := QueueState([it], 0);
    trace, steps := FirstStreamStarts(a);
    var more, moreSteps := FirstStreamEndsEarly(q, a);
    Follow(trace, steps, more, moreSteps, Initial(1), FirstStream(q, a), EndedEarly(q, a));
    var last, lastSteps, d := StorerIsReassigned(it, a);
    Follow(trace + more[1..], steps + moreSteps, last, lastSteps, Initial(1), EndedEarly(q, a), d);
    trace, steps := trace + more[1..] + last[1..], steps + moreSteps + lastSteps;
  }

  lemma StorerIsReassigned(it: Item, a: string) returns (trace: seq<Daemon>, steps: seq<Step>, d: Daemon)
    requires it.firstSeq == 0
    ensures IsRun(trace, steps, EndedEarly(QueueState([it], 0), a), d)
    ensures d.q.Head().Some? && d.q.Head().value.storedBy == 2
    ensures AllPasses(d.NotifyPlayer(0, 3, true).log) == AllPasses(d.log) + 1
  {
    var ended := EndedEarly(QueueState([it], 0), a);
    var items := [Some(it.(storedBy := 2))];
    assert items[..0] == [];
    assert Decoded(items) == [it.(storedBy := 2)];
    d := ended.ApplyUpdate(items, true, true);
    assert d.completions == ended.completions && d.q == QueueState([it.(storedBy := 2)], 0);
    PlayerReportPassesExactlyWhen(d, 0, 3, true);
    trace, steps := OneStep(ended, DoApplyUpdate(items, true, true));
  }

  /**
   No queue update is needed: an item that has not been started has stream id 0, so peer 2's early
   report of stream 0 also counts for its own next item, and after a skip to it peer 3's passes.
   */
  lemma SkipToUnstartedLetsOthersPass(a: string, b: string) returns (trace: seq<Daemon>, steps: seq<Step>)
    requires a != "" && b != ""
    ensures IsTrace(trace, steps) && trace[0] == Initial(1) && forall step :: step in steps ==> !step.DoApplyUpdate?
    ensures trace[|steps|].q.Head().Some? && trace[|steps|].q.Head().value.storedBy == 2
    ensures AllPasses(trace[|steps|].NotifyPlayer(0, 3, true).log) == AllPasses(trace[|steps|].log) + 1
  {
    var two := QueueState([Item(a, 1, 1, 0, 0, 0), Item(b, 2, 2, 0, 0, 0)], 0);
    trace, steps := TwoItemsEndedEarly(a, b);
    var more, moreSteps, d := SkipReachesSecondItem(two, a);
    Follow(trace, steps, more, moreSteps, Initial(1), EndedEarly(two, a), d);
    trace, steps := trace + more[1..], steps + moreSteps;
  }

  lemma TwoItemsEndedEarly(a: string, b: string) returns (trace: seq<Daemon>, steps: seq<Step>)
    requires a != "" && b != ""
    ensures IsRun(trace, steps, Initial(1), EndedEarly(QueueState([Item(a, 1, 1, 0, 0, 0), Item(b, 2, 2, 0, 0, 0)], 0), a))
    ensures forall step :: step in steps ==> !step.DoApplyUpdate?
  {
    var one := QueueState([Item(a, 1, 1, 0, 0, 0)], 0);
    var two := QueueState([Item(a, 1, 1, 0, 0, 0), Item(b, 2, 2, 0, 0, 0)], 0);
    trace, steps := FirstStreamStarts(a);
    var more, moreSteps := SecondItemArrives(a, b);
    Follow(trace, steps, more, moreSteps, Initial(1), FirstStream(one, a), FirstStream(two, a));
    trace, steps := trace + more[1..], steps + moreSteps;
    more, moreSteps := FirstStreamEndsEarly(two, a);
    Follow(trace, steps, more, moreSteps, Initial(1), FirstStream(two, a), EndedEarly(two, a));
    trace, steps := trace + more[1..], steps + moreSteps;
  }

  lemma SecondItemArrives(a: string, b: string) returns (trace: seq<Daemon>, steps: seq<Step>)
    requires a != "" && b != ""
    ensures IsRun(trace, steps, FirstStream(QueueState([Item(a, 1, 1, 0, 0, 0)], 0), a),
                  FirstStream(QueueState([Item(a, 1, 1, 0, 0, 0), Item(b, 2, 2, 0, 0, 0)], 0), a))
    ensures steps == [DoHandle(CmdAppend(b, 0, 0), 2, true, true)]
  {
    trace, steps := OneStep(FirstStream(QueueState([Item(a, 1, 1, 0, 0, 0)], 0), a), DoHandle(CmdAppend(b, 0, 0), 2, true, true));
  }

  lemma SkipReachesSecondItem(q: QueueState<Item>, a: string) returns (trace: seq<Daemon>, steps: seq<Step>, d: Daemon)
    requires q.cursor == 0 && |q.items| == 2 && q.items[1].firstSeq == 0 && q.items[1].storedBy == 2
    ensures IsRun(trace, steps, EndedEarly(q, a), d) && steps == [DoHandle(CmdSkipNext, 1, true, true)]
    ensures d.q.Head().Some? && d.q.Head().value.storedBy == 2
    ensures AllPasses(d.NotifyPlayer(0, 3, true).log) == AllPasses(d.log) + 1
  {
    var ended := EndedEarly(q, a);
    d := ended.Handle(CmdSkipNext, 1, true, true);
    assert d.q == q.(cursor := 1) && d.completions == ended.completions;
    PlayerReportPassesExactlyWhen(d, 0, 3, true);
    trace, steps := OneStep(ended, DoHandle(CmdSkipNext, 1, true, true));
  }

  // ----- a fixed list plays out -----

  /** Items from the current one to the end: how many passes are left. */
  function Left(q: QueueState<Item>): int {
    if q.cursor == -1 then 0 else |q.items| - q.cursor
  }

  /** Steps other than queue commands and queue updates. */
  predicate LeavesList(step: Step) {
    !step.DoHandle? && !step.DoApplyUpdate?
  }

  lemma CheckSpendsOneItem(d: Daemon, s: nat, canStream: bool)
    requires d.q.InRange()
    ensures var d' := d.Check(s, canStream);
      && d'.q.InRange() && |d'.q.items| == |d.q.items|
      && AllPasses(d'.log) + Left(d'.q) == AllPasses(d.log) + Left(d.q)
      && (d'.q.cursor == d.q.cursor || d'.q.cursor == d.q.Advance().cursor)
  {
    if d.Ready(s) {
      CheckWhenReady(d, s, canStream);
    } else {
      CheckWhenNotReady(d, s, canStream);
    }
  }

  lemma ExitSpendsOneItemPerPass(d: Daemon, c: nat, outcome: Outcome, canStream: bool)
    requires c in d.runner.routines && !d.runner.routines[c].phase.Spawned? && d.q.InRange()
    ensures var d' := d.Exit(c, outcome, canStream);
      && d'.q.InRange() && |d'.q.items| == |d.q.items|
      && AllPasses(d'.log) + Left(d'.q) == AllPasses(d.log) + Left(d.q)
      && (d'.q.cursor == d.q.cursor || d'.q.cursor == d.q.Advance().cursor)
  {
    var s := d.runner.routines[c].seqBase;
    LogGrows(d.log, EncoderReport(s));
    CheckSpendsOneItem(d.Quit(c).UpdateGlobal(d.ringNext).HearEncoder(s), s, canStream);
  }

  lemma NextSpendsOneItemPerPass(d: Daemon, step: Step)
    requires Enabled(d, step) && LeavesList(step) && d.q.InRange()
    ensures var d' := Next(d, step);
      && d'.q.InRange() && |d'.q.items| == |d.q.items|
      && AllPasses(d'.log) + Left(d'.q) == AllPasses(d.log) + Left(d.q)
      && (d'.q.cursor == d.q.cursor || d'.q.cursor == d.q.Advance().cursor)
  {
    match step
    case DoPlayer(s, p, canStream) =>
      LogGrows(d.log, PlayerReport(s, p));
      CheckSpendsOneItem(d.HearPlayer(s, p), s, canStream);
    case DoReact(canStream) =>
      ReactLog(d, canStream);
      LogGrows(d.log, Started(d.globalSeq, d.ringNext));
    case DoExit(c, outcome, canStream) => ExitSpendsOneItemPerPass(d, c, outcome, canStream);
    case _ =>
  }

  /**
   With a fixed list every pass moves on by exactly one item, so the passes made and the items
   left always add up, and at most as many passes as items are ever made.
   */
  lemma {:induction false} FixedListPlaysOut(trace: seq<Daemon>, steps: seq<Step>, n: nat)
    requires IsTrace(trace, steps) && n <= |steps| && trace[0].q.InRange()
    requires forall i :: 0 <= i < n ==> LeavesList(steps[i])
    ensures trace[n].q.InRange() && |trace[n].q.items| == |trace[0].q.items|
    ensures AllPasses(trace[n].log) + Left(trace[n].q) == AllPasses(trace[0].log) + Left(trace[0].q)
    ensures AllPasses(trace[n].log) - AllPasses(trace[0].log) <= |trace[0].q.items|
  {
    if n != 0 {
      FixedListPlaysOut(trace, steps, n - 1);
      NextSpendsOneItemPerPass(trace[n - 1], steps[n - 1]);
    }
  }
}
