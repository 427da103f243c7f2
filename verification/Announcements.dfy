/** What the own clients and the other peers have been told of the queue and of the stream. */
module Announcements {
  import opened Wrappers
  import opened Queues
  import opened RoleManagers
  import opened DaemonSpec
  import opened EventLog

  ghost predicate ClientsKnow(d: Daemon) {
    d.told.clients == d.q.items
  }

  ghost predicate PeersKnow(d: Daemon) {
    d.told.peers == d.q.items
  }

  /** The stream announced is the one started last. */
  ghost predicate ResetIsCurrent(d: Daemon) {
    var starts := StartsOf(d.log);
    d.told.reset == if starts == [] then None else Some(starts[|starts| - 1].base)
  }

  /** What a step keeps: the clients' knowledge, the peers' too if they had it, and the reset's. */
  ghost predicate KeepsKnown(d: Daemon, d': Daemon) {
    && (ClientsKnow(d) ==> ClientsKnow(d'))
    && (ClientsKnow(d) && PeersKnow(d) ==> PeersKnow(d'))
    && (ResetIsCurrent(d) ==> ResetIsCurrent(d'))
  }

  /** A start is announced, with the number it gives the current item. */
  lemma StartKeepsKnown(d: Daemon, d': Daemon, base: nat)
    requires d'.log == d.log + [Started(base, d.ringNext)] && d'.told == Told(d'.q.items, d'.q.items, Some(base))
    ensures KeepsKnown(d, d')
  {
    LogGrows(d.log, Started(base, d.ringNext));
  }

  lemma ReactKeepsKnown(d: Daemon, canStream: bool)
    ensures KeepsKnown(d, d.React(canStream))
  {
    var d' := d.React(canStream);
    if d'.runner.lastCtx != d.runner.lastCtx {
      assert d' == d.StartHead(d.globalSeq);
      StartKeepsKnown(d, d', d.globalSeq);
    } else {
      assert d'.q == d.q && d'.told == d.told && d'.log == d.log;
    }
  }

  lemma ExecuteKeepsKnown(d: Daemon, cmd: QueueCmd, sender: PeerId)
    requires !cmd.CmdUnknown?
    ensures KeepsKnown(d, d.Execute(cmd, sender))
  {
    ExecuteKeepsLog(d, cmd, sender);
  }

  lemma HandleKeepsKnown(d: Daemon, cmd: QueueCmd, sender: PeerId, canQueue: bool, canStream: bool)
    ensures KeepsKnown(d, d.Handle(cmd, sender, canQueue, canStream))
  {
    if !cmd.CmdUnknown? {
      ExecuteKeepsKnown(d, cmd, sender);
      ReactKeepsKnown(d.Execute(cmd, sender), canStream);
    }
  }

  lemma EventKeepsKnown(d: Daemon, e: Event, d': Daemon)
    requires !e.Started? && d'.log == d.log + [e] && d'.q == d.q && d'.told == d.told
    ensures KeepsKnown(d, d')
  {
    LogGrows(d.log, e);
  }

  lemma CheckKeepsKnown(d: Daemon, s: nat, canStream: bool)
    ensures KeepsKnown(d, d.Check(s, canStream))
  {
    EventKeepsKnown(d, Cleanup(s), d.Forget(s));
    if d.Ready(s) {
      var e := Pass(s, d.q.Head().value.storedBy);
      EventKeepsKnown(d, e, d.Emit(e));
      HandleKeepsKnown(d.Emit(e), CmdNext, d.me, true, canStream);
      var moved := d.Emit(e).Handle(CmdNext, d.me, true, canStream);
      EventKeepsKnown(moved, Cleanup(s), moved.Forget(s));
    }
  }

  lemma ExitKeepsKnown(d: Daemon, c: nat, outcome: Outcome, canStream: bool)
    requires c in d.runner.routines && !d.runner.routines[c].phase.Spawned?
    ensures KeepsKnown(d, d.Exit(c, outcome, canStream))
  {
    if d.WillReport(c, outcome) {
      var s := d.runner.routines[c].seqBase;
      var told := d.Quit(c).UpdateGlobal(d.ringNext).HearEncoder(s);
      EventKeepsKnown(d, EncoderReport(s), told);
      CheckKeepsKnown(told, s, canStream);
    }
  }

  /** A received list is passed on to the own clients only. */
  predicate ReplacesQueue(step: Step) {
    step.DoApplyUpdate? && step.canQueue
  }

  lemma NextKeepsKnown(d: Daemon, step: Step)
    requires Enabled(d, step) && ClientsKnow(d) && ResetIsCurrent(d)
    ensures ClientsKnow(Next(d, step)) && ResetIsCurrent(Next(d, step))
    ensures PeersKnow(d) && !ReplacesQueue(step) ==> PeersKnow(Next(d, step))
  {
    match step
    case DoHandle(cmd, sender, canQueue, canStream) => HandleKeepsKnown(d, cmd, sender, canQueue, canStream);
    case DoApplyUpdate(items, canQueue, canStream) =>
      if canQueue {
        ReactKeepsKnown(d.Replaced(items), canStream);
      }
    case DoPlayer(s, p, canStream) =>
      EventKeepsKnown(d, PlayerReport(s, p), d.HearPlayer(s, p));
      CheckKeepsKnown(d.HearPlayer(s, p), s, canStream);
    case DoReact(canStream) => ReactKeepsKnown(d, canStream);
    case DoExit(c, outcome, canStream) => ExitKeepsKnown(d, c, outcome, canStream);
    case _ =>
  }

  lemma InitiallyKnown(me: PeerId)
    ensures ClientsKnow(Initial(me)) && PeersKnow(Initial(me)) && ResetIsCurrent(Initial(me))
  {
  }

  ghost predicate NoneReplaces(steps: seq<Step>, n: nat)
    requires n <= |steps|
  {
    forall i :: 0 <= i < n ==> !ReplacesQueue(steps[i])
  }

  lemma {:induction false} RunKeepsKnown(trace: seq<Daemon>, steps: seq<Step>, n: nat)
    requires IsTrace(trace, steps) && n <= |steps| && ClientsKnow(trace[0]) && ResetIsCurrent(trace[0])
    ensures ClientsKnow(trace[n]) && ResetIsCurrent(trace[n])
  {
    if n != 0 {
      var m := n - 1;
      RunKeepsKnown(trace, steps, m);
      NextKeepsKnown(trace[m], steps[m]);
    }
  }

  lemma {:induction false} RunKeepsPeersInformed(trace: seq<Daemon>, steps: seq<Step>, n: nat)
    requires IsTrace(trace, steps) && n <= |steps| && ClientsKnow(trace[0]) && ResetIsCurrent(trace[0])
    requires PeersKnow(trace[0]) && NoneReplaces(steps, n)
    ensures PeersKnow(trace[n])
  {
    if n != 0 {
      var m := n - 1;
      RunKeepsPeersInformed(trace, steps, m);
      RunKeepsKnown(trace, steps, m);
      NextKeepsKnown(trace[m], steps[m]);
    }
  }

  /** A received list is not announced to the other peers, unless it makes this node start a stream. */
  lemma UpdateTellsOnlyClients(d: Daemon, items: seq<Option<Item>>, canQueue: bool, canStream: bool)
    ensures var d' := d.ApplyUpdate(items, canQueue, canStream);
      d'.runner.lastCtx == d.runner.lastCtx ==> d'.told.peers == d.told.peers && d'.told.reset == d.told.reset
  {
  }

  /**
   In every state of every run the own clients have been told the queue as it stands and the stream
   started last; the other peers have been told the queue too, if no list received from one of
   them has replaced it.
   */
  lemma AnnouncedIsCurrent(me: PeerId, trace: seq<Daemon>, steps: seq<Step>, n: nat)
    requires IsTrace(trace, steps) && trace[0] == Initial(me) && n <= |steps|
    ensures ClientsKnow(trace[n]) && ResetIsCurrent(trace[n])
    ensures NoneReplaces(steps, n) ==> PeersKnow(trace[n])
  {
    InitiallyKnown(me);
    RunKeepsKnown(trace, steps, n);
    if NoneReplaces(steps, n) {
      RunKeepsPeersInformed(trace, steps, n);
    }
  }

  /** The command reaches an item, or changes the list. */
  predicate HasEffect(d: Daemon, cmd: QueueCmd) {
    match cmd
    case CmdAppend(path, _, _) => path != ""
    case CmdRemove(index) => 0 <= index < |d.q.items|
    case CmdClear => true
    case CmdNext | CmdSkipNext => 0 <= d.q.cursor < |d.q.items| - 1
    case CmdSkipPrev => 0 < d.q.cursor < |d.q.items|
    case CmdUnknown => false
  }

  /** A permitted command is announced to everyone exactly if it has an effect, or makes this node start a stream. */
  lemma EffectsAreAnnounced(d: Daemon, cmd: QueueCmd, sender: PeerId, canStream: bool)
    requires d.q.InRange()
    ensures var d' := d.Handle(cmd, sender, true, canStream);
      if HasEffect(d, cmd) || d'.runner.lastCtx != d.runner.lastCtx then d'.told.clients == d'.q.items == d'.told.peers
      else d'.told == d.told
  {
    if !cmd.CmdUnknown? {
      var done := d.Execute(cmd, sender);
      ExecuteAnnouncesEffects(d, cmd, sender);
      ReactAnnouncesStarts(done, canStream);
    }
  }

  lemma ExecuteAnnouncesEffects(d: Daemon, cmd: QueueCmd, sender: PeerId)
    requires d.q.InRange() && !cmd.CmdUnknown?
    ensures var done := d.Execute(cmd, sender);
      && done.runner.lastCtx == d.runner.lastCtx
      && (HasEffect(d, cmd) ==> done.told == Told(done.q.items, done.q.items, d.told.reset))
      && (!HasEffect(d, cmd) ==> done.told == d.told)
  {
    if cmd == CmdSkipPrev || cmd == CmdSkipNext {
      SkipAnnouncesMoves(d, cmd, sender);
    }
  }

  lemma SkipAnnouncesMoves(d: Daemon, cmd: QueueCmd, sender: PeerId)
    requires d.q.InRange() && (cmd == CmdSkipPrev || cmd == CmdSkipNext)
    ensures var done := d.Execute(cmd, sender);
      && done.runner.lastCtx == d.runner.lastCtx
      && done.told == if HasEffect(d, cmd) then Told(done.q.items, done.q.items, d.told.reset) else d.told
  {
    var stopped := d.StopForSkip();
    assert stopped.q == d.q && stopped.told == d.told && stopped.runner.lastCtx == d.runner.lastCtx;
  }

  lemma ReactAnnouncesStarts(d: Daemon, canStream: bool)
    ensures var d' := d.React(canStream);
      if d'.runner.lastCtx != d.runner.lastCtx then d'.told.clients == d'.q.items == d'.told.peers
      else d'.told == d.told && d'.q == d.q
  {
  }
}
