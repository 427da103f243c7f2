/**
 The streaming side of one daemon as a state machine: the queue controller, the runner life cycle
 of the node, and the next sequence number of its ring buffer. Every call of the controller or the
 node, and every exit of an encoder goroutine, is one atomic step.
 */
module DaemonSpec {
  import opened Wrappers
  import opened Queues
  import opened RoleManagers

  datatype Item = Item(path: string, storedBy: PeerId, addedBy: PeerId, firstSeq: nat, numSegs: nat, hlcTs: int)

  /** The reports received for one stream since its entry was last deleted. */
  datatype Completion = Completion(encoderFinished: bool, players: set<PeerId>)

  const NO_REPORTS := Completion(false, {})

  /** An encoder goroutine: about to call Start, inside it, or turned away by it as a duplicate. */
  datatype Phase = Spawned | Encoding | TurnedAway
  datatype Routine = Routine(path: string, seqBase: nat, phase: Phase)

  /**
   Contexts are numbered in the order they are made; `lastCtx` is the node's current one, 0 if
   there has been none. `isRunning`, `path` and `seqBase` belong to the one shared EncoderRunner.
   */
  datatype Runner = Runner(
    lastCtx: nat, cancelled: set<nat>, encoderLive: bool,
    isRunning: bool, path: string, seqBase: nat,
    routines: map<nat, Routine>)
  {
    /** The shared runner is marked as running this task. */
    predicate Marked(path: string, seqBase: nat) {
      isRunning && this.path == path && this.seqBase == seqBase
    }
  }

  /** What was last announced: the queue to the own clients and to the other peers, and the stream started. */
  datatype Told = Told(clients: seq<Item>, peers: seq<Item>, reset: Option<nat>)

  /** What happened, for statements about whole runs. */
  datatype Event =
    | EncoderReport(stream: nat)
    | PlayerReport(stream: nat, peer: PeerId)
    | Cleanup(stream: nat)
    | Pass(stream: nat, storer: PeerId)
    | Started(base: nat, nextBefore: nat)

  datatype QueueCmd =
    | CmdAppend(path: string, numSegs: nat, hlcTs: int)
    | CmdRemove(index: int) | CmdClear | CmdNext | CmdSkipPrev | CmdSkipNext | CmdUnknown

  /** How EncoderRunner.Start returned. */
  datatype Outcome = Eof | Cancelled | Failed

  datatype Daemon = Daemon(
    me: PeerId, q: QueueState<Item>, completions: map<nat, Completion>, globalSeq: nat,
    runner: Runner, ringNext: nat, log: seq<Event>, told: Told)
  {
    function Emit(e: Event): Daemon {
      this.(log := log + [e])
    }

    /** The queue is announced to everyone. */
    function Announce(): Daemon {
      this.(told := told.(clients := q.items, peers := q.items))
    }

    // ----- node -----

    function Stop(): Daemon {
      this.(runner := if runner.lastCtx != 0 then runner.(cancelled := runner.cancelled + {runner.lastCtx})
                      else runner.(encoderLive := false))
    }

    predicate HeadIsMine(canStream: bool) {
      q.Head().Some? && q.Head().value.storedBy == me && canStream
    }

    /** Starts an encoder for the head at `seqBase`: the previous context is cancelled, the ring reset. */
    function StartHead(seqBase: nat): Daemon
      requires q.Head().Some?
    {
      var head := q.Head().value;
      var ctx := runner.lastCtx + 1;
      var numbered := q.SetHead(head.(firstSeq := seqBase));
      this.(q := numbered,
            told := Told(numbered.items, numbered.items, Some(seqBase)),
            ringNext := seqBase,
            log := log + [Started(seqBase, ringNext)],
            runner := runner.(lastCtx := ctx,
                              cancelled := if runner.lastCtx != 0 then runner.cancelled + {runner.lastCtx} else runner.cancelled,
                              encoderLive := true,
                              routines := runner.routines[ctx := Routine(head.path, seqBase, Spawned)]))
    }

    function StopRunner(): Daemon {
      this.(runner := runner.(
        encoderLive := false,
        cancelled := if runner.isRunning && runner.lastCtx != 0 then runner.cancelled + {runner.lastCtx} else runner.cancelled))
    }

    function Ensure(path: string, seqBase: nat, canStream: bool): Daemon {
      if path != "" && HeadIsMine(canStream) && q.Head().value.path == path then
        if runner.Marked(path, seqBase) then this else StartHead(seqBase)
      else StopRunner()
    }

    function React(canStream: bool): Daemon {
      if HeadIsMine(canStream) then Ensure(q.Head().value.path, globalSeq, canStream) else Ensure("", 0, canStream)
    }

    // ----- controller -----

    function UpdateGlobal(next: nat): Daemon {
      this.(globalSeq := if next > globalSeq then next else globalSeq)
    }

    /** A skip stops the encoder and, if this node was streaming, accounts for what it produced. */
    function StopForSkip(): Daemon {
      if q.Head().Some? && q.Head().value.storedBy == me then Stop().UpdateGlobal(ringNext) else Stop()
    }

    /** The effect of a permitted command before the runner is re-evaluated. */
    function Execute(cmd: QueueCmd, sender: PeerId): Daemon
      requires !cmd.CmdUnknown?
    {
      match cmd
      case CmdAppend(path, numSegs, ts) =>
        if path == "" then this else this.(q := q.Append(Item(path, sender, sender, 0, numSegs, ts))).Announce()
      case CmdRemove(index) =>
        if 0 <= index < |q.items| then this.(q := q.Remove(index)).Announce() else this
      case CmdClear => this.(q := QueueState([], -1)).Stop().Announce()
      case CmdNext =>
        var moved := this.(q := q.Advance());
        if moved.q.Head().Some? then moved.Announce() else moved.Stop()
      case CmdSkipPrev =>
        var stopped := StopForSkip();
        stopped.(q := stopped.q.Rewind()).AnnounceMove()
      case CmdSkipNext =>
        var stopped := StopForSkip();
        stopped.(q := stopped.q.Advance()).AnnounceMove()
    }

    /** A skip that reached an item is announced. */
    function AnnounceMove(): Daemon {
      if q.Head().Some? then Announce() else this
    }

    /** A NEXT from the node itself needs no permission; everything else does. */
    predicate Permitted(cmd: QueueCmd, sender: PeerId, canQueue: bool) {
      (cmd.CmdNext? && sender == me) || canQueue
    }

    function Handle(cmd: QueueCmd, sender: PeerId, canQueue: bool, canStream: bool): Daemon {
      if Permitted(cmd, sender, canQueue) && !cmd.CmdUnknown? then Execute(cmd, sender).React(canStream) else this
    }

    predicate Ready(s: nat) {
      && s in completions && q.Head().Some? && q.Head().value.firstSeq == s
      && completions[s].encoderFinished && q.Head().value.storedBy in completions[s].players
    }

    function Forget(s: nat): Daemon {
      this.(completions := completions - {s}).Emit(Cleanup(s))
    }

    function Check(s: nat, canStream: bool): Daemon {
      if s !in completions then this
      else if q.Head().None? || q.Head().value.firstSeq != s then Forget(s)
      else if Ready(s) then Emit(Pass(s, q.Head().value.storedBy)).Handle(CmdNext, me, true, canStream).Forget(s)
      else this
    }

    function Reports(s: nat): Completion {
      if s in completions then completions[s] else NO_REPORTS
    }

    /** The encoder's report is recorded. */
    function HearEncoder(s: nat): Daemon {
      this.(completions := completions[s := Reports(s).(encoderFinished := true)]).Emit(EncoderReport(s))
    }

    /** A player's report is recorded. */
    function HearPlayer(s: nat, p: PeerId): Daemon {
      this.(completions := completions[s := Reports(s).(players := Reports(s).players + {p})]).Emit(PlayerReport(s, p))
    }

    function NotifyEncoder(s: nat, canStream: bool): Daemon {
      HearEncoder(s).Check(s, canStream)
    }

    function NotifyPlayer(s: nat, p: PeerId, canStream: bool): Daemon {
      HearPlayer(s, p).Check(s, canStream)
    }

    function ApplyUpdate(items: seq<Option<Item>>, canQueue: bool, canStream: bool): Daemon {
      if canQueue then Replaced(items).React(canStream) else this
    }

    /** A received list takes the place of the queue, and is passed on to the own clients. */
    function Replaced(items: seq<Option<Item>>): Daemon {
      var replaced := q.Replace(Decoded(items));
      this.(q := replaced, told := told.(clients := replaced.items))
    }

    // ----- encoder goroutines -----

    /** Start's first critical section: a duplicate of the running task is turned away. */
    function Begin(c: nat): Daemon
      requires c in runner.routines && runner.routines[c].phase.Spawned?
    {
      var g := runner.routines[c];
      if runner.Marked(g.path, g.seqBase) then
        this.(runner := runner.(routines := runner.routines[c := g.(phase := TurnedAway)]))
      else
        this.(runner := runner.(isRunning := true, path := g.path, seqBase := g.seqBase,
                                routines := runner.routines[c := g.(phase := Encoding)]))
    }

    /** The deferred cleanup of Start, which only a goroutine that was not turned away has; then it is gone. */
    function Release(c: nat): Daemon
      requires c in runner.routines
    {
      this.(runner := runner.(isRunning := runner.isRunning && runner.routines[c].phase.TurnedAway?,
                              routines := runner.routines - {c}))
    }

    /** The current goroutine is gone: nothing is encoded any more. */
    function Quit(c: nat): Daemon
      requires c in runner.routines
    {
      var done := Release(c);
      done.(runner := done.runner.(encoderLive := false))
    }

    /** Only the current, uncancelled goroutine reports, and only an end of file. */
    predicate WillReport(c: nat, outcome: Outcome) {
      c == runner.lastCtx && c !in runner.cancelled && outcome.Eof?
    }

    /** Start returned: its deferred cleanup, then the superseded check, then the reports. */
    function Exit(c: nat, outcome: Outcome, canStream: bool): Daemon
      requires c in runner.routines && !runner.routines[c].phase.Spawned?
    {
      if runner.lastCtx != c then Release(c)
      else if WillReport(c, outcome) then Quit(c).UpdateGlobal(ringNext).NotifyEncoder(runner.routines[c].seqBase, canStream)
      else Quit(c)
    }
  }

  function Decoded(items: seq<Option<Item>>): seq<Item> {
    if items == [] then []
    else
      var front := Decoded(items[..|items| - 1]);
      match items[|items| - 1]
      case Some(it) => front + [it]
      case None => front
  }

  /** The initial state of a daemon with an empty queue. */
  function Initial(me: PeerId): Daemon {
    Daemon(me, QueueState([], -1), map[], 0, Runner(0, {}, false, false, "", 0, map[]), 0, [], Told([], [], None))
  }

  // ----- runs -----

  /**
   `canQueue`, `canStream`: the permission masks as read at that step. `DoIngest(s, maker)`: a segment
   arrives that the encoder of context `maker` made, or another peer if there is no such context.
   */
  datatype Step =
    | DoHandle(cmd: QueueCmd, sender: PeerId, canQueue: bool, canStream: bool)
    | DoApplyUpdate(items: seq<Option<Item>>, canQueue: bool, canStream: bool)
    | DoPlayer(stream: nat, peer: PeerId, canStream: bool)
    | DoReact(canStream: bool)
    | DoBegin(ctx: nat)
    | DoExit(ctx: nat, outcome: Outcome, canStream: bool)
    | DoIngest(s: nat, maker: nat)
    | DoForeignReset(base: nat)

  predicate Enabled(d: Daemon, step: Step) {
    match step
    case DoBegin(c) => c in d.runner.routines && d.runner.routines[c].phase.Spawned?
    case DoExit(c, outcome, _) =>
      && c in d.runner.routines && !d.runner.routines[c].phase.Spawned?
      && (d.runner.routines[c].phase.TurnedAway? ==> outcome.Eof?)
    case _ => true
  }

  function Next(d: Daemon, step: Step): Daemon
    requires Enabled(d, step)
  {
    match step
    case DoHandle(cmd, sender, canQueue, canStream) => d.Handle(cmd, sender, canQueue, canStream)
    case DoApplyUpdate(items, canQueue, canStream) => d.ApplyUpdate(items, canQueue, canStream)
    case DoPlayer(s, p, canStream) => d.NotifyPlayer(s, p, canStream)
    case DoReact(canStream) => d.React(canStream)
    case DoBegin(c) => d.Begin(c)
    case DoExit(c, outcome, canStream) => d.Exit(c, outcome, canStream)
    case DoIngest(s, _) => d.(ringNext := Max(d.ringNext, s + 1))
    case DoForeignReset(base) => d.(ringNext := base)
  }

  /** States of a run: trace[0] is the start, and each step leads to the next state. */
  ghost predicate IsTrace(trace: seq<Daemon>, steps: seq<Step>) {
    && |trace| == |steps| + 1
    && forall i :: 0 <= i < |steps| ==> Enabled(trace[i], steps[i]) && trace[i + 1] == Next(trace[i], steps[i])
  }

  /** A run from `d` to `d'`. */
  ghost predicate IsRun(trace: seq<Daemon>, steps: seq<Step>, d: Daemon, d': Daemon) {
    IsTrace(trace, steps) && trace[0] == d && trace[|steps|] == d'
  }

  lemma OneStep(d: Daemon, step: Step) returns (trace: seq<Daemon>, steps: seq<Step>)
    requires Enabled(d, step)
    ensures IsRun(trace, steps, d, Next(d, step)) && steps == [step] && trace == [d, Next(d, step)]
  {
    trace, steps := [d, Next(d, step)], [step];
  }

  lemma Follow(g: seq<Daemon>, g': seq<Step>, h: seq<Daemon>, h': seq<Step>, a: Daemon, b: Daemon, c: Daemon)
    requires IsRun(g, g', a, b) && IsRun(h, h', b, c)
    ensures IsRun(g + h[1..], g' + h', a, c)
  {
    var trace, steps := g + h[1..], g' + h';
    forall i | 0 <= i < |steps| ensures Enabled(trace[i], steps[i]) && trace[i + 1] == Next(trace[i], steps[i]) {
      if i < |g'| {
        assert trace[i] == g[i] && trace[i + 1] == g[i + 1] && steps[i] == g'[i];
      } else {
        assert trace[i] == h[i - |g'|] && trace[i + 1] == h[i - |g'| + 1] && steps[i] == h'[i - |g'|];
      }
    }
  }
}
