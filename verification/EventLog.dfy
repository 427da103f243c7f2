/** Reading the log of a run: reports, passes and starts. */
module EventLog {
  import opened RoleManagers
  import opened DaemonSpec

  /** The reports for stream `s` since its last cleanup. */
  function Since(log: seq<Event>, s: nat): Completion {
    if log == [] then NO_REPORTS
    else
      var front := Since(log[..|log| - 1], s);
      match log[|log| - 1]
      case EncoderReport(t) => if t == s then front.(encoderFinished := true) else front
      case PlayerReport(t, p) => if t == s then front.(players := front.players + {p}) else front
      case Cleanup(t) => if t == s then NO_REPORTS else front
      case _ => front
  }

  function EncoderReports(log: seq<Event>, s: nat): nat {
    if log == [] then 0
    else EncoderReports(log[..|log| - 1], s) + if log[|log| - 1] == EncoderReport(s) then 1 else 0
  }

  function PlayerReports(log: seq<Event>, s: nat, p: PeerId): nat {
    if log == [] then 0
    else PlayerReports(log[..|log| - 1], s, p) + if log[|log| - 1] == PlayerReport(s, p) then 1 else 0
  }

  /** Passes for stream `s` whose head was stored by `p`. */
  function Passes(log: seq<Event>, s: nat, p: PeerId): nat {
    if log == [] then 0
    else Passes(log[..|log| - 1], s, p) + if log[|log| - 1] == Pass(s, p) then 1 else 0
  }

  function StreamPasses(log: seq<Event>, s: nat): nat {
    if log == [] then 0
    else StreamPasses(log[..|log| - 1], s) + if log[|log| - 1].Pass? && log[|log| - 1].stream == s then 1 else 0
  }

  function AllPasses(log: seq<Event>): nat {
    if log == [] then 0
    else AllPasses(log[..|log| - 1]) + if log[|log| - 1].Pass? then 1 else 0
  }

  /** A start at `base`, made when the ring stood at `nextBefore`. */
  datatype Start = Start(base: nat, nextBefore: nat)

  function StartsOf(log: seq<Event>): seq<Start> {
    if log == [] then []
    else
      var front, last := StartsOf(log[..|log| - 1]), log[|log| - 1];
      if last.Started? then front + [Start(last.base, last.nextBefore)] else front
  }

  /** How many streams were started at number `s`. */
  function StartsAt(starts: seq<Start>, s: nat): nat {
    if starts == [] then 0
    else StartsAt(starts[..|starts| - 1], s) + if starts[|starts| - 1].base == s then 1 else 0
  }

  lemma LogGrows(log: seq<Event>, e: Event)
    ensures (log + [e])[..|log|] == log && (log + [e])[|log|] == e
  {
  }

  // ----- what parts of a step do to the log -----

  /** React touches the log only by starting a stream, and never the completion states. */
  lemma ReactLog(d: Daemon, canStream: bool)
    ensures d.React(canStream).completions == d.completions && d.React(canStream).globalSeq == d.globalSeq
    ensures d.React(canStream).me == d.me
    ensures d.React(canStream).log == d.log || d.React(canStream).log == d.log + [Started(d.globalSeq, d.ringNext)]
    ensures d.React(canStream).q.cursor == d.q.cursor && |d.React(canStream).q.items| == |d.q.items|
  {
  }

  lemma ExecuteKeepsLog(d: Daemon, cmd: QueueCmd, sender: PeerId)
    requires !cmd.CmdUnknown?
    ensures d.Execute(cmd, sender).log == d.log && d.Execute(cmd, sender).completions == d.completions
    ensures d.Execute(cmd, sender).me == d.me
  {
  }

  /** The step makes a new context, and with it a start. */
  predicate Starts(d: Daemon, step: Step)
    requires Enabled(d, step)
  {
    Next(d, step).runner.lastCtx != d.runner.lastCtx
  }
}
