/** What each command, update and report does to the queue and to the encoder, as seen from outside. */
module Commands {
  import opened Wrappers
  import opened Queues
  import opened RoleManagers
  import opened DaemonSpec
  import opened EventLog
  import BatonPass

  // ----- the queue a step leads to -----

  /** The same item, up to the number of its stream. */
  predicate SameItem(x: Item, y: Item) {
    x == y.(firstSeq := x.firstSeq)
  }

  /** The queue holds these items with the cursor there; only the current one may have got a new number. */
  ghost predicate Plays(d: Daemon, items: seq<Item>, cursor: int) {
    && d.q.cursor == cursor && |d.q.items| == |items|
    && (forall i :: 0 <= i < |items| && i != cursor ==> d.q.items[i] == items[i])
    && (0 <= cursor < |items| ==> SameItem(d.q.items[cursor], items[cursor]))
  }

  /** Re-evaluation never changes which item plays. */
  lemma ReactKeepsPlaying(d: Daemon, canStream: bool)
    ensures Plays(d.React(canStream), d.q.items, d.q.cursor)
  {
  }

  /** Without the permission nothing happens, unless the node itself asks for the next item. */
  lemma RefusedChangesNothing(d: Daemon, cmd: QueueCmd, sender: PeerId, canStream: bool)
    requires cmd != CmdNext || sender != d.me
    ensures d.Handle(cmd, sender, false, canStream) == d
  {
  }

  lemma UnknownChangesNothing(d: Daemon, sender: PeerId, canQueue: bool, canStream: bool)
    ensures d.Handle(CmdUnknown, sender, canQueue, canStream) == d
  {
  }

  /** A permitted append puts the sender's item behind all others, and plays it if nothing plays. */
  lemma AppendAppends(d: Daemon, path: string, numSegs: nat, ts: int, sender: PeerId, canStream: bool)
    requires d.q.InRange()
    ensures var d' := d.Handle(CmdAppend(path, numSegs, ts), sender, true, canStream);
      if path == "" then Plays(d', d.q.items, d.q.cursor)
      else Plays(d', d.q.items + [Item(path, sender, sender, 0, numSegs, ts)], if d.q.cursor == -1 then |d.q.items| else d.q.cursor)
  {
    if path != "" {
      ReactKeepsPlaying(d.Execute(CmdAppend(path, numSegs, ts), sender), canStream);
    } else {
      ReactKeepsPlaying(d, canStream);
    }
  }

  /** A permitted removal takes one item out; the cursor stays with its item, or goes to the successor, or the new last one. */
  lemma RemoveRemoves(d: Daemon, index: int, sender: PeerId, canStream: bool)
    requires d.q.InRange()
    ensures var d' := d.Handle(CmdRemove(index), sender, true, canStream);
      if index < 0 || |d.q.items| <= index then Plays(d', d.q.items, d.q.cursor)
      else Plays(d', d.q.items[..index] + d.q.items[index + 1..],
                 if index < d.q.cursor || (index == d.q.cursor == |d.q.items| - 1) then d.q.cursor - 1 else d.q.cursor)
  {
    var cmd := CmdRemove(index);
    var done := d.Execute(cmd, sender);
    ReactKeepsPlaying(done, canStream);
    RemovedQueue(d.q, index);
    assert done.q == d.q.Remove(index);
    assert d.Handle(cmd, sender, true, canStream) == done.React(canStream);
  }

  lemma RemovedQueue(q: QueueState<Item>, index: int)
    requires q.InRange()
    ensures index < 0 || |q.items| <= index ==> q.Remove(index) == q
    ensures 0 <= index < |q.items| ==>
      q.Remove(index) == QueueState(q.items[..index] + q.items[index + 1..],
                                    if index < q.cursor || (index == q.cursor == |q.items| - 1) then q.cursor - 1 else q.cursor)
  {
    if 0 <= index < |q.items| {
      assert |q.items[..index] + q.items[index + 1..]| == |q.items| - 1;
    }
  }

  lemma ClearClears(d: Daemon, sender: PeerId, canStream: bool)
    ensures Plays(d.Handle(CmdClear, sender, true, canStream), [], -1)
  {
    ReactKeepsPlaying(d.Execute(CmdClear, sender), canStream);
  }

  /** Where a move ends: at the neighbour, or nowhere if there is none or nothing played. */
  function After(d: Daemon): int {
    if 0 <= d.q.cursor < |d.q.items| - 1 then d.q.cursor + 1 else -1
  }

  function Before(d: Daemon): int {
    if 0 < d.q.cursor then d.q.cursor - 1 else -1
  }

  /** A permitted NEXT or SKIP_NEXT plays the next item, and SKIP_PREV the one before. */
  lemma MovesMove(d: Daemon, sender: PeerId, canStream: bool)
    requires d.q.InRange()
    ensures Plays(d.Handle(CmdNext, sender, true, canStream), d.q.items, After(d))
    ensures Plays(d.Handle(CmdNext, d.me, false, canStream), d.q.items, After(d))
    ensures Plays(d.Handle(CmdSkipNext, sender, true, canStream), d.q.items, After(d))
    ensures Plays(d.Handle(CmdSkipPrev, sender, true, canStream), d.q.items, Before(d))
  {
    NextPlays(d, canStream);
    SkipPlays(d, canStream);
  }

  lemma NextPlays(d: Daemon, canStream: bool)
    requires d.q.InRange()
    ensures forall sender :: Plays(d.Execute(CmdNext, sender).React(canStream), d.q.items, After(d))
  {
    forall sender ensures Plays(d.Execute(CmdNext, sender).React(canStream), d.q.items, After(d)) {
      var done := d.Execute(CmdNext, sender);
      assert done.q == QueueState(d.q.items, After(d));
      ReactKeepsPlaying(done, canStream);
    }
  }

  lemma SkipPlays(d: Daemon, canStream: bool)
    requires d.q.InRange()
    ensures forall sender :: Plays(d.Execute(CmdSkipNext, sender).React(canStream), d.q.items, After(d))
    ensures forall sender :: Plays(d.Execute(CmdSkipPrev, sender).React(canStream), d.q.items, Before(d))
  {
    forall sender
      ensures Plays(d.Execute(CmdSkipNext, sender).React(canStream), d.q.items, After(d))
      ensures Plays(d.Execute(CmdSkipPrev, sender).React(canStream), d.q.items, Before(d))
    {
      var next, prev := d.Execute(CmdSkipNext, sender), d.Execute(CmdSkipPrev, sender);
      assert d.StopForSkip().q == d.q;
      assert next.q == QueueState(d.q.items, After(d));
      assert prev.q == QueueState(d.q.items, Before(d));
      ReactKeepsPlaying(next, canStream);
      ReactKeepsPlaying(prev, canStream);
    }
  }

  /** Skipping on and back returns to the same item exactly unless the skip ran off the end. */
  lemma SkipBackUndoesSkipExactlyUnless(d: Daemon, sender: PeerId, canStream: bool, other: PeerId, canStreamThen: bool)
    requires d.q.InRange()
    ensures d.Handle(CmdSkipNext, sender, true, canStream).Handle(CmdSkipPrev, other, true, canStreamThen).q.cursor == d.q.cursor
       <==> !(0 <= d.q.cursor == |d.q.items| - 1)
  {
    var skipped := d.Handle(CmdSkipNext, sender, true, canStream);
    MovesMove(d, sender, canStream);
    MovesMove(skipped, other, canStreamThen);
  }

  /** A permitted update puts the list's decodable items in place of the queue; the cursor stays where it still reaches. */
  lemma UpdateReplaces(d: Daemon, items: seq<Option<Item>>, canStream: bool)
    requires d.q.InRange()
    ensures var list := Decoded(items);
      Plays(d.ApplyUpdate(items, true, canStream), list,
            if list == [] then -1 else if d.q.cursor == -1 then 0
            else if d.q.cursor < |list| then d.q.cursor else |list| - 1)
    ensures d.ApplyUpdate(items, false, canStream) == d
  {
    ReplaceKeepsCursorWhereItReaches(d.q, Decoded(items));
    ReactKeepsPlaying(d.Replaced(items), canStream);
  }

  /** The decodable items are taken one by one, in order. */
  lemma {:induction false} DecodedConcat(g: seq<Option<Item>>, h: seq<Option<Item>>)
    ensures Decoded(g + h) == Decoded(g) + Decoded(h)
    ensures forall it :: Decoded([Some(it)]) == [it]
    ensures Decoded([None]) == []
  {
    assert forall x: Option<Item> :: [x][..0] == [];
    if h == [] {
      assert g + h == g;
    } else {
      assert (g + h)[..|g + h| - 1] == g + h[..|h| - 1];
      DecodedConcat(g, h[..|h| - 1]);
    }
  }

  // ----- the encoder -----

  /** This node stores the current item, and may stream. */
  predicate MustStream(d: Daemon, canStream: bool) {
    canStream && 0 <= d.q.cursor < |d.q.items| && d.q.items[d.q.cursor].storedBy == d.me && d.q.items[d.q.cursor].path != ""
  }

  /** The shared runner is marked as encoding the current item from the next start number. */
  predicate EncodesCurrent(d: Daemon) {
    && 0 <= d.q.cursor < |d.q.items|
    && d.runner.isRunning && d.runner.path == d.q.items[d.q.cursor].path && d.runner.seqBase == d.globalSeq
  }

  /** A new goroutine is to encode the current item, which has its number, into an emptied ring; no other may go on. */
  ghost predicate StartsCurrent(d: Daemon, d': Daemon) {
    && 0 <= d.q.cursor < |d.q.items| && d'.q.items == d.q.items[d.q.cursor := d.q.items[d.q.cursor].(firstSeq := d.globalSeq)]
    && d'.runner.lastCtx == d.runner.lastCtx + 1 && d'.runner.lastCtx in d'.runner.routines
    && d'.runner.routines[d'.runner.lastCtx] == Routine(d.q.items[d.q.cursor].path, d.globalSeq, Spawned)
    && (d.runner.lastCtx != 0 ==> d.runner.lastCtx in d'.runner.cancelled)
    && d'.runner.encoderLive && d'.ringNext == d.globalSeq
  }

  /** Nothing is started, and what runs is cancelled. */
  ghost predicate StopsEncoding(d: Daemon, d': Daemon) {
    && d'.q == d.q && d'.ringNext == d.ringNext && d'.log == d.log
    && d'.runner.lastCtx == d.runner.lastCtx && d'.runner.routines == d.runner.routines && !d'.runner.encoderLive
    && (d.runner.isRunning && d.runner.lastCtx != 0 ==> d.runner.lastCtx in d'.runner.cancelled)
  }

  /** After every re-evaluation the current item is encoded if and only if this node stores it and may stream. */
  lemma ReactStreamsExactlyWhenItMust(d: Daemon, canStream: bool)
    ensures var d' := d.React(canStream);
      if !MustStream(d, canStream) then StopsEncoding(d, d')
      else if EncodesCurrent(d) then d' == d
      else StartsCurrent(d, d')
  {
  }

  /** Nothing else starts an encoder: whenever one is started, the current item is this node's own and it may stream. */
  lemma StartNeedsOwnItem(d: Daemon, step: Step)
    requires Enabled(d, step) && Starts(d, step)
    ensures step.DoHandle? || step.DoApplyUpdate? || step.DoPlayer? || step.DoReact? || step.DoExit?
    ensures step.canStream && Next(d, step).q.Head().Some? && Next(d, step).q.Head().value.storedBy == d.me
  {
    match step
    case DoHandle(cmd, sender, canQueue, canStream) => HandleNeedsOwnItem(d, cmd, sender, canQueue, canStream);
    case DoApplyUpdate(items, canQueue, canStream) => ReactNeedsOwnItem(d.Replaced(items), canStream);
    case DoPlayer(s, p, canStream) => CheckNeedsOwnItem(d.HearPlayer(s, p), s, canStream);
    case DoReact(canStream) => ReactNeedsOwnItem(d, canStream);
    case DoExit(c, outcome, canStream) =>
      if d.WillReport(c, outcome) {
        var s := d.runner.routines[c].seqBase;
        CheckNeedsOwnItem(d.Quit(c).UpdateGlobal(d.ringNext).HearEncoder(s), s, canStream);
      }
  }

  ghost predicate OwnHead(d: Daemon, me: PeerId) {
    d.q.Head().Some? && d.q.Head().value.storedBy == me
  }

  lemma ReactNeedsOwnItem(d: Daemon, canStream: bool)
    ensures var d' := d.React(canStream); d'.runner.lastCtx != d.runner.lastCtx ==> canStream && OwnHead(d', d.me)
  {
  }

  lemma HandleNeedsOwnItem(d: Daemon, cmd: QueueCmd, sender: PeerId, canQueue: bool, canStream: bool)
    ensures var d' := d.Handle(cmd, sender, canQueue, canStream);
      d'.runner.lastCtx != d.runner.lastCtx ==> canStream && OwnHead(d', d.me)
  {
    if !cmd.CmdUnknown? {
      ExecuteKeepsLog(d, cmd, sender);
      assert d.Execute(cmd, sender).runner.lastCtx == d.runner.lastCtx;
      ReactNeedsOwnItem(d.Execute(cmd, sender), canStream);
    }
  }

  lemma CheckNeedsOwnItem(d: Daemon, s: nat, canStream: bool)
    ensures var d' := d.Check(s, canStream);
      d'.runner.lastCtx != d.runner.lastCtx ==> canStream && OwnHead(d', d.me)
  {
    if d.Ready(s) {
      HandleNeedsOwnItem(d.Emit(Pass(s, d.q.Head().value.storedBy)), CmdNext, d.me, true, canStream);
    }
  }

  /** CLEAR, both skips, and NEXT from the last item cancel what is being encoded. */
  lemma MovingOnCancels(d: Daemon, cmd: QueueCmd, sender: PeerId, canStream: bool)
    requires d.q.InRange() && d.runner.lastCtx != 0
    requires cmd == CmdClear || cmd == CmdSkipPrev || cmd == CmdSkipNext || (cmd == CmdNext && After(d) == -1)
    ensures d.runner.lastCtx in d.Handle(cmd, sender, true, canStream).runner.cancelled
  {
    StopCancels(d, cmd, sender);
    ReactOnlyCancels(d.Execute(cmd, sender), canStream);
  }

  lemma StopCancels(d: Daemon, cmd: QueueCmd, sender: PeerId)
    requires d.q.InRange() && d.runner.lastCtx != 0
    requires cmd == CmdClear || cmd == CmdSkipPrev || cmd == CmdSkipNext || (cmd == CmdNext && After(d) == -1)
    ensures d.runner.lastCtx in d.Execute(cmd, sender).runner.cancelled
  {
    if cmd == CmdNext {
      assert d.q.Advance().Head().None?;
    } else {
      assert d.runner.lastCtx in d.StopForSkip().runner.cancelled;
    }
  }

  lemma ReactOnlyCancels(d: Daemon, canStream: bool)
    ensures d.runner.cancelled <= d.React(canStream).runner.cancelled
  {
  }

  /** Stopping cancels the current context; without one the node is not live. Nothing else changes. */
  lemma StopLeavesNothingEncoding(d: Daemon)
    ensures var d' := d.Stop();
      && (d.runner.lastCtx != 0 ==> d' == d.(runner := d.runner.(cancelled := d.runner.cancelled + {d.runner.lastCtx})))
      && (d.runner.lastCtx == 0 ==> d' == d.(runner := d.runner.(encoderLive := false)))
  {
  }

  /** A skip of an own item, but no other command, makes the next stream start above all that was produced. */
  lemma SkipAccountsForOwnItem(d: Daemon, cmd: QueueCmd, sender: PeerId, canStream: bool)
    requires !cmd.CmdUnknown?
    ensures var d' := d.Handle(cmd, sender, true, canStream);
      d'.globalSeq == if (cmd == CmdSkipPrev || cmd == CmdSkipNext) && OwnHead(d, d.me) then Max(d.globalSeq, d.ringNext) else d.globalSeq
  {
    ReactLog(d.Execute(cmd, sender), canStream);
  }

  // ----- reports -----

  /** The encoder's report advances the queue exactly when it completes the head's pair of reports. */
  lemma EncoderReportPassesExactlyWhen(d: Daemon, s: nat, canStream: bool)
    ensures AllPasses(d.NotifyEncoder(s, canStream).log) == AllPasses(d.log) + 1 <==>
            IsCurrentStream(d, s) && d.q.Head().value.storedBy in d.Reports(s).players
    ensures AllPasses(d.log) <= AllPasses(d.NotifyEncoder(s, canStream).log) <= AllPasses(d.log) + 1
  {
    var told := d.HearEncoder(s);
    LogGrows(d.log, EncoderReport(s));
    if told.Ready(s) {
      BatonPass.CheckWhenReady(told, s, canStream);
    } else {
      BatonPass.CheckWhenNotReady(told, s, canStream);
    }
  }

  /**
   Reports of a stream that is not the current item's are forgotten, with those before; those of the
   current one are on record until they are complete. Other streams' are never touched.
   */
  lemma ReportsAreKeptWhileCurrent(d: Daemon, s: nat, p: PeerId, canStream: bool)
    ensures var d' := d.NotifyPlayer(s, p, canStream);
      && (!IsCurrentStream(d, s) ==> d'.completions == d.completions - {s} && d'.q == d.q)
      && (IsCurrentStream(d, s) && !d.HearPlayer(s, p).Ready(s) ==>
            d'.completions == d.completions[s := d.Reports(s).(players := d.Reports(s).players + {p})] && d'.q == d.q)
    ensures var d' := d.NotifyEncoder(s, canStream);
      && (!IsCurrentStream(d, s) ==> d'.completions == d.completions - {s} && d'.q == d.q)
      && (IsCurrentStream(d, s) && !d.HearEncoder(s).Ready(s) ==>
            d'.completions == d.completions[s := d.Reports(s).(encoderFinished := true)] && d'.q == d.q)
  {
    assert d.completions[s := d.HearPlayer(s, p).completions[s]] - {s} == d.completions - {s};
    assert d.completions[s := d.HearEncoder(s).completions[s]] - {s} == d.completions - {s};
  }

  /** A pass leaves no report of its stream, and all others. */
  lemma PassUsesUpReports(d: Daemon, s: nat, canStream: bool)
    requires d.Ready(s)
    ensures d.Check(s, canStream).completions == d.completions - {s}
  {
    var passed := d.Emit(Pass(s, d.q.Head().value.storedBy));
    ExecuteKeepsLog(passed, CmdNext, passed.me);
    ReactLog(passed.Execute(CmdNext, passed.me), canStream);
  }

  // ----- the ring -----

  /** A segment moves the ring on to at least its own number, a foreign reset to its own; nothing else changes. */
  lemma RingFollows(d: Daemon, s: nat, maker: nat, base: nat)
    ensures Next(d, DoIngest(s, maker)) == d.(ringNext := if d.ringNext <= s then s + 1 else d.ringNext)
    ensures Next(d, DoForeignReset(base)) == d.(ringNext := base)
  {
  }

  /** Stream `s` is the current item's. */
  predicate IsCurrentStream(d: Daemon, s: nat) {
    d.q.Head().Some? && d.q.Head().value.firstSeq == s
  }

  /** A goroutine that returns when its context is current, but does not report, only ends the encoding. */
  lemma CurrentExitEndsEncoding(d: Daemon, c: nat, outcome: Outcome, canStream: bool)
    requires c in d.runner.routines && !d.runner.routines[c].phase.Spawned? && c == d.runner.lastCtx
    requires c in d.runner.cancelled || outcome != Eof
    ensures var d' := d.Exit(c, outcome, canStream);
      && !d'.runner.encoderLive && c !in d'.runner.routines
      && d'.q == d.q && d'.globalSeq == d.globalSeq && d'.completions == d.completions && d'.log == d.log && d'.ringNext == d.ringNext
      && (d'.runner.isRunning <==> d.runner.isRunning && d.runner.routines[c].phase.TurnedAway?)
  {
  }

  /** At the end of its file the next stream starts above all that was produced, and the report is on record. */
  lemma EndOfFileAccounts(d: Daemon, c: nat, canStream: bool)
    requires c in d.runner.routines && !d.runner.routines[c].phase.Spawned? && d.WillReport(c, Eof)
    ensures var d' := d.Exit(c, Eof, canStream);
      d'.globalSeq == Max(d.globalSeq, d.ringNext) && EncoderReport(d.runner.routines[c].seqBase) in d'.log
  {
    var s := d.runner.routines[c].seqBase;
    var told := d.Quit(c).UpdateGlobal(d.ringNext).HearEncoder(s);
    assert told.log[|d.log|] == EncoderReport(s);
    CheckExtendsLog(told, s, canStream);
  }

  lemma CheckExtendsLog(d: Daemon, s: nat, canStream: bool)
    ensures d.log <= d.Check(s, canStream).log && d.Check(s, canStream).globalSeq == d.globalSeq
  {
    if d.Ready(s) {
      var passed := d.Emit(Pass(s, d.q.Head().value.storedBy));
      ExecuteKeepsLog(passed, CmdNext, passed.me);
      ReactLog(passed.Execute(CmdNext, passed.me), canStream);
    }
  }
}
