/**
 The two mutually referring objects behind the state machine: the queue controller and the node.
 Their methods take the permission bits they read (`canQueue`, `canStream`) as arguments.
 */
module Nodes {
  import opened Wrappers
  import opened Queues
  import opened RoleManagers
  import opened SegmentLog
  import opened RingBuffers
  import opened Playlists
  import opened HybridClocks
  import opened DaemonSpec

  /** The runner object shared by all encoder goroutines of a node. */
  class EncoderRunner {
    var isRunning: bool
    var currentPath: string
    var currentSeqBase: nat

    constructor ()
      ensures !isRunning && currentPath == "" && currentSeqBase == 0
    {
      isRunning, currentPath, currentSeqBase := false, "", 0;
    }
  }

  class QueueController {
    const q: Queue<Item>
    var currentMediaSequence: nat
    var streamCompletionStates: map<nat, Completion>
    var told: Told                        // what the last announcements said
    ghost var log: seq<Event>

    constructor ()
      ensures fresh(q) && q.State() == QueueState([], -1)
      ensures currentMediaSequence == 0 && streamCompletionStates == map[] && log == [] && told == Told([], [], None)
    {
      q := new Queue();
      currentMediaSequence, streamCompletionStates, log, told := 0, map[], [], Told([], [], None);
    }

    method GetNextStartSequence() returns (s: nat)
      ensures s == currentMediaSequence
    {
      return currentMediaSequence;
    }

    method UpdateGlobalMediaSequence(lastStreamNextSeq: nat)
      modifies `currentMediaSequence
      ensures currentMediaSequence == Max(old(currentMediaSequence), lastStreamNextSeq)
    {
      if lastStreamNextSeq > currentMediaSequence {
        currentMediaSequence := lastStreamNextSeq;
      }
    }

    method NotifyEncoderFinished(node: Node, s: nat, canStream: bool)
      requires node.qc == this && node.Valid()
      modifies this, q, node, node.hls, node.ringBuffer, node.ringBuffer.buf
      ensures node.Valid() && node.State() == old(node.State()).NotifyEncoder(s, canStream)
    {
      if s !in streamCompletionStates {
        streamCompletionStates := streamCompletionStates[s := Completion(false, {})];
      }
      streamCompletionStates := streamCompletionStates[s := streamCompletionStates[s].(encoderFinished := true)];
      log := log + [EncoderReport(s)];
      CheckAndAttemptQueueAdvance(node, s, canStream);
    }

    method NotifyPlayerStreamCompleted(node: Node, s: nat, reporter: PeerId, canStream: bool)
      requires node.qc == this && node.Valid()
      modifies this, q, node, node.hls, node.ringBuffer, node.ringBuffer.buf
      ensures node.Valid() && node.State() == old(node.State()).NotifyPlayer(s, reporter, canStream)
    {
      if s !in streamCompletionStates {
        streamCompletionStates := streamCompletionStates[s := Completion(false, {})];
      }
      var state := streamCompletionStates[s];
      streamCompletionStates := streamCompletionStates[s := state.(players := state.players + {reporter})];
      log := log + [PlayerReport(s, reporter)];
      CheckAndAttemptQueueAdvance(node, s, canStream);
    }

    method CheckAndAttemptQueueAdvance(node: Node, s: nat, canStream: bool)
      requires node.qc == this && node.Valid()
      modifies this, q, node, node.hls, node.ringBuffer, node.ringBuffer.buf
      ensures node.Valid() && node.State() == old(node.State()).Check(s, canStream)
    {
      if s !in streamCompletionStates {
        return;
      }
      var state := streamCompletionStates[s];
      var currentHead := q.Head();
      if currentHead.None? || currentHead.value.firstSeq != s {
        streamCompletionStates := streamCompletionStates - {s};
        log := log + [Cleanup(s)];
        return;
      }
      var encoderDone := state.encoderFinished;
      var streamerPlayerDone := currentHead.value.storedBy in state.players;
      if encoderDone && streamerPlayerDone {
        log := log + [Pass(s, currentHead.value.storedBy)];
        var _ := Handle(node, CmdNext, node.me, true, canStream);
        streamCompletionStates := streamCompletionStates - {s};
        log := log + [Cleanup(s)];
      }
    }

    method Handle(node: Node, cmd: QueueCmd, sender: PeerId, canQueue: bool, canStream: bool) returns (ok: bool)
      requires node.qc == this && node.Valid()
      modifies this, q, node, node.hls, node.ringBuffer, node.ringBuffer.buf
      ensures node.Valid() && node.State() == old(node.State()).Handle(cmd, sender, canQueue, canStream)
      ensures ok <==> old(node.State()).Permitted(cmd, sender, canQueue) && !cmd.CmdUnknown?
    {
      var isInternalNext := cmd.CmdNext? && sender == node.me;
      if !isInternalNext {
        if !canQueue {
          return false;
        }
      }
      if cmd.CmdUnknown? {
        return false;
      }
      Execute(node, cmd, sender);
      node.ReactToQueueUpdate(canStream);
      return true;
    }

    /** Sends the queue to the own clients and to the other peers. */
    method BroadcastQueue()
      modifies `told
      ensures told == old(told).(clients := q.items, peers := q.items)
    {
      told := told.(clients := q.items, peers := q.items);
    }

    /** The switch over the command type, and the announcement of what it changed. */
    method Execute(node: Node, cmd: QueueCmd, sender: PeerId)
      requires node.qc == this && node.Valid() && !cmd.CmdUnknown?
      modifies `currentMediaSequence, `told, q, node
      ensures node.Valid() && node.State() == old(node.State()).Execute(cmd, sender)
    {
      var madeChange := false;
      match cmd {
        case CmdAppend(path, numSegs, ts) =>
          if path != "" {
            q.Append(Item(path, sender, sender, 0, numSegs, ts));
            madeChange := true;
          }
        case CmdRemove(index) =>
          madeChange := q.Remove(index);
        case CmdClear =>
          q.Clear();
          madeChange := true;
          node.StopCurrentEncoder();
        case CmdNext =>
          var newHeadItem := q.AdvanceCursor();
          madeChange := newHeadItem.Some?;
          if !madeChange {
            node.StopCurrentEncoder();
          }
        case CmdSkipPrev =>
          AccountForSkip(node);
          var newHeadItem := q.RewindCursor();
          madeChange := newHeadItem.Some?;
        case CmdSkipNext =>
          AccountForSkip(node);
          var newHeadItem := q.AdvanceCursor();
          madeChange := newHeadItem.Some?;
      }
      if madeChange {
        BroadcastQueue();
      }
    }

    /** The common beginning of both skips. */
    method AccountForSkip(node: Node)
      requires node.qc == this && node.Valid()
      modifies `currentMediaSequence, node
      ensures node.Valid() && node.State() == old(node.State()).StopForSkip()
    {
      var itemBeingSkipped := q.Head();
      node.StopCurrentEncoder();
      if itemBeingSkipped.Some? && node.me == itemBeingSkipped.value.storedBy {
        UpdateGlobalMediaSequence(node.ringBuffer.nextSeq);
      }
    }

    /** Replaces the list by a received one; items with undecodable peers (None) are dropped. */
    method ApplyUpdate(node: Node, items: seq<Option<Item>>, canQueue: bool, canStream: bool) returns (ok: bool)
      requires node.qc == this && node.Valid()
      modifies this, q, node, node.hls, node.ringBuffer, node.ringBuffer.buf
      ensures node.Valid() && node.State() == old(node.State()).ApplyUpdate(items, canQueue, canStream)
      ensures ok <==> canQueue
    {
      if !canQueue {
        return false;
      }
      var newItems: seq<Item> := [];
      for i := 0 to |items|
        invariant newItems == Decoded(items[..i])
        invariant node.Valid() && node.State() == old(node.State())
      {
        assert items[..i + 1][..i] == items[..i];
        if items[i].Some? {
          newItems := newItems + [items[i].value];
        }
      }
      assert items[..|items|] == items;
      q.ReplaceItems(newItems);
      told := told.(clients := q.items);
      node.ReactToQueueUpdate(canStream);
      return true;
    }
  }

  class Node {
    const me: PeerId
    const qc: QueueController
    const ringBuffer: RingBuffer
    const hls: PlaylistHandler            // serves the playlist of this ring buffer
    const clock: HybridClock
    const encoderRunner: EncoderRunner
    var runnerCtx: nat                    // number of the current context; 0 if none was made
    var cancelled: set<nat>               // contexts whose cancel function was called
    var encoderLive: bool
    var routines: map<nat, Routine>       // goroutines not yet gone, by their context

    ghost predicate Valid()
      reads this, qc, qc.q, ringBuffer, ringBuffer.buf
    {
      hls.rb == ringBuffer && ringBuffer.Valid() && qc.q.State().InRange() && qc.currentMediaSequence < TWO_TO_THE_32
    }

    ghost function State(): Daemon
      reads this, qc, qc.q, ringBuffer, encoderRunner
    {
      Daemon(me, qc.q.State(), qc.streamCompletionStates, qc.currentMediaSequence,
             Runner(runnerCtx, cancelled, encoderLive, encoderRunner.isRunning, encoderRunner.currentPath,
                    encoderRunner.currentSeqBase, routines),
             ringBuffer.nextSeq, qc.log, qc.told)
    }

    constructor (me: PeerId, qc: QueueController, hls: PlaylistHandler, clock: HybridClock)
      requires hls.rb.Valid() && hls.rb.nextSeq == 0
      requires qc.q.State() == QueueState([], -1) && qc.currentMediaSequence == 0 && qc.streamCompletionStates == map[]
      requires qc.log == [] && qc.told == Told([], [], None)
      ensures this.qc == qc && this.hls == hls && ringBuffer == hls.rb && this.clock == clock && Valid() && State() == Initial(me)
    {
      this.me, this.qc, ringBuffer, this.hls, this.clock := me, qc, hls.rb, hls, clock;
      encoderRunner := new EncoderRunner();
      runnerCtx, cancelled, encoderLive, routines := 0, {}, false, map[];
    }

    method StopCurrentEncoder()
      modifies this
      ensures old(Valid()) ==> Valid()
      ensures State() == old(State()).Stop()
    {
      if runnerCtx != 0 {
        cancelled := cancelled + {runnerCtx};
      } else {
        encoderLive := false;
      }
    }

    /** The restart block of `EnsureRunnerState`: a new context, a reset ring and a goroutine to come. */
    method StartRunner(head: Item, seqBase: nat)
      requires Valid() && seqBase < TWO_TO_THE_32 && qc.q.State().Head() == Some(head)
      modifies this, hls, qc`log, qc`told, qc.q, ringBuffer, ringBuffer.buf
      ensures Valid() && State() == old(State()).StartHead(seqBase)
      ensures hls.pendingDiscont
    {
      qc.log := qc.log + [Started(seqBase, ringBuffer.nextSeq)];
      var _ := qc.q.SetItemAtCursor(head.(firstSeq := seqBase));
      qc.BroadcastQueue();
      if runnerCtx != 0 {
        cancelled := cancelled + {runnerCtx};
      }
      ringBuffer.Reset(seqBase);
      hls.TriggerDiscontinuity();
      qc.told := qc.told.(reset := Some(seqBase));
      runnerCtx := runnerCtx + 1;
      encoderLive := true;
      routines := routines[runnerCtx := Routine(head.path, seqBase, Spawned)];
    }

    method EnsureRunnerState(path: string, seqBase: nat, canStream: bool)
      requires Valid() && seqBase < TWO_TO_THE_32
      modifies this, hls, qc`log, qc`told, qc.q, ringBuffer, ringBuffer.buf
      ensures Valid() && State() == old(State()).Ensure(path, seqBase, canStream)
      ensures hls.pendingDiscont <==> old(hls.pendingDiscont) || runnerCtx != old(runnerCtx)
    {
      var shouldRun := false;
      var head := qc.q.Head();
      if path != "" {
        if head.Some? && head.value.path == path && head.value.storedBy == me && canStream {
          shouldRun := true;
        }
      }
      if shouldRun {
        if encoderRunner.isRunning && encoderRunner.currentPath == path && encoderRunner.currentSeqBase == seqBase {
          return;
        }
        StartRunner(head.value, seqBase);
      } else {
        if encoderRunner.isRunning {
          if runnerCtx != 0 {
            cancelled := cancelled + {runnerCtx};
          }
          encoderLive := false;
        } else {
          encoderLive := false;
        }
      }
    }

    method ReactToQueueUpdate(canStream: bool)
      requires Valid()
      modifies this, hls, qc`log, qc`told, qc.q, ringBuffer, ringBuffer.buf
      ensures Valid() && State() == old(State()).React(canStream)
      ensures hls.pendingDiscont <==> old(hls.pendingDiscont) || runnerCtx != old(runnerCtx)
    {
      var head := qc.q.Head();
      if head.None? {
        EnsureRunnerState("", 0, canStream);
        return;
      }
      if head.value.storedBy == me && canStream {
        var seqBaseToUse := qc.GetNextStartSequence();
        EnsureRunnerState(head.value.path, seqBaseToUse, canStream);
      } else {
        EnsureRunnerState("", 0, canStream);
      }
    }

    /** The goroutine of context `c` enters Start. */
    method RoutineBegins(c: nat)
      requires Valid() && c in routines && routines[c].phase.Spawned?
      modifies `routines, encoderRunner
      ensures Valid() && State() == old(State()).Begin(c)
    {
      var g := routines[c];
      if encoderRunner.isRunning && encoderRunner.currentPath == g.path && encoderRunner.currentSeqBase == g.seqBase {
        routines := routines[c := g.(phase := TurnedAway)];
        return;
      }
      encoderRunner.currentPath := g.path;
      encoderRunner.currentSeqBase := g.seqBase;
      encoderRunner.isRunning := true;
      routines := routines[c := g.(phase := Encoding)];
    }

    /** Start returns with `outcome` to the goroutine of context `c`, which then ends. */
    method RoutineExits(c: nat, outcome: Outcome, canStream: bool)
      requires Valid() && c in routines && !routines[c].phase.Spawned?
      modifies this, hls, encoderRunner, qc, qc.q, ringBuffer, ringBuffer.buf
      ensures Valid() && State() == old(State()).Exit(c, outcome, canStream)
    {
      var g := routines[c];
      if g.phase.Encoding? {
        encoderRunner.isRunning := false;
      }
      routines := routines - {c};
      if runnerCtx != c {
        return;
      }
      encoderLive := false;
      if outcome.Eof? && c !in cancelled {
        qc.UpdateGlobalMediaSequence(ringBuffer.nextSeq);
        qc.NotifyEncoderFinished(this, g.seqBase, canStream);
      }
    }

    /** A segment arrives in the ring, from the local encoder or from another peer. */
    method SegmentArrives(s: nat, ghost maker: nat, data: seq<byte>, actualDuration: real, now: int)
      requires Valid() && s + 1 < TWO_TO_THE_32
      modifies ringBuffer, ringBuffer.buf
      ensures Valid() && State() == Next(old(State()), DoIngest(s, maker))
    {
      ghost var x := Segment(s, data, 0.0, now, actualDuration);
      AppendWrite(ringBuffer.resetBase, ringBuffer.log, x);
      ringBuffer.WriteAt(s, data, 0.0, actualDuration, now);
    }

    /** Another peer announced the start of its stream. */
    method PlaylistResetArrives(base: nat, hlcTs: int, now: int)
      requires Valid() && base < TWO_TO_THE_32
      modifies clock, hls, ringBuffer, ringBuffer.buf
      ensures Valid() && State() == Next(old(State()), DoForeignReset(base))
      ensures hls.pendingDiscont
      ensures clock.State() == if hlcTs > 0 then Merge(old(clock.State()), Unpack(hlcTs), now) else old(clock.State())
    {
      if hlcTs > 0 {
        var _ := clock.UpdateHLC(hlcTs, now);
      }
      ringBuffer.Reset(base);
      hls.TriggerDiscontinuity();
    }
  }
}
