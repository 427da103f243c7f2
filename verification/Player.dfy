/** The player side of the client: stamped playback commands and the shared time line. */
module Players {
  import opened Wrappers

  /** A command in global time: `pos` seconds from the start of sequence number 0. */
  datatype PlaybackCmd = PlaybackCmd(stream: nat, hlcTs: int, pos: real, isPlaying: bool, speed: real)

  datatype PlaylistReset = PlaylistReset(sequence: nat, startPts: real, hlcTs: int, originSec: real)

  /** Where the player was last told to play: from the start of a file just loaded, or at a local position. */
  datatype Position = FileStart | At(localPos: real)

  datatype Mode = Mode(paused: bool, speed: real)

  /** `mode` is the last one asked for; `seekOnLoad` the seek due when the next file has been loaded. */
  datatype PlayerState = PlayerState(
    activeStream: nat, lastApplied: int, originSec: real, position: Position, mode: Option<Mode>, seekOnLoad: Option<real>)

  const SEGMENT_LENGTH: real := 2.0

  /** qFuzzyCompare */
  predicate FuzzyEqual(a: real, b: real) {
    Abs(a - b) * 1000000000000.0 <= (if Abs(a) <= Abs(b) then Abs(a) else Abs(b))
  }

  function Abs(a: real): real {
    if a < 0.0 then -a else a
  }

  // ----- positions as they are passed to the player -----

  /** The value of the sixth significant digit of `x`. */
  function Unit(x: real): (u: real)
    requires 0.0 < x
    ensures 0.0 < u
    decreases x < 1.0, if x < 1.0 then (1.0 / x).Floor else x.Floor
  {
    if x < 1.0 then Unit(x * 10.0) / 10.0
    else if x < 10.0 then 0.00001
    else 10.0 * Unit(x / 10.0)
  }

  /** A position as a decimal of six significant digits. */
  function Rendered(x: real): real {
    if x == 0.0 then 0.0
    else if x < 0.0 then -(Unit(-x) * NearestEven(-x / Unit(-x)) as real)
    else Unit(x) * NearestEven(x / Unit(x)) as real
  }

  /** A global position on a player whose time line starts at `originSec`; never before its start. */
  function LocalPos(cmd: PlaybackCmd, originSec: real): real {
    var local := cmd.pos - originSec;
    Rendered(if local < 0.0 then 0.0 else local)
  }

  function ModeOf(cmd: PlaybackCmd): Mode {
    Mode(!cmd.isPlaying, cmd.speed)
  }

  // ----- what reaches the player between two resets -----

  /** A command, the playlist found ready by the probe that follows a reset, or a file loaded. */
  datatype Event = Cmd(cmd: PlaybackCmd) | Ready(probed: Option<nat>) | Loaded

  function AfterReset(s: PlayerState, reset: PlaylistReset): PlayerState {
    PlayerState(reset.sequence, reset.hlcTs, reset.originSec, s.position, s.mode, Some(reset.startPts))
  }

  predicate IsForActive(s: PlayerState, cmd: PlaybackCmd) {
    cmd.stream == s.activeStream && cmd.hlcTs > s.lastApplied
  }

  /** The origin moves to the probed media sequence number unless the fuzzy comparison hides the change. */
  function Recalibrated(originSec: real, probed: Option<nat>): real {
    if probed.Some? && !FuzzyEqual(originSec + 1.0, Origin(probed.value) + 1.0) then Origin(probed.value) else originSec
  }

  function Deliver(s: PlayerState, e: Event): PlayerState {
    match e
    case Cmd(c) =>
      if IsForActive(s, c) then s.(lastApplied := c.hlcTs, position := At(LocalPos(c, s.originSec)), mode := Some(ModeOf(c)))
      else s
    case Ready(probed) => s.(originSec := Recalibrated(s.originSec, probed), position := FileStart)
    case Loaded => if s.seekOnLoad.Some? then s.(position := At(Rendered(s.seekOnLoad.value)), seekOnLoad := None) else s
  }

  function DeliverAll(s: PlayerState, es: seq<Event>): PlayerState {
    if es == [] then s else Deliver(DeliverAll(s, es[..|es| - 1]), es[|es| - 1])
  }

  class App {
    var lastAppliedPlaybackHlc: int
    var playlistOriginSec: real
    var activePlaylistSequenceId: nat
    var currentPlayingIndex: int
    var queueFirstSeqs: seq<nat>      // first_seq of each item of the last queue update
    var position: Position            // where the player widget was last told to play
    var mode: Option<Mode>            // and how
    var seekOnLoad: Option<real>      // where to seek once the next file is loaded
    var playbackCompleted: bool       // the end of the current stream was reported

    constructor ()
      ensures State() == PlayerState(0, -1, 0.0, FileStart, None, None)
      ensures currentPlayingIndex == -1 && queueFirstSeqs == [] && !playbackCompleted
    {
      lastAppliedPlaybackHlc, playlistOriginSec, activePlaylistSequenceId := -1, 0.0, 0;
      currentPlayingIndex, queueFirstSeqs, playbackCompleted := -1, [], false;
      position, mode, seekOnLoad := FileStart, None, None;
    }

    function State(): PlayerState
      reads this
    {
      PlayerState(activePlaylistSequenceId, lastAppliedPlaybackHlc, playlistOriginSec, position, mode, seekOnLoad)
    }

    method OnPlaybackStateCmd(cmd: PlaybackCmd)
      modifies `lastAppliedPlaybackHlc, `position, `mode
      ensures State() == Deliver(old(State()), Cmd(cmd))
    {
      if cmd.stream != activePlaylistSequenceId {
        return;
      }
      if cmd.hlcTs > lastAppliedPlaybackHlc {
        var localTargetPos := cmd.pos - playlistOriginSec;
        if localTargetPos < 0.0 {
          localTargetPos := 0.0;
        }
        position := At(Rendered(localTargetPos));
        mode := Some(Mode(!cmd.isPlaying, cmd.speed));
        lastAppliedPlaybackHlc := cmd.hlcTs;
      }
    }

    /** Starts a new stream unconditionally, and finds its item: the first with its first_seq. */
    method OnPlaylistReset(reset: PlaylistReset)
      modifies this
      ensures State() == AfterReset(old(State()), reset)
      ensures queueFirstSeqs == old(queueFirstSeqs) && !playbackCompleted
      ensures if reset.sequence in queueFirstSeqs then
                && 0 <= currentPlayingIndex < |queueFirstSeqs|
                && queueFirstSeqs[currentPlayingIndex] == reset.sequence
                && reset.sequence !in queueFirstSeqs[..currentPlayingIndex]
              else currentPlayingIndex == if |queueFirstSeqs| == 1 && reset.sequence == 0 then 0 else -1
    {
      playlistOriginSec := reset.originSec;
      activePlaylistSequenceId := reset.sequence;
      lastAppliedPlaybackHlc := reset.hlcTs;
      playbackCompleted := false;
      seekOnLoad := Some(reset.startPts);
      currentPlayingIndex := -1;
      for i := 0 to |queueFirstSeqs|
        modifies `currentPlayingIndex
        invariant currentPlayingIndex == -1 && reset.sequence !in queueFirstSeqs[..i]
      {
        if queueFirstSeqs[i] == activePlaylistSequenceId {
          currentPlayingIndex := i;
          break;
        }
      }
      if currentPlayingIndex == -1 && |queueFirstSeqs| == 1 && activePlaylistSequenceId == 0 {
        currentPlayingIndex := 0;
      }
    }

    /** The player has loaded a file: the seek asked for by the last reset is made, once. */
    method OnFileLoaded()
      modifies `seekOnLoad, `position
      ensures State() == Deliver(old(State()), Loaded)
    {
      if seekOnLoad.Some? {
        position := At(Rendered(seekOnLoad.value));
      }
      seekOnLoad := None;
    }

    /** A stamp for a local command: later than everything applied, and not behind the wall clock. */
    method NextMonotonicPlaybackHlcTs(wallNow: int) returns (next: int)
      modifies `lastAppliedPlaybackHlc
      ensures next == lastAppliedPlaybackHlc == Max(wallNow, old(lastAppliedPlaybackHlc) + 1)
    {
      next := if wallNow > lastAppliedPlaybackHlc then wallNow else lastAppliedPlaybackHlc + 1;
      lastAppliedPlaybackHlc := next;
    }

    method SetLocalPlaybackOriginSec(originSec: real)
      modifies `playlistOriginSec
      ensures playlistOriginSec == if originSec < 0.0 || FuzzyEqual(old(playlistOriginSec) + 1.0, originSec + 1.0)
                                   then old(playlistOriginSec) else originSec
    {
      if originSec < 0.0 {
        return;
      }
      if FuzzyEqual(playlistOriginSec + 1.0, originSec + 1.0) {
        return;
      }
      playlistOriginSec := originSec;
    }

    /**
     The playlist was probed: the time line starts at its media sequence number, unless the fuzzy
     comparison takes that for the origin already in use, which it never does for a segment start;
     and the playlist is loaded anew, whatever position the player had been told.
     */
    method OnPlaylistReady(probedMediaSequence: Option<nat>)
      requires probedMediaSequence.Some? ==> probedMediaSequence.value < TWO_TO_THE_32
      modifies `playlistOriginSec, `position
      ensures State() == Deliver(old(State()), Ready(probedMediaSequence))
      ensures probedMediaSequence.Some? && OnGrid(old(playlistOriginSec))
              ==> playlistOriginSec == Origin(probedMediaSequence.value)
    {
      if probedMediaSequence.Some? {
        if OnGrid(playlistOriginSec) {
          OriginsAreTellable(playlistOriginSec, probedMediaSequence.value);
        }
        SetLocalPlaybackOriginSec(probedMediaSequence.value as real * 2.0);
      }
      position := FileStart;
    }

    method SendPlaybackStateCommand(localPos: real, isPlaying: bool, speed: real, wallNow: int) returns (cmd: PlaybackCmd)
      modifies `lastAppliedPlaybackHlc
      ensures cmd == Sent(old(State()), localPos, isPlaying, speed, wallNow)
      ensures lastAppliedPlaybackHlc == cmd.hlcTs
    {
      var originSec := playlistOriginSec;
      var hlcTs := NextMonotonicPlaybackHlcTs(wallNow);
      return PlaybackCmd(activePlaylistSequenceId, hlcTs, localPos + originSec, isPlaying, speed);
    }
  }

  // ----- what one command does -----

  /**
   A command for another stream, or no newer than what was applied, is ignored; any other one
   plays or pauses the player, sets its speed, and seeks it, never before its start.
   */
  lemma CommandIsObeyedExactlyWhen(s: PlayerState, cmd: PlaybackCmd)
    ensures var t := Deliver(s, Cmd(cmd));
      if cmd.stream != s.activeStream || cmd.hlcTs <= s.lastApplied then t == s
      else
        && t.mode.Some? && (t.mode.value.paused <==> !cmd.isPlaying) && t.mode.value.speed == cmd.speed
        && t.position == At(if cmd.pos <= s.originSec then 0.0 else Rendered(cmd.pos - s.originSec))
        && t.lastApplied == cmd.hlcTs
        && t.activeStream == s.activeStream && t.originSec == s.originSec && t.seekOnLoad == s.seekOnLoad
  {
  }

  /** What a player sends: its own local position in global time, for its own stream. */
  function Sent(s: PlayerState, localPos: real, isPlaying: bool, speed: real, wallNow: int): PlaybackCmd {
    PlaybackCmd(s.activeStream, Max(wallNow, s.lastApplied + 1), localPos + s.originSec, isPlaying, speed)
  }

  /**
   From sender to receiver: a player of the same stream that has applied nothing newer then plays
   or pauses as the sender asked, at its speed, at the same global time to half a unit of the sixth
   digit, or at its own start if that is later.
   */
  lemma SentCommandIsObeyed(sender: PlayerState, receiver: PlayerState, localPos: real, isPlaying: bool, speed: real, wallNow: int)
    requires receiver.activeStream == sender.activeStream && receiver.lastApplied <= sender.lastApplied
    ensures var cmd := Sent(sender, localPos, isPlaying, speed, wallNow); var t := Deliver(receiver, Cmd(cmd));
      && t.mode.Some? && (t.mode.value.paused <==> !isPlaying) && t.mode.value.speed == speed
      && t.lastApplied == cmd.hlcTs >= wallNow
      && t.position.At?
      && (localPos + sender.originSec <= receiver.originSec ==> t.position.localPos == 0.0)
      && (localPos + sender.originSec > receiver.originSec ==>
            var p := localPos + sender.originSec - receiver.originSec;
            -Unit(p) / 2.0 <= t.position.localPos - p <= Unit(p) / 2.0)
  {
    var p := localPos + sender.originSec - receiver.originSec;
    CommandIsObeyedExactlyWhen(receiver, Sent(sender, localPos, isPlaying, speed, wallNow));
    if 0.0 < p {
      RenderedIsNear(p);
    }
  }

  /** After a reset, commands of other streams and those stamped no later than it are ignored. */
  lemma ResetOutdatesCommands(s: PlayerState, reset: PlaylistReset, cmd: PlaybackCmd)
    ensures var t := AfterReset(s, reset);
      && t.originSec == reset.originSec && t.position == s.position && t.mode == s.mode
      && (cmd.stream != reset.sequence || cmd.hlcTs <= reset.hlcTs ==> Deliver(t, Cmd(cmd)) == t)
      && (cmd.stream == reset.sequence && cmd.hlcTs > reset.hlcTs ==> Deliver(t, Cmd(cmd)).lastApplied == cmd.hlcTs)
      && Deliver(t, Loaded).position == At(Rendered(reset.startPts)) && Deliver(Deliver(t, Loaded), Loaded) == Deliver(t, Loaded)
  {
  }

  /** A probe moves the origin from one segment start to that of the probed number; a failed one leaves it. */
  lemma ProbeMovesOrigin(s: PlayerState, n: nat)
    requires OnGrid(s.originSec) && n < TWO_TO_THE_32
    ensures Deliver(s, Ready(Some(n))).originSec == n as real * 2.0
    ensures Deliver(s, Ready(None)).originSec == s.originSec
    ensures forall probed :: Deliver(s, Ready(probed)).position == FileStart
  {
    OriginsAreTellable(s.originSec, n);
  }

  // ----- commands converge -----

  function CmdsOf(es: seq<Event>): seq<PlaybackCmd> {
    if es == [] then []
    else
      var front, last := CmdsOf(es[..|es| - 1]), es[|es| - 1];
      if last.Cmd? then front + [last.cmd] else front
  }

  /** The player's own events: playlists found ready and files loaded. */
  function OwnEvents(es: seq<Event>): seq<Event> {
    if es == [] then []
    else
      var front, last := OwnEvents(es[..|es| - 1]), es[|es| - 1];
      if last.Cmd? then front else front + [last]
  }

  ghost predicate SameCmds(g: seq<PlaybackCmd>, h: seq<PlaybackCmd>) {
    forall c :: c in g <==> c in h
  }

  /** The same commands, in another order and with other repeats, among the same events of the player. */
  ghost predicate Reorders(es: seq<Event>, fs: seq<Event>) {
    OwnEvents(es) == OwnEvents(fs) && SameCmds(CmdsOf(es), CmdsOf(fs))
  }

  /** A command for the active stream, above the reset's stamp, that no other such command beats. */
  ghost predicate IsTop(s: PlayerState, cmds: seq<PlaybackCmd>, top: PlaybackCmd) {
    && top in cmds && IsForActive(s, top)
    && forall c :: c in cmds && IsForActive(s, c) ==> c.hlcTs <= top.hlcTs
  }

  /** Some of the player's own events tells it a position: any reload, or a load when a seek is due. */
  predicate Disturbs(seekDue: bool, own: seq<Event>) {
    (exists i :: 0 <= i < |own| && own[i].Ready?) || (seekDue && exists i :: 0 <= i < |own| && own[i].Loaded?)
  }

  lemma {:induction false} DeliverConcat(s: PlayerState, es: seq<Event>, fs: seq<Event>)
    ensures DeliverAll(s, es + fs) == DeliverAll(DeliverAll(s, es), fs)
  {
    if fs == [] {
      assert es + fs == es;
    } else {
      assert (es + fs)[..|es + fs| - 1] == es + fs[..|fs| - 1];
      DeliverConcat(s, es, fs[..|fs| - 1]);
    }
  }

  lemma {:induction false} PartsConcat(es: seq<Event>, fs: seq<Event>)
    ensures OwnEvents(es + fs) == OwnEvents(es) + OwnEvents(fs)
    ensures CmdsOf(es + fs) == CmdsOf(es) + CmdsOf(fs)
  {
    if fs == [] {
      assert es + fs == es;
    } else {
      assert (es + fs)[..|es + fs| - 1] == es + fs[..|fs| - 1];
      PartsConcat(es, fs[..|fs| - 1]);
    }
  }

  lemma OneMore(s: PlayerState, es: seq<Event>, e: Event)
    ensures DeliverAll(s, es + [e]) == Deliver(DeliverAll(s, es), e)
  {
    assert (es + [e])[..|es|] == es;
  }

  lemma OneCmd(c: PlaybackCmd)
    ensures CmdsOf([Cmd(c)]) == [c] && OwnEvents([Cmd(c)]) == []
    ensures forall s :: DeliverAll(s, [Cmd(c)]) == Deliver(s, Cmd(c))
  {
    assert [Cmd(c)][..0] == [];
  }

  /** Commands that are all stale leave no trace. */
  lemma {:induction false} StaleCmdsLeaveNoTrace(s: PlayerState, es: seq<Event>)
    requires forall c :: c in CmdsOf(es) ==> !IsForActive(s, c)
    ensures DeliverAll(s, es) == DeliverAll(s, OwnEvents(es))
    ensures DeliverAll(s, es).activeStream == s.activeStream && DeliverAll(s, es).lastApplied == s.lastApplied
    ensures DeliverAll(s, es).mode == s.mode
  {
    if es != [] {
      var front, last := es[..|es| - 1], es[|es| - 1];
      StaleCmdsLeaveNoTrace(s, front);
      if last.Cmd? {
        assert last.cmd in CmdsOf(es);
      } else {
        OneMore(s, OwnEvents(front), last);
      }
    }
  }

  /** Commands leave origin and pending seek alone, and below the top stamp do not block a top command. */
  lemma {:induction false} BeforeTop(s: PlayerState, es: seq<Event>, stamp: int)
    requires s.lastApplied < stamp && forall c :: c in CmdsOf(es) && IsForActive(s, c) ==> c.hlcTs < stamp
    ensures var t, calm := DeliverAll(s, es), DeliverAll(s, OwnEvents(es));
      && t.activeStream == s.activeStream && s.lastApplied <= t.lastApplied < stamp
      && t.originSec == calm.originSec && t.seekOnLoad == calm.seekOnLoad
  {
    if es != [] {
      var front, last := es[..|es| - 1], es[|es| - 1];
      BeforeTop(s, front, stamp);
      if last.Cmd? {
        assert last.cmd in CmdsOf(es);
      } else {
        OneMore(s, OwnEvents(front), last);
      }
    }
  }

  /** The state in which a command has just been applied. */
  function Applied(s: PlayerState, c: PlaybackCmd): PlayerState {
    s.(lastApplied := c.hlcTs, position := At(LocalPos(c, s.originSec)), mode := Some(ModeOf(c)))
  }

  /**
   After any run the state is that of the first top command to arrive, applied to the player as its
   own events had left it, and then only the player's own events: of all other commands, before
   and after it, no trace is left.
   */
  lemma FirstTopDecides(s: PlayerState, cmds: seq<PlaybackCmd>, before: seq<Event>, top: PlaybackCmd, after: seq<Event>)
    requires IsTop(s, cmds, top)
    requires forall c :: c in CmdsOf(before) + CmdsOf(after) ==> c in cmds
    requires forall c :: c in CmdsOf(before) ==> !IsTop(s, cmds, c)
    ensures DeliverAll(s, before + [Cmd(top)] + after)
         == DeliverAll(Applied(DeliverAll(s, OwnEvents(before)), top), OwnEvents(after))
  {
    forall c | c in CmdsOf(before) && IsForActive(s, c) ensures c.hlcTs < top.hlcTs {
      assert !IsTop(s, cmds, c);
    }
    AtFirstTop(s, before, top);
    DeliverConcat(s, before + [Cmd(top)], after);
    var v := Applied(DeliverAll(s, OwnEvents(before)), top);
    forall c | c in CmdsOf(after) ensures !IsForActive(v, c) {
      assert c in cmds;
    }
    StaleCmdsLeaveNoTrace(v, after);
  }

  lemma AtFirstTop(s: PlayerState, before: seq<Event>, top: PlaybackCmd)
    requires IsForActive(s, top) && forall c :: c in CmdsOf(before) && IsForActive(s, c) ==> c.hlcTs < top.hlcTs
    ensures DeliverAll(s, before + [Cmd(top)]) == Applied(DeliverAll(s, OwnEvents(before)), top)
    ensures Applied(DeliverAll(s, OwnEvents(before)), top).activeStream == s.activeStream
  {
    BeforeTop(s, before, top.hlcTs);
    OneMore(s, before, Cmd(top));
    OwnIsOwn(before);
    OwnEventsOnlyMove(s, OwnEvents(before));
  }

  lemma {:induction false} OwnIsOwn(es: seq<Event>)
    ensures forall e :: e in OwnEvents(es) ==> !e.Cmd?
    ensures OwnEvents(OwnEvents(es)) == OwnEvents(es) && CmdsOf(OwnEvents(es)) == []
  {
    if es != [] {
      var front := OwnEvents(es[..|es| - 1]);
      OwnIsOwn(es[..|es| - 1]);
      assert !es[|es| - 1].Cmd? ==> (front + [es[|es| - 1]])[..|front|] == front;
    }
  }

  /** The player's own events change neither stream, stamp nor mode. */
  lemma {:induction false} OwnEventsOnlyMove(s: PlayerState, own: seq<Event>)
    requires forall e :: e in own ==> !e.Cmd?
    ensures var t := DeliverAll(s, own); t.activeStream == s.activeStream && t.lastApplied == s.lastApplied && t.mode == s.mode
  {
    if own != [] {
      OwnEventsOnlyMove(s, own[..|own| - 1]);
    }
  }

  /** Undisturbed, the player keeps position and origin; disturbed, it forgets the position it was told. */
  lemma {:induction false} DisturbedForgets(s: PlayerState, t: PlayerState, own: seq<Event>)
    requires forall e :: e in own ==> !e.Cmd?
    requires t == s.(position := t.position, lastApplied := t.lastApplied, mode := t.mode)
    ensures var s', t' := DeliverAll(s, own), DeliverAll(t, own);
      && s'.originSec == t'.originSec && s'.seekOnLoad == t'.seekOnLoad
      && s'.seekOnLoad.Some? == (s.seekOnLoad.Some? && forall i :: 0 <= i < |own| ==> !own[i].Loaded?)
      && (Disturbs(s.seekOnLoad.Some?, own) ==> s'.position == t'.position)
      && (!Disturbs(s.seekOnLoad.Some?, own) ==> s'.position == s.position && t'.position == t.position && s'.originSec == s.originSec)
  {
    if own != [] {
      var front, last := own[..|own| - 1], own[|own| - 1];
      DisturbedForgets(s, t, front);
      assert own == front + [last];
      assert Disturbs(s.seekOnLoad.Some?, own) <==>
        (Disturbs(s.seekOnLoad.Some?, front) || last.Ready? || (s.seekOnLoad.Some? && last.Loaded?));
    }
  }

  /** A due load that no reload follows. */
  ghost predicate EndsWithSeek(seekDue: bool, own: seq<Event>) {
    seekDue && exists l: nat :: IsLastSeek(own, l)
  }

  ghost predicate IsLastSeek(own: seq<Event>, l: nat) {
    && l < |own| && own[l].Loaded?
    && (forall i :: 0 <= i < l ==> !own[i].Loaded?)
    && (forall i :: l < i < |own| ==> !own[i].Ready?)
  }

  /** Where the player's own events leave it: at the reset's start if a due load came last, else at the file's start. */
  lemma {:induction false} RestingPosition(s: PlayerState, own: seq<Event>)
    requires forall e :: e in own ==> !e.Cmd?
    ensures Disturbs(s.seekOnLoad.Some?, own) ==>
      DeliverAll(s, own).position == if EndsWithSeek(s.seekOnLoad.Some?, own) then At(Rendered(s.seekOnLoad.value)) else FileStart
    ensures DeliverAll(s, own).seekOnLoad == if exists i :: 0 <= i < |own| && own[i].Loaded? then None else s.seekOnLoad
  {
    if own != [] {
      var n := |own| - 1;
      RestingPosition(s, own[..n]);
      assert forall i :: 0 <= i < n ==> own[..n][i] == own[i];
      if own[n].Ready? {
        assert forall l: nat :: !IsLastSeek(own, l);
      } else if DeliverAll(s, own[..n]).seekOnLoad.Some? {
        assert IsLastSeek(own, n);
      } else {
        assert forall l: nat :: l < n ==> (IsLastSeek(own, l) <==> IsLastSeek(own[..n], l));
        assert s.seekOnLoad.Some? ==> !IsLastSeek(own, n);
      }
    }
  }

  /**
   In every run, from the first top command on: the player is left where its own events leave it if
   one of them disturbs it after that command, and else where that command asks, at the origin the
   player ends with. Stamp, mode and origin do not depend on it.
   */
  lemma TopHoldsUnlessDisturbed(s: PlayerState, cmds: seq<PlaybackCmd>, before: seq<Event>, top: PlaybackCmd, after: seq<Event>)
    requires IsTop(s, cmds, top)
    requires forall c :: c in CmdsOf(before) + CmdsOf(after) ==> c in cmds
    requires forall c :: c in CmdsOf(before) ==> !IsTop(s, cmds, c)
    ensures var calm := DeliverAll(s, OwnEvents(before) + OwnEvents(after));
      var seekDue := DeliverAll(s, OwnEvents(before)).seekOnLoad.Some?;
      DeliverAll(s, before + [Cmd(top)] + after) == calm.(
        lastApplied := top.hlcTs, mode := Some(Mode(!top.isPlaying, top.speed)),
        position := if Disturbs(seekDue, OwnEvents(after)) then calm.position else At(LocalPos(top, calm.originSec)))
  {
    FirstTopDecides(s, cmds, before, top, after);
    var own, rest := OwnEvents(before), OwnEvents(after);
    var u := DeliverAll(s, own);
    var v := Applied(u, top);
    OwnIsOwn(before);
    OwnIsOwn(after);
    OwnEventsOnlyMove(s, own);
    OwnEventsOnlyMove(u, rest);
    OwnEventsOnlyMove(v, rest);
    DeliverConcat(s, own, rest);
    DisturbedForgets(u, v, rest);
  }

  /** Every run with a top command has a first one. */
  lemma {:induction false} FirstTop(s: PlayerState, cmds: seq<PlaybackCmd>, es: seq<Event>)
    returns (before: seq<Event>, top: Option<PlaybackCmd>, after: seq<Event>)
    ensures forall c :: c in CmdsOf(before) ==> !IsTop(s, cmds, c)
    ensures top.None? ==> before == es
    ensures top.Some? ==> IsTop(s, cmds, top.value) && es == before + [Cmd(top.value)] + after
  {
    if es == [] {
      before, top, after := [], None, [];
    } else {
      var front, last := es[..|es| - 1], es[|es| - 1];
      before, top, after := FirstTop(s, cmds, front);
      assert es == front + [last];
      if top.Some? {
        after := after + [last];
      } else if last.Cmd? && IsTop(s, cmds, last.cmd) {
        top, after := Some(last.cmd), [];
      } else {
        before := es;
      }
    }
  }

  lemma {:induction false} SomeTop(s: PlayerState, cmds: seq<PlaybackCmd>) returns (top: Option<PlaybackCmd>)
    ensures top.Some? ==> IsTop(s, cmds, top.value)
    ensures top.None? ==> forall c :: c in cmds ==> !IsForActive(s, c)
  {
    if cmds == [] {
      top := None;
    } else {
      var front, last := cmds[..|cmds| - 1], cmds[|cmds| - 1];
      assert cmds == front + [last];
      top := SomeTop(s, front);
      if IsForActive(s, last) && (top.None? || top.value.hlcTs < last.hlcTs) {
        top := Some(last);
      }
    }
  }

  /** Wherever the commands fall among the player's own events, the run ends the same. */
  ghost predicate Synchronises(s: PlayerState, es: seq<Event>) {
    forall fs :: Reorders(fs, es) ==> DeliverAll(s, fs) == DeliverAll(s, es)
  }

  /** The state the player's own events lead to, had no command come. */
  function Calm(s: PlayerState, es: seq<Event>): PlayerState {
    DeliverAll(s, OwnEvents(es))
  }

  /** Top commands ask for the same, at the origin the player ends with. */
  ghost predicate TopsAgree(s: PlayerState, es: seq<Event>) {
    forall x, y :: IsTop(s, CmdsOf(es), x) && IsTop(s, CmdsOf(es), y) ==>
      ModeOf(x) == ModeOf(y) && LocalPos(x, Calm(s, es).originSec) == LocalPos(y, Calm(s, es).originSec)
  }

  /** If the player's own events tell it a position, then they leave it where a top command asks. */
  ghost predicate TopsAreUndisturbed(s: PlayerState, es: seq<Event>) {
    Disturbs(s.seekOnLoad.Some?, OwnEvents(es)) ==>
      forall x :: IsTop(s, CmdsOf(es), x) ==> Calm(s, es).position == At(LocalPos(x, Calm(s, es).originSec))
  }

  lemma AgreeingTopsSynchronise(s: PlayerState, es: seq<Event>, fs: seq<Event>, x: PlaybackCmd)
    requires TopsAgree(s, es) && TopsAreUndisturbed(s, es) && Reorders(fs, es) && IsTop(s, CmdsOf(es), x)
    ensures DeliverAll(s, fs) == Calm(s, es).(
      lastApplied := x.hlcTs, mode := Some(ModeOf(x)), position := At(LocalPos(x, Calm(s, es).originSec)))
  {
    var cmds := CmdsOf(es);
    var before, top, after := FirstTop(s, cmds, fs);
    assert x in CmdsOf(fs);
    assert top.Some?;
    PartsConcat(before, [Cmd(top.value)]);
    PartsConcat(before + [Cmd(top.value)], after);
    OneCmd(top.value);
    assert OwnEvents(fs) == OwnEvents(before) + OwnEvents(after);
    TopHoldsUnlessDisturbed(s, cmds, before, top.value, after);
    DisturbedLater(s, OwnEvents(before), OwnEvents(after));
  }

  /** What disturbs the player late disturbs it. */
  lemma DisturbedLater(s: PlayerState, own: seq<Event>, rest: seq<Event>)
    ensures Disturbs(DeliverAll(s, own).seekOnLoad.Some?, rest) ==> Disturbs(s.seekOnLoad.Some?, own + rest)
  {
    SeekIsDueOnce(s, own);
    assert forall i :: 0 <= i < |rest| ==> (own + rest)[|own| + i] == rest[i];
  }

  lemma {:induction false} SeekIsDueOnce(s: PlayerState, es: seq<Event>)
    ensures DeliverAll(s, es).seekOnLoad.Some? ==> s.seekOnLoad.Some?
  {
    if es != [] {
      SeekIsDueOnce(s, es[..|es| - 1]);
    }
  }

  /** A top command that comes first of all, or last of all. */
  lemma TopFirstOrLast(s: PlayerState, es: seq<Event>, x: PlaybackCmd) returns (first: seq<Event>, last: seq<Event>)
    requires IsTop(s, CmdsOf(es), x)
    ensures Reorders(first, es) && Reorders(last, es)
    ensures var calm := Calm(s, es); var ends := calm.(lastApplied := x.hlcTs, mode := Some(ModeOf(x)));
      && DeliverAll(s, last) == ends.(position := At(LocalPos(x, calm.originSec)))
      && (Disturbs(s.seekOnLoad.Some?, OwnEvents(es)) ==> DeliverAll(s, first) == ends)
  {
    var cmds, own := CmdsOf(es), OwnEvents(es);
    var mine := CmdEvents(cmds);
    OneCmd(x);
    OwnIsOwn(es);
    CmdEventsAreCmds(cmds);
    first, last := [] + [Cmd(x)] + es, own + [Cmd(x)] + mine;
    PartsConcat([Cmd(x)], es);
    assert first == [Cmd(x)] + es;
    PartsConcat(own, [Cmd(x)]);
    PartsConcat(own + [Cmd(x)], mine);
    TopHoldsUnlessDisturbed(s, cmds, [], x, es);
    TopHoldsUnlessDisturbed(s, cmds, own, x, mine);
    assert [] + own == own && own + [] == own;
  }

  function CmdEvents(cmds: seq<PlaybackCmd>): seq<Event> {
    if cmds == [] then [] else CmdEvents(cmds[..|cmds| - 1]) + [Cmd(cmds[|cmds| - 1])]
  }

  lemma {:induction false} CmdEventsAreCmds(cmds: seq<PlaybackCmd>)
    ensures CmdsOf(CmdEvents(cmds)) == cmds && OwnEvents(CmdEvents(cmds)) == []
  {
    if cmds != [] {
      var front := CmdEvents(cmds[..|cmds| - 1]);
      CmdEventsAreCmds(cmds[..|cmds| - 1]);
      assert (front + [Cmd(cmds[|cmds| - 1])])[..|front|] == front;
    }
  }

  /**
   Between two resets, a player that issues no commands ends in the same state wherever the
   commands fall among its own reloads and loads, in every order and repetition, exactly when the
   commands sharing the top stamp agree and its own events do not tell it another position.
   */
  lemma SynchronisesExactlyWhen(s: PlayerState, es: seq<Event>)
    ensures Synchronises(s, es) <==> TopsAgree(s, es) && TopsAreUndisturbed(s, es)
  {
    if TopsAgree(s, es) && TopsAreUndisturbed(s, es) {
      AgreementSynchronises(s, es);
    }
    if Synchronises(s, es) {
      SynchronyNeedsAgreement(s, es);
    }
  }

  lemma AgreementSynchronises(s: PlayerState, es: seq<Event>)
    requires TopsAgree(s, es) && TopsAreUndisturbed(s, es)
    ensures Synchronises(s, es)
  {
    var top := SomeTop(s, CmdsOf(es));
    forall fs | Reorders(fs, es) ensures DeliverAll(s, fs) == DeliverAll(s, es) {
      if top.Some? {
        AgreeingTopsSynchronise(s, es, fs, top.value);
        AgreeingTopsSynchronise(s, es, es, top.value);
      } else {
        StaleCmdsLeaveNoTrace(s, fs);
        StaleCmdsLeaveNoTrace(s, es);
      }
    }
  }

  lemma SynchronyNeedsAgreement(s: PlayerState, es: seq<Event>)
    requires Synchronises(s, es)
    ensures TopsAgree(s, es) && TopsAreUndisturbed(s, es)
  {
    var ends := DeliverAll(s, es);
    forall x | IsTop(s, CmdsOf(es), x)
      ensures ends.mode == Some(ModeOf(x)) && ends.position == At(LocalPos(x, Calm(s, es).originSec))
      ensures Disturbs(s.seekOnLoad.Some?, OwnEvents(es)) ==> ends.position == Calm(s, es).position
    {
      var first, last := TopFirstOrLast(s, es, x);
    }
  }

  // ----- a command lost in the reload -----

  /** Commands that share the top stamp agree on the mode and ask for this position. */
  ghost predicate TopsAskFor(s: PlayerState, es: seq<Event>, originSec: real, pos: real) {
    forall x, y :: IsTop(s, CmdsOf(es), x) && IsTop(s, CmdsOf(es), y) ==> ModeOf(x) == ModeOf(y) && LocalPos(x, originSec) == pos
  }

  lemma DisturbedTopsAskFor(s: PlayerState, es: seq<Event>, pos: real)
    requires Disturbs(s.seekOnLoad.Some?, OwnEvents(es)) && Calm(s, es).position == At(pos)
    ensures TopsAgree(s, es) && TopsAreUndisturbed(s, es) <==> TopsAskFor(s, es, Calm(s, es).originSec, pos)
  {
    if TopsAskFor(s, es, Calm(s, es).originSec, pos) {
      forall x | IsTop(s, CmdsOf(es), x) ensures LocalPos(x, Calm(s, es).originSec) == pos {
        assert ModeOf(x) == ModeOf(x);
      }
    }
  }

  lemma CalmAfterReset(s: PlayerState, reset: PlaylistReset, probed: Option<nat>)
    ensures DeliverAll(AfterReset(s, reset), [Ready(probed), Loaded]) == AfterReset(s, reset).(
      originSec := Recalibrated(reset.originSec, probed), position := At(Rendered(reset.startPts)), seekOnLoad := None)
    ensures Disturbs(true, [Ready(probed), Loaded])
  {
    var t, own := AfterReset(s, reset), [Ready(probed), Loaded];
    assert own == [] + [Ready(probed)] + [Loaded] && own[0].Ready?;
    OneMore(t, [], Ready(probed));
    OneMore(t, [] + [Ready(probed)], Loaded);
  }

  /**
   Every reset is followed by a reload and a load. A top command that arrives before them is lost
   for good, one that arrives after them holds: so players end the same in every order exactly when
   the commands sharing the top stamp ask for the very position where the reset starts.
   */
  lemma AfterResetSynchronisesExactlyWhen(s: PlayerState, reset: PlaylistReset, es: seq<Event>, probed: Option<nat>)
    requires OwnEvents(es) == [Ready(probed), Loaded]
    ensures Synchronises(AfterReset(s, reset), es) <==>
      TopsAskFor(AfterReset(s, reset), es, Recalibrated(reset.originSec, probed), Rendered(reset.startPts))
  {
    SynchronisesExactlyWhen(AfterReset(s, reset), es);
    CalmAfterReset(s, reset, probed);
    DisturbedTopsAskFor(AfterReset(s, reset), es, Rendered(reset.startPts));
  }

  /** One reset, one command, one reload: the command's position, or the start of the stream. */
  lemma CommandBeforeReloadIsLost(s: PlayerState)
    ensures var t := AfterReset(s, PlaylistReset(100, 0.0, 7, 200.0)); var c := PlaybackCmd(100, 8, 250.0, true, 1.0);
      var lost, kept := DeliverAll(t, [Cmd(c), Ready(Some(90)), Loaded]), DeliverAll(t, [Ready(Some(90)), Loaded, Cmd(c)]);
      && lost.lastApplied == kept.lastApplied == 8 && lost.originSec == kept.originSec == 180.0
      && lost.position == At(0.0) && kept.position == At(70.0)
  {
    var t, c := AfterReset(s, PlaylistReset(100, 0.0, 7, 200.0)), PlaybackCmd(100, 8, 250.0, true, 1.0);
    InThisOrder(t, Cmd(c), Ready(Some(90)), Loaded);
    InThisOrder(t, Ready(Some(90)), Loaded, Cmd(c));
    assert Recalibrated(200.0, Some(90)) == 180.0;
    SeventyIsSeventy();
  }

  lemma InThisOrder(s: PlayerState, a: Event, b: Event, c: Event)
    ensures DeliverAll(s, [a, b, c]) == Deliver(Deliver(Deliver(s, a), b), c)
  {
    assert [a, b, c] == [] + [a] + [b] + [c];
    OneMore(s, [], a);
    OneMore(s, [] + [a], b);
    OneMore(s, [] + [a] + [b], c);
  }

  lemma SeventyIsSeventy()
    ensures Rendered(70.0) == 70.0
  {
    assert Unit(7.0) == 0.00001;
    assert Unit(70.0) == 0.0001;
    assert (70.0 / 0.0001) == 700000.0;
  }

  // ----- rounding of the position -----

  /** Up to a million seconds the sixth digit stands for a whole fraction of a second. */
  lemma {:induction false} UnitDividesSecond(x: real) returns (n: nat)
    requires 0.0 < x < 1000000.0
    ensures 0 < n && Unit(x) * n as real == 1.0
    decreases x < 1.0, if x < 1.0 then (1.0 / x).Floor else x.Floor
  {
    if x < 1.0 {
      var m := UnitDividesSecond(x * 10.0);
      n := 10 * m;
      assert Unit(x) * n as real == Unit(x * 10.0) / 10.0 * (10.0 * m as real);
    } else if x < 10.0 {
      n := 100000;
    } else {
      n := LargeUnit(x);
    }
  }

  lemma LargeUnit(x: real) returns (n: nat)
    requires 10.0 <= x < 1000000.0
    ensures 0 < n && Unit(x) * n as real == 1.0
  {
    assert Unit(x) == 10.0 * Unit(x / 10.0);
    if x < 100.0 {
      n := 10000;
    } else if x < 1000.0 {
      assert Unit(x / 10.0) == 10.0 * Unit(x / 100.0);
      n := 1000;
    } else if x < 10000.0 {
      assert Unit(x / 10.0) == 10.0 * Unit(x / 100.0);
      assert Unit(x / 100.0) == 10.0 * Unit(x / 1000.0);
      n := 100;
    } else if x < 100000.0 {
      assert Unit(x / 10.0) == 10.0 * Unit(x / 100.0);
      assert Unit(x / 100.0) == 10.0 * Unit(x / 1000.0);
      assert Unit(x / 1000.0) == 10.0 * Unit(x / 10000.0);
      n := 10;
    } else {
      assert Unit(x / 10.0) == 10.0 * Unit(x / 100.0);
      assert Unit(x / 100.0) == 10.0 * Unit(x / 1000.0);
      assert Unit(x / 1000.0) == 10.0 * Unit(x / 10000.0);
      assert Unit(x / 10000.0) == 10.0 * Unit(x / 100000.0);
      n := 1;
    }
  }

  // ----- one time line for all -----

  /** The time line of a playlist that starts at media sequence number `base`. */
  function Origin(base: nat): real {
    base as real * SEGMENT_LENGTH
  }

  /** All origins in the system are starts of nominal segments. */
  ghost predicate OnGrid(originSec: real) {
    exists n: nat :: n < TWO_TO_THE_32 && originSec == Origin(n)
  }

  /** The media sequence number that plays at a local position of a playlist starting at `base`. */
  function MediaNumber(base: nat, localPos: real): int {
    base + (localPos / SEGMENT_LENGTH).Floor
  }

  /** The fuzzy comparison never confuses two origins. */
  lemma OriginsAreTellable(originSec: real, n: nat)
    requires OnGrid(originSec) && n < TWO_TO_THE_32
    ensures FuzzyEqual(originSec + 1.0, Origin(n) + 1.0) <==> originSec == Origin(n)
  {
    var m: nat :| m < TWO_TO_THE_32 && originSec == Origin(m);
    if m != n {
      assert Abs((originSec + 1.0) - (Origin(n) + 1.0)) >= 2.0;
      assert Abs(Origin(n) + 1.0) <= 8589934591.0;
    }
  }

  /** Rounding to whole units stays between whole multiples, and reaches the upper one from half a unit below. */
  lemma RoundedBetween(k: real, low: int, high: int)
    requires low as real <= k < high as real && high % 2 == 0
    ensures low <= NearestEven(k) <= high
    ensures NearestEven(k) == high <==> high as real - 0.5 <= k
  {
    assert low <= k.Floor < high;
  }

  /** The end of the segment that plays at local position `p`. */
  function SegmentEnd(p: real): real {
    SEGMENT_LENGTH * ((p / SEGMENT_LENGTH).Floor + 1) as real
  }

  lemma Scaled(n: nat, a: real, b: real)
    requires 0 < n
    ensures a <= b <==> n as real * a <= n as real * b
  {
  }

  lemma InUnits(p: real, u: real, n: nat)
    requires 0.0 < u && u * n as real == 1.0
    ensures p / u == n as real * p
  {
    assert p == p * (u * n as real) == u * (n as real * p);
  }

  /** A position of segment `j`, counted in units of 1/n seconds. */
  lemma ScaledFloor(p: real, u: real, n: nat, j: int)
    requires 0.0 < u && 0 < n && u * n as real == 1.0 && (p / SEGMENT_LENGTH).Floor == j
    ensures (2 * n * j) as real <= p / u < (2 * n * (j + 1)) as real
    ensures (2 * n * (j + 1)) as real - 0.5 <= p / u <==> SEGMENT_LENGTH * (j + 1) as real - u / 2.0 <= p
  {
    var low, high := (2 * j) as real, (2 * (j + 1)) as real;
    assert low <= p < high;
    InUnits(p, u, n);
    Scaled(n, low, p);
    Scaled(n, high, p);
    Scaled(n, high - u / 2.0, p);
    assert (2 * n * j) as real == n as real * low;
    assert (2 * n * (j + 1)) as real == n as real * high;
    assert n as real * (high - u / 2.0) == n as real * high - 0.5;
  }

  /**
   The six digits keep a position up to a million seconds in its segment, or carry it to the start
   of the next: exactly if it is within half a unit of the sixth digit of the segment's end.
   */
  lemma RenderedLeavesSegmentExactlyWhen(base: nat, p: real)
    requires 0.0 < p < 1000000.0
    ensures MediaNumber(base, Rendered(p)) == MediaNumber(base, p) + if SegmentEnd(p) - Unit(p) / 2.0 <= p then 1 else 0
  {
    var u, j := Unit(p), (p / SEGMENT_LENGTH).Floor;
    var n := UnitDividesSecond(p);
    RenderedInUnits(p, u, n, j);
    RenderedIs(p, u);
    assert MediaNumber(base, p) == base + j && SegmentEnd(p) == SEGMENT_LENGTH * (j + 1) as real;
  }

  lemma RenderedIs(p: real, u: real)
    requires 0.0 < p && u == Unit(p)
    ensures Rendered(p) == u * NearestEven(p / u) as real
  {
  }

  lemma RenderedInUnits(p: real, u: real, n: nat, j: int)
    requires 0.0 < u && 0 < n && u * n as real == 1.0 && (p / SEGMENT_LENGTH).Floor == j
    ensures (u * NearestEven(p / u) as real / SEGMENT_LENGTH).Floor
         == if SEGMENT_LENGTH * (j + 1) as real - u / 2.0 <= p then j + 1 else j
  {
    ScaledFloor(p, u, n, j);
    var high := 2 * n * (j + 1);
    assert high == 2 * (n * (j + 1));
    RoundedBetween(p / u, 2 * n * j, high);
    SegmentOfUnits(u, n, j, NearestEven(p / u));
  }

  lemma SegmentOfUnits(u: real, n: nat, j: int, m: int)
    requires 0.0 < u && 0 < n && u * n as real == 1.0 && 2 * n * j <= m <= 2 * n * (j + 1)
    ensures (u * m as real / SEGMENT_LENGTH).Floor == if m == 2 * n * (j + 1) then j + 1 else j
  {
    WholeSegments(u, n, j);
    WholeSegments(u, n, j + 1);
    UnitsAreOrdered(u, 2 * n * j, m);
    UnitsAreOrdered(u, m, 2 * n * (j + 1));
  }

  lemma WholeSegments(u: real, n: nat, j: int)
    requires u * n as real == 1.0
    ensures u * (2 * n * j) as real == (2 * j) as real
  {
    assert (2 * n * j) as real == n as real * (2 * j) as real;
    assert u * (n as real * (2 * j) as real) == (u * n as real) * (2 * j) as real;
  }

  lemma UnitsAreOrdered(u: real, a: int, b: int)
    requires 0.0 < u
    ensures a <= b ==> u * a as real <= u * b as real
    ensures a < b ==> u * a as real < u * b as real
  {
  }

  /**
   A position sent as local + origin lands, at players that start later, on their first segment;
   at the others, up to a million seconds from their start, on the sender's media sequence number,
   except exactly where the six digits carry it over to the next.
   */
  lemma PositionIsSharedExactlyWhen(senderBase: nat, localPos: real, cmd: PlaybackCmd, receiverBase: nat)
    requires 0.0 <= localPos && cmd.pos == localPos + Origin(senderBase)
    ensures var sent, p := MediaNumber(senderBase, localPos), cmd.pos - Origin(receiverBase);
      var landed := MediaNumber(receiverBase, LocalPos(cmd, Origin(receiverBase)));
      if receiverBase > sent then landed == receiverBase
      else p < 1000000.0 ==> landed == sent + if 0.0 < p && SegmentEnd(p) - Unit(p) / 2.0 <= p then 1 else 0
  {
    var p := cmd.pos - Origin(receiverBase);
    assert p / SEGMENT_LENGTH == localPos / SEGMENT_LENGTH + (senderBase - receiverBase) as real;
    assert (localPos / SEGMENT_LENGTH + (senderBase - receiverBase) as real).Floor
        == (localPos / SEGMENT_LENGTH).Floor + (senderBase - receiverBase);
    if 0.0 < p < 1000000.0 {
      RenderedLeavesSegmentExactlyWhen(receiverBase, p);
    }
  }

  /** Further out the unit is coarser, but what is sought is never more than half of it away. */
  lemma RenderedIsNear(p: real)
    requires 0.0 < p
    ensures -Unit(p) / 2.0 <= Rendered(p) - p <= Unit(p) / 2.0
  {
    RenderedIs(p, Unit(p));
    NearInUnits(p, Unit(p), p / Unit(p));
  }

  lemma NearInUnits(p: real, u: real, k: real)
    requires 0.0 < u && k == p / u
    ensures -u / 2.0 <= u * NearestEven(k) as real - p <= u / 2.0
  {
    TimesQuotient(p, u);
    NearestIsHalfAway(k);
    UnitsAreNear(u, k, NearestEven(k), u * NearestEven(k) as real, p);
  }

  /** A whole number of units, a half or less from `k` of them. */
  lemma UnitsAreNear(u: real, k: real, m: int, um: real, uk: real)
    requires 0.0 < u && -0.5 <= m as real - k <= 0.5 && um == u * m as real && uk == u * k
    ensures -u / 2.0 <= um - uk <= u / 2.0
  {
    Stretched(u, m as real, k, um, uk);
  }

  lemma TimesQuotient(p: real, u: real)
    requires 0.0 < u
    ensures u * (p / u) == p
  {
  }

  /** Half a unit each way, scaled. */
  lemma Stretched(u: real, a: real, k: real, ua: real, uk: real)
    requires 0.0 < u && -0.5 <= a - k <= 0.5 && ua == u * a && uk == u * k
    ensures -u / 2.0 <= ua - uk <= u / 2.0
  {
    var high, low := u * (k + 0.5), u * (k - 0.5);
    HalfMore(u, k, k + 0.5, uk, high);
    HalfMore(u, k - 0.5, k, low, uk);
    Ordered(u, a, k + 0.5, ua, high);
    Ordered(u, k - 0.5, a, low, ua);
  }

  lemma HalfMore(u: real, x: real, y: real, ux: real, uy: real)
    requires y == x + 0.5 && ux == u * x && uy == u * y
    ensures uy == ux + u / 2.0
  {
  }

  lemma Ordered(u: real, x: real, y: real, ux: real, uy: real)
    requires 0.0 < u && x <= y && ux == u * x && uy == u * y
    ensures ux <= uy
  {
  }

  /** For 1999.996 seconds the player is told 2000, one segment later. */
  lemma SixDigitsCanCarry()
    ensures Rendered(1999.996) == 2000.0 && MediaNumber(0, Rendered(1999.996)) == MediaNumber(0, 1999.996) + 1
  {
    assert Unit(1.999996) == 0.00001;
    assert Unit(19.99996) == 0.0001;
    assert Unit(199.9996) == 0.001;
    assert Unit(1999.996) == 0.01;
    assert 1999.996 / 0.01 == 199999.6;
  }
}
