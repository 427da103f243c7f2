# P2PTogether: the shared timeline, proved

P2PTogether lets peers watch a video together. One peer at a time streams; every peer keeps the
same window of media segments, the same roles and the same playback position, over gossip that may
delay, reorder and repeat messages. This project models the parts of the daemon (Go) and of the
desktop client (C++) that keep those views together, and proves what they guarantee.

| file | models |
|---|---|
| `SegmentLog.dfy`, `RingBuffer.dfy` | the segment window: its meaning as a function of all writes, and the slot array that implements it |
| `Text.dfy`, `Playlist.dfy`, `M3U8Monitor.dfy`, `PlaylistRoundTrip.dfy` | the HLS playlist (RFC 8216, sections 3, 4.3.2.1 and 4.3.3.2) as characters: printer, scanner, round trip, half-written files |
| `HybridClock.dfy` | the hybrid logical clock and runs of any number of nodes |
| `RoleManager.dfy`, `RoleConvergence.dfy`, `RoleMirror.dfy` | role definitions and stamped assignments, gossip convergence, the client's copy |
| `Queue.dfy` | the playlist queue and its cursor |
| `Daemon.dfy`, `Node.dfy` | queue controller, node and encoder goroutines: as a state machine, and as the two objects whose methods are proved to take its steps |
| `EventLog.dfy` | the log of a run, and how it is read |
| `Commands.dfy` | what each command, update and report does, as seen from outside |
| `BatonPass.dfy`, `RunnerLifecycle.dfy`, `FalseReports.dfy`, `StreamRanges.dfy`, `Announcements.dfy` | run properties of that state machine |
| `Player.dfy` | stamped playback commands and the common time line of the players |
| `Session.dfy` | membership, bans and the handlers that change them together with roles |

Each class method is tied to a function of the old state; the lemmas say what those functions
achieve, in terms of what can be observed, and what whole runs of them keep.

## Where a promise does not hold as it reads

For each, a lemma exhibits the failure and another gives the exact condition under which the
promise holds.

- Gossiped role assignments do not always converge: an empty assignment deletes the stamp it
  should be remembered by, and of two with equal stamps the first to arrive is kept
  (`DanglingRemovalDiverges`, `TiesDiverge`, `ConvergesExactlyWhen`).
- After a local role change the daemon stores one stamp and announces a later one, so gossip stamped
  in between is applied by the daemon and ignored by its client (`AnnouncedStampIsLater`,
  `LocalChangeLeavesGap`).
- Forwarded gossip splits daemon and client also otherwise: names with surrounding blanks, snapshot
  entries the daemon rejects, and news that a peer left or was expelled, on which the client drops
  the peer whatever its stamp (`NoticesSplitMasks`, `StepKeepsMirrorExactlyWhen`,
  `MirrorsExactlyWhenAllTakenAlike`).
- A role defined under a name with surrounding blanks is filed under the trimmed name by the daemon
  and under the untrimmed one by everyone it is announced to
  (`UpdatedDefinitionArrivesExactlyUnlessBlanks`, `AnnouncementArrivesExactlyWhenKeyedByName`).
- Reports of other peers' players can advance the queue when the current item changes to one whose
  reports are already complete: because a queue update reassigns its storer, or because an item not
  yet started has stream id 0, like the first stream (`ReassignedPassIsReachable`,
  `SkipToUnstartedLetsOthersPass`, `OthersCannotPassExactlyWhenNewHeadsWait`).
- The "is running" mark of the encoder is shared by all its goroutines: a superseded one clears it
  when it returns, and the next re-evaluation restarts a stream that is being encoded
  (`SupersededExitHidesLiveEncoder`, `HiddenEncoderIsReachable`), in every run exactly when the last
  move of the mark was not an entry for that stream (`LiveEncoderIsRestartedExactlyWhen`).
- A goroutine turned away as a duplicate reports an end of file that did not happen
  (`TurnedAwayExitReports`, `FalseEndOfFileIsReachable`). A report is false exactly when its
  goroutine found the mark set for its own task (`ReportIsFalseExactlyWhenMarkWasSet`), and none can
  follow in any schedule exactly when no start is made while an earlier one for the same file and
  number has yet to enter Start (`NoFalseReportExactlyWhenNoDuplicateStart`). An earlier one that
  has already entered does no harm.
- Removing the playing item, an unaccounted NEXT, or a restart after a late return starts a stream
  on numbers already used (`RemovingThePlayingItemReusesNumbers`, `SharedNumberIsReachable`,
  `LateReturnSharesNumber`). Exactly the starts on top of unaccounted segments do
  (`StreamsNeverShareNumbersExactlyWhen`). And a segment of a skipped encoder that arrives late can
  take its successor's number (`LateSegmentSharesNumber`, `MakersNeverShareNumbersExactlyWhen`).
- A playback command does not always reach every player: each reset is followed by a reload of the
  playlist and a seek to its start, and a command that arrives before them counts as applied but
  its position is lost for good (`CommandBeforeReloadIsLost`, `TopHoldsUnlessDisturbed`,
  `SynchronisesExactlyWhen`, `AfterResetSynchronisesExactlyWhen`).
- A position is passed to the player in six digits, which can carry it into the next segment
  (`SixDigitsCanCarry`, `RenderedLeavesSegmentExactlyWhen`).
- A message that a peer left counts whoever sends it, also about the session's admin
  (`AdminIsNeverExpelled`).
- Local clock stamps stop increasing when 65536 events share a millisecond
  (`LocalStampsIncreaseExactlyUnless`).
- `Len` is documented as the number of stored segments but counts the window with its gaps
  (`LenCountsStoredExactlyWhen`). A snapshot's base can fall when a late segment arrives
  (`SnapshotBaseCanFall`, `ArrivalLowersBaseExactlyWhen`).
- A received set of role definitions can leave assigned names undefined
  (`ReceivedDefinitionsCanBreakIntegrity`, `ReceivedDefinitionsKeepIntegrityExactlyWhen`).

## Model

| member | source | states |
|---|---|---|
| SegmentLog.LastWriteIsLatest | peer_service/internal/media/ring_buffer.go:180-211 | the write that counts for a number is the latest one in the log, whatever came between |
| SegmentLog.FirstRunIsUnique | peer_service/internal/media/ring_buffer.go:127-161 | a window has exactly one first maximal live run, so the snapshot is determined |
| SegmentLog.FirstRunIsContiguous | peer_service/internal/media/ring_buffer.go:137-161 | snapshot segments are numbered base, base+1, ..., all carry data, and there are at most capacity of them |
| SegmentLog.InOrderSnapshotIsWindow | peer_service/internal/media/ring_buffer.go:112-161 | with only in-order writes since the reset the snapshot is the last min(n, capacity) segments |
| SegmentLog.InOrderBaseIsMonotone | peer_service/internal/media/ring_buffer.go:112-161 | with only in-order writes the snapshot base never decreases and moves by at most one per write |
| SegmentLog.ArrivalLowersBaseExactlyWhen | peer_service/internal/media/ring_buffer.go:129-211 | an arrival lowers a snapshot's base iff it brings data for a number in the window below the base |
| SegmentLog.ArrivalOrderDoesNotMatter | peer_service/internal/media/ring_buffer.go:177-211 | the same segments in any order with any repeats give the same window, if none in the window conflict |
| SegmentLog.ArrivalOrderDoesNotMatterToSnapshot | peer_service/internal/media/ring_buffer.go:129-161 | and the same snapshot, up to local arrival times |
| SegmentLog.OrderIsInvisibleExactlyWhenConflictFree | peer_service/internal/media/ring_buffer.go:180-211 | arrival order and repeats are invisible iff no two arrivals still in the window disagree about a number |
| RingBuffers.SlotsAnswerAfterWrite | peer_service/internal/media/ring_buffer.go:202-210 | after a write, far ahead or late, slots indexed by number modulo capacity still answer for exactly the window |
| RingBuffers.RingBuffer.constructor | peer_service/internal/media/ring_buffer.go:58-71 | an empty buffer of window/2 slots reset to 0 |
| RingBuffers.RingBuffer.IdxForFindsLive | peer_service/internal/media/ring_buffer.go:99-110 | the slot lookup finds a number iff it is live, and finds its last write, past stale slots |
| RingBuffers.RingBuffer.MaybeAdvanceBase | peer_service/internal/media/ring_buffer.go:42-56 | the base becomes the larger of itself and next minus capacity |
| RingBuffers.RingBuffer.Write | peer_service/internal/media/ring_buffer.go:112-125 | appends one write numbered next and keeps the refinement |
| RingBuffers.RingBuffer.WriteAt | peer_service/internal/media/ring_buffer.go:177-211 | logs one write with its own number and keeps the refinement, for late, repeated and far-ahead numbers |
| RingBuffers.RingBuffer.Snapshot | peer_service/internal/media/ring_buffer.go:127-161 | returns the first maximal live run of the window |
| RingBuffers.RingBuffer.Get | peer_service/internal/media/ring_buffer.go:163-175 | the last data written for a live number, nothing for any other |
| RingBuffers.RingBuffer.GetSegmentActualDuration | peer_service/internal/media/ring_buffer.go:246-254 | the duration of a live segment, else 0 |
| RingBuffers.RingBuffer.Len | peer_service/internal/media/ring_buffer.go:85-97 | the width of the window, never above capacity |
| RingBuffers.RingBuffer.Reset | peer_service/internal/media/ring_buffer.go:233-244 | forgets every write and starts at the new base |
| RingBuffers.RingBuffer.BaseFollowsNext | peer_service/internal/media/ring_buffer.go:42-56 | in every reachable state base = max(last reset base, next - capacity) |
| RingBuffers.LenCountsStoredExactlyWhen | peer_service/internal/media/ring_buffer.go:85-97 | Len is the number of stored segments iff the window has no gaps |
| RingBuffers.PeersAgree | peer_service/internal/media/ring_buffer.go:177-244 | two buffers reset alike that received the same segments hold the same base, next and window |
| RingBuffers.SnapshotBaseCanFall | peer_service/internal/media/ring_buffer.go:129-211 | the concrete late arrival after which the snapshot base goes from 102 to 100 |
| Text.TrimLineBreak | peer_service/internal/media/m3u8_monitor.go:165-169 | a line with visible ends survives its line break being trimmed |
| Text.NumeralReadsBack | peer_service/internal/media/hls.go:41 | decimal numerals read back as the number printed |
| Text.PaddedReadsBack | peer_service/internal/media/hls.go:56 | zero-padded fractions read back as the number printed |
| Text.NumeralParses | peer_service/internal/media/hls.go:66-71 | a printed number parses as itself if it fits 32 bits and is an error otherwise |
| Text.TrimDropsBlanks | peer_service/internal/media/m3u8_monitor.go:169 | any blanks around a text are dropped, and nothing else |
| Text.AsciiBlanks | peer_service/internal/media/m3u8_monitor.go:169 | which ASCII characters count as blanks |
| Playlists.PlaylistHandler.TriggerDiscontinuity | peer_service/internal/media/hls.go:21-25 | raises the one-shot flag |
| Playlists.PlaylistHandler.ListSegments | peer_service/internal/media/hls.go:49-58 | appends exactly the EXTINF and URI lines of the segments |
| Playlists.PlaylistHandler.ServePlaylist | peer_service/internal/media/hls.go:27-63 | prints the document of the current snapshot, with the discontinuity once, and clears the flag |
| Playlists.PlaylistHandler.ServeSegment | peer_service/internal/media/hls.go:65-79 | serves the payload iff the path names a live segment |
| Playlists.MicrosIsNearest | peer_service/internal/media/hls.go:50-56 | a listed duration is within half a microsecond of the real one, ties listed as even |
| Playlists.ListedDurationIsMeasured | peer_service/internal/media/hls.go:50-56 | a segment is listed with its measured duration to the nearest microsecond, or with two seconds if it was not measured |
| Playlists.PrintedLines | peer_service/internal/media/hls.go:35-58 | line by line: the header, the first number, the discontinuity iff there is one, then duration and URI of each segment |
| M3U8Monitors.M3U8Monitor.HandleLine | peer_service/internal/media/m3u8_monitor.go:171-193 | the three-way branch has exactly the scanner's effect on its variables |
| M3U8Monitors.M3U8Monitor.ParsePlaylist | peer_service/internal/media/m3u8_monitor.go:144-213 | one poll adds the findings of a scan of the whole text and drops nothing already known |
| M3U8Monitors.M3U8Monitor.Merge | peer_service/internal/media/m3u8_monitor.go:200-210 | merges the findings over what is known |
| M3U8Monitors.M3U8Monitor.GetSegmentDuration | peer_service/internal/media/m3u8_monitor.go:215-237 | reports a duration iff one is known |
| PlaylistRoundTrip.MediaSequenceLineIsRead | peer_service/internal/media/m3u8_monitor.go:171-177 | a printed MEDIA-SEQUENCE line sets the base and restarts the index |
| PlaylistRoundTrip.ExtInfLineIsRead | peer_service/internal/media/m3u8_monitor.go:178-182 | a printed EXTINF line makes exactly its duration pending |
| PlaylistRoundTrip.SixDecimalsReadsBack | peer_service/internal/media/m3u8_monitor.go:178-182 | six-decimal durations read back exactly |
| PlaylistRoundTrip.ParseRecoversDocument | peer_service/internal/media/m3u8_monitor.go:154-212 | parsing any playlist document gives exactly its durations by implied number, whatever the start number |
| PlaylistRoundTrip.PrintThenParse | peer_service/internal/media/hls.go:28-63 | parsing a printed snapshot gives, under its own number, each segment's measured duration to the nearest microsecond or the nominal two seconds, and nothing else |
| PlaylistRoundTrip.ParsePrefixIsHarmless | peer_service/internal/media/m3u8_monitor.go:162-198 | parsing any character prefix finds a sub-map of what the whole text says |
| PlaylistRoundTrip.PollingRewrittenPlaylists | peer_service/internal/media/m3u8_monitor.go:197-212 | a monitor polling beginnings of any playlists that agree with one map of durations never holds a wrong one, and keeps all those of every playlist a poll saw whole |
| PlaylistRoundTrip.PollingIsSafeAndComplete | peer_service/internal/media/m3u8_monitor.go:197-212 | a monitor polling a growing file never holds a wrong duration, and all of them once a poll saw the whole |
| PlaylistRoundTrip.SnapshotIsDocument | peer_service/internal/media/hls.go:35-58 | every printed playlist is a document in the sense of the parser theorems |
| PlaylistRoundTrip.ListedUriAsksForItsSegment | peer_service/internal/media/hls.go:57-69 | the request for a listed URI asks for exactly the segment it was printed for |
| PlaylistRoundTrip.TooLargeBaseIsIgnored | peer_service/internal/media/m3u8_monitor.go:171-177 | a MEDIA-SEQUENCE that does not fit 32 bits changes nothing |
| PlaylistRoundTrip.WholeSecondsAreRead | peer_service/internal/media/m3u8_monitor.go:178-182 | a duration without a dot is a whole number of seconds |
| PlaylistRoundTrip.DurationWithoutCommaIsIgnored | peer_service/internal/media/m3u8_monitor.go:178-182 | a duration line without its comma changes nothing |
| PlaylistRoundTrip.MalformedDurationIsIgnored | peer_service/internal/media/m3u8_monitor.go:178-182 | a duration with two dots changes nothing |
| PlaylistRoundTrip.NameWithoutDurationIsIgnored | peer_service/internal/media/m3u8_monitor.go:183-194 | a file name counts for the pending duration once, and a second one for nothing |
| PlaylistRoundTrip.UnnumberedCountsFromStart | peer_service/internal/media/m3u8_monitor.go:156-157 | without a MEDIA-SEQUENCE line the segments are numbered from the encoder's start number |
| HybridClocks.HybridClock.GetCurrentHLC | peer_service/internal/common/time.go:28-43 | one local tick and its packed stamp |
| HybridClocks.HybridClock.UpdateHLC | peer_service/internal/common/time.go:45-80 | one receipt, past both the own clock and the remote stamp, and its packed stamp |
| HybridClocks.UnpackInvertsPackExactlyWhen | peer_service/internal/common/time.go:15-26 | unpacking inverts packing iff the counter fits 16 bits |
| HybridClocks.StampsAreShifted | peer_service/internal/common/time.go:15-26 | a stamp is the time shifted by 16 bits, and the counter |
| HybridClocks.ClockFollowsWall | peer_service/internal/common/time.go:28-80 | the clock's time is the latest of its own, the wall's and the received one |
| HybridClocks.PackPreservesOrder | peer_service/internal/common/time.go:15-19 | packed stamps compare as integers exactly as (time, counter) pairs |
| HybridClocks.LocalStampsIncreaseExactlyUnless | peer_service/internal/common/time.go:28-43 | consecutive local stamps increase iff the wall clock moved or the 16-bit counter did not wrap |
| HybridClocks.MergeAdvances | peer_service/internal/common/time.go:54-77 | a receipt's stamp is after the own clock and after the remote stamp |
| HybridClockRuns.DirectPredecessorIsLess | peer_service/internal/common/time.go:28-80 | an event's stamp is after its node's previous ones and after the one it received |
| HybridClockRuns.CausalityIsRespected | peer_service/internal/common/time.go:17-80 | in any run of any nodes with any walls and deliveries, happened-before implies a smaller packed stamp while counters fit |
| HybridClockRuns.TimeIsBoundedByWalls | peer_service/internal/common/time.go:28-80 | no stamp's time runs ahead of the largest wall reading taken so far |
| HybridClockRuns.StampIsNotBehindWall | peer_service/internal/common/time.go:28-80 | in every run no stamp is behind the wall its node read |
| HybridClockRuns.CounterIsWitnessed | peer_service/internal/common/time.go:28-80 | counter c at time t is backed by a chain of c+1 distinct events at time t |
| HybridClockRuns.FewEventsPerMillisecondFit | peer_service/internal/common/time.go:15-80 | with at most 65536 events per millisecond every counter fits and unpacking is exact |
| HybridClockRuns.CausalityAtBoundedRate | peer_service/internal/common/time.go:15-80 | hence causality holds under a bound on the event rate alone |
| RoleManagers.RoleManager.constructor | peer_service/internal/roles/role_manager.go:15-80 | the default definitions and no assignments |
| RoleManagers.RoleManager.GetPermissionsForPeer | peer_service/internal/roles/role_manager.go:123-144 | the union of the peer's defined roles |
| RoleManagers.RoleManager.Validate | peer_service/internal/roles/role_manager.go:153-165 | the trimmed, lowered names if all are defined |
| RoleManagers.RoleManager.SetPeerRoles | peer_service/internal/roles/role_manager.go:146-194 | stores a changed assignment at the next clock stamp and reports it as stored, changes nothing otherwise, keeps integrity |
| RoleManagers.RoleManager.AllDefinitions | peer_service/internal/roles/role_manager.go:276-282 | the announcement holds every definition exactly once |
| RoleManagers.RoleManager.UpdateDefinition | peer_service/internal/roles/role_manager.go:261-285 | adds or overwrites one definition unless its name is blank, and announces all; keeps integrity |
| RoleManagers.RoleManager.RemoveDefinition | peer_service/internal/roles/role_manager.go:287-348 | announces the remaining definitions, reports each holder exactly once with its remaining names at successive stamps, strips or deletes its entry, leaves others untouched; keeps integrity |
| RoleManagers.RoleManager.StripPeer | peer_service/internal/roles/role_manager.go:318-345 | the effect on one peer: untouched without the role, else stripped, stamped and reported |
| RoleManagers.RoleManager.ApplyDefinitionsUpdate | peer_service/internal/roles/role_manager.go:352-383 | replaces all definitions, later entries winning |
| RoleManagers.RoleManager.ApplyPeerAssignment | peer_service/internal/roles/role_manager.go:385-421 | applies an assignment iff its names are defined and it is newer or first; keeps integrity |
| RoleManagers.RoleManager.ApplyAllAssignmentsSnapshot | peer_service/internal/roles/role_manager.go:423-445 | applies every usable entry through its own gate; keeps integrity |
| RoleManagers.RemovalKeepsIntegrity | peer_service/internal/roles/role_manager.go:311-345 | after a removal every assigned name is still defined and no list is empty |
| RoleConvergence.LowerLeavesNoCapitals | peer_service/internal/roles/role_manager.go:156 | lowering replaces exactly the capital letters |
| RoleConvergence.NamesMatchLoosely | peer_service/internal/roles/role_manager.go:153-165 | names are matched whatever their capitals and surrounding blanks |
| RoleConvergence.DefaultRolesAreNamed | peer_service/internal/roles/role_manager.go:17-44 | each default role is found under its own name |
| RoleConvergence.PermissionsAreNumbered | peer_service/internal/roles/roles.go:6-30 | the place of each permission that is checked among the 13 |
| RoleConvergence.DefaultRolesMay | peer_service/internal/roles/roles.go:6-30 | what the four default roles may do, bit by bit |
| RoleConvergence.NamesAreKeptInOrder | peer_service/internal/roles/role_manager.go:153-165 | names are accepted iff all are defined, and kept one by one in order |
| RoleConvergence.GivenRolesGrant | peer_service/internal/roles/role_manager.go:146-194 | a peer given roles may do exactly what some of them allows; nobody else's entry changes |
| RoleConvergence.GivenRolesAreStoredOnce | peer_service/internal/roles/role_manager.go:167-194 | all roles given are stored, stamped only if they differ, and giving them again changes nothing |
| RoleConvergence.WithoutConcat | peer_service/internal/roles/role_manager.go:320-327 | stripping a role filters the names one by one, in order |
| RoleConvergence.UsableConcat | peer_service/internal/roles/role_manager.go:429-445 | every usable snapshot entry is taken, in order |
| RoleConvergence.LaterDefinitionsHold | peer_service/internal/roles/role_manager.go:366-382 | received definitions are taken in order, and of two for one name the later holds |
| RoleConvergence.MaskGrantsWhatSomeRoleGrants | peer_service/internal/roles/role_manager.go:136-143 | a mask grants a permission iff some assigned defined role does |
| RoleConvergence.RemovalMasks | peer_service/internal/roles/role_manager.go:299-347 | after a removal the reported peers hold the union of their remaining roles, all others' masks are unchanged |
| RoleConvergence.DefinedNames | peer_service/internal/roles/role_manager.go:366-382 | the names a received message defines are the lowered names of its named entries, each with a role of that name |
| RoleConvergence.ReceivedDefinitionsKeepIntegrityExactlyWhen | peer_service/internal/roles/role_manager.go:366-382 | received definitions keep integrity iff every assigned name is the lowered name of an entry of the message |
| RoleConvergence.ReceivedDefinitionsCanBreakIntegrity | peer_service/internal/roles/role_manager.go:366-382 | a message after which an assigned name is undefined and its permissions are gone |
| RoleConvergence.IntegrityHoldsExactlyWhileCovered | peer_service/internal/roles/role_manager.go:146-421 | from the defaults, over every run of changes, removals and received assignments and definitions, every assigned name is defined and no list is empty iff the received definitions cover the names assigned |
| RoleConvergence.GroupingDoesNotMatter | peer_service/internal/roles/role_manager.go:423-445 | splitting messages into singles and snapshots does not matter |
| RoleConvergence.TopWins | peer_service/internal/roles/role_manager.go:407-420 | a newest non-empty assignment stands once it has been seen |
| RoleConvergence.DanglingRemovalDiverges | peer_service/internal/roles/role_manager.go:410-417 | two orders of the same messages, one ending with an entry and one without |
| RoleConvergence.FirstTopStays | peer_service/internal/roles/role_manager.go:410-413 | of newest assignments with equal stamps the first to arrive is kept |
| RoleConvergence.TiesDiverge | peer_service/internal/roles/role_manager.go:410-413 | two orders of messages with a disagreeing tie, ending with different entries |
| RoleConvergence.ConvergesExactlyWhen | peer_service/internal/roles/role_manager.go:388-445 | all orders and repeats agree iff newest non-empty assignments of a peer with equal stamps agree, and a peer whose newest are all empty has no non-empty one |
| RoleConvergence.NonEmptyAssignmentsConverge | peer_service/internal/roles/role_manager.go:388-445 | non-empty assignments whose newest ties agree converge, for every grouping, to the newest of each peer |
| RoleStores.RoleStore.ProcessRoleDefinitionsUpdate | client/roles/role_store.cpp:25-56 | the client replaces its definitions like the daemon |
| RoleStores.RoleStore.ProcessPeerRoleAssignment | client/roles/role_store.cpp:58-97 | the client stores, drops or ignores an assignment by its stamp |
| RoleStores.RoleStore.GetPermissionsForPeer | client/roles/role_store.cpp:204-225 | the union over the lowered, untrimmed names |
| RoleMirror.BlanksShow | client/roles/role_store.cpp:214-217 | the client's key for a name is the daemon's iff the name has no surrounding blanks |
| RoleMirror.StepKeepsMirrorExactlyWhen | peer_service/main.go:1872-1943 | one forwarded message keeps client and daemon in agreement iff they take it alike: no blanks in an applied assignment, no undefined names in a newer snapshot entry, a leave newer than the peer's assignment, an expelled peer without roles |
| RoleMirror.MirrorsExactlyWhenAllTakenAlike | peer_service/main.go:1872-1960 | the two agree all through a run of forwarded gossip iff they take each of its messages alike |
| RoleMirror.NoticesSplitMasks | client/gui/app.cpp:561-604 | after a late leave notice, or an expulsion, of a peer with roles the daemon keeps its mask and the client has none |
| RoleMirror.MirrorsComputeTheSameMask | client/roles/role_store.cpp:204-225 | after any run of forwarded gossip that is taken alike both hold the same stamps and compute the same masks |
| RoleMirror.AnnouncementArrivesExactlyWhenKeyedByName | peer_service/internal/roles/role_manager.go:276-284 | applying an announcement reproduces the announcer's definitions iff each is filed under its own lowered name |
| RoleMirror.UpdatedDefinitionArrivesExactlyUnlessBlanks | peer_service/internal/roles/role_manager.go:265-284 | after an update receivers have the same definitions iff the role's name has no surrounding blanks |
| RoleMirror.AnnouncedStampIsLater | peer_service/main.go:1293-1305 | the stamp announced after a local change is later than the one stored |
| RoleMirror.LocalChangeLeavesGap | peer_service/main.go:1293-1305 | gossip after a local change, a removal included, leaves both with the same roles iff no roles were stored or its stamp is not in the gap |
| Queues.Queue.ReplaceItems | peer_service/internal/p2p/queue.go:30-39 | the new list with the cursor clamped, or at the first item |
| Queues.Queue.UpdateCursorAfterMutation | peer_service/internal/p2p/queue.go:67-86 | the clamping rule |
| Queues.Queue.Append | peer_service/internal/p2p/queue.go:88-101 | appends; an idle queue starts the new item |
| Queues.Queue.Remove | peer_service/internal/p2p/queue.go:103-126 | removes one position and moves the cursor; refuses an index out of range |
| Queues.Queue.Clear | peer_service/internal/p2p/queue.go:128-133 | empties the list and goes idle |
| Queues.Queue.Head | peer_service/internal/p2p/queue.go:135-144 | the current item, if any |
| Queues.Queue.AdvanceCursor | peer_service/internal/p2p/queue.go:146-157 | the next item, idle past the end |
| Queues.Queue.RewindCursor | peer_service/internal/p2p/queue.go:200-211 | the previous item, idle at the first |
| Queues.Queue.SetItemAtCursor | peer_service/internal/p2p/queue.go:168-178 | overwrites the current item only |
| Queues.CursorStaysInRange | peer_service/internal/p2p/queue.go:30-211 | over every run of operations -1 <= cursor < length |
| Queues.RemoveElsewhereKeepsHead | peer_service/internal/p2p/queue.go:110-125 | removing another position keeps the current item, tracked by position |
| Queues.RemoveHeadPlaysSuccessor | peer_service/internal/p2p/queue.go:112-121 | removing the current item plays its successor, else the new last one, else nothing |
| Queues.AppendKeepsHead | peer_service/internal/p2p/queue.go:90-101 | appending keeps the current item and starts the new one only when idle |
| Queues.RewindUndoesAdvanceExactlyWhen | peer_service/internal/p2p/queue.go:148-211 | rewinding undoes advancing iff advancing did not run off the end |
| Queues.AppendLandsLast | peer_service/internal/p2p/queue.go:88-101 | a new item lands behind all others |
| Queues.RemoveLeavesOthers | peer_service/internal/p2p/queue.go:103-126 | whatever plays, a removal takes one position out and leaves all others in order |
| Queues.ReplaceKeepsCursorWhereItReaches | peer_service/internal/p2p/queue.go:30-39 | a new list keeps the cursor where it still reaches, else plays the last item, and starts an idle queue |
| Queues.MovesPlayNeighbours | peer_service/internal/p2p/queue.go:148-211 | advancing plays the next item and rewinding the one before, or nothing |
| Queues.IdleStaysIdle | peer_service/internal/p2p/queue.go:148-211 | a queue in which nothing plays cannot be moved |
| Queues.SetHeadOverwritesOnlyHead | peer_service/internal/p2p/queue.go:168-178 | only the current item is overwritten |
| Nodes.QueueController.UpdateGlobalMediaSequence | peer_service/internal/p2p/queue_controller.go:96-105 | the next start number only grows |
| Nodes.QueueController.NotifyEncoderFinished | peer_service/internal/p2p/queue_controller.go:131-143 | records the report and attempts the pass |
| Nodes.QueueController.NotifyPlayerStreamCompleted | peer_service/internal/p2p/queue_controller.go:145-156 | records the report of one peer and attempts the pass |
| Nodes.QueueController.CheckAndAttemptQueueAdvance | peer_service/internal/p2p/queue_controller.go:158-200 | forgets reports of a stream that is not the head, passes on when both reports are in, waits otherwise |
| Nodes.QueueController.Handle | peer_service/internal/p2p/queue_controller.go:239-400 | a permitted command takes its step, announces what it changed and re-evaluates the runner; others are refused |
| Nodes.QueueController.BroadcastQueue | peer_service/internal/p2p/queue_controller.go:363-393 | clients and peers are told the queue |
| Nodes.QueueController.Execute | peer_service/internal/p2p/queue_controller.go:256-393 | the effect of each command type on queue, runner and start number, and its announcement if it changed the queue |
| Nodes.QueueController.AccountForSkip | peer_service/internal/p2p/queue_controller.go:309-324 | a skip stops the encoder and accounts for the ring if this node streamed |
| Nodes.QueueController.ApplyUpdate | peer_service/internal/p2p/queue_controller.go:402-463 | a permitted update replaces the list by its decodable items, tells the own clients and re-evaluates the runner |
| Nodes.Node.constructor | peer_service/internal/p2p/node.go:68-75 | a node with no runner and no context |
| Nodes.Node.StopCurrentEncoder | peer_service/internal/p2p/node.go:329-344 | cancels the current context, if there is one |
| Nodes.Node.EnsureRunnerState | peer_service/internal/p2p/node.go:105-327 | starts, keeps or stops the runner |
| Nodes.Node.StartRunner | peer_service/internal/p2p/node.go:161-309 | a start numbers the head, announces queue and stream, cancels the previous context, resets the ring, makes the next playlist announce a discontinuity, and makes a new context |
| Nodes.Node.ReactToQueueUpdate | peer_service/internal/p2p/node.go:346-394 | runs the head iff it is this node's and it may stream |
| Nodes.Node.RoutineBegins | peer_service/internal/media/encode_runner.go:41-53 | a goroutine marks the shared runner, unless the same task is marked already |
| Nodes.Node.RoutineExits | peer_service/internal/p2p/node.go:270-309 | a returning goroutine clears the mark; only the current, uncancelled one at end of file reports |
| Nodes.Node.SegmentArrives | peer_service/internal/media/ingest.go:63-64 | a segment moves the ring's next number up to at least its own |
| Nodes.Node.PlaylistResetArrives | peer_service/main.go:1963-1974 | a foreign reset merges its stamp, restarts the ring and makes the next playlist announce a discontinuity |
| Commands.RefusedChangesNothing | peer_service/internal/p2p/queue_controller.go:242-251 | without the permission nothing happens, unless the node itself asks for the next item |
| Commands.AppendAppends | peer_service/internal/p2p/queue_controller.go:256-277 | a permitted append puts the sender's item last, and plays it if nothing plays |
| Commands.RemoveRemoves | peer_service/internal/p2p/queue_controller.go:278-281 | a permitted removal takes one item out; the cursor follows its item, or its successor, or the new last one |
| Commands.ClearClears | peer_service/internal/p2p/queue_controller.go:282-286 | a clear empties the queue |
| Commands.MovesMove | peer_service/internal/p2p/queue_controller.go:287-358 | NEXT and SKIP_NEXT play the next item, SKIP_PREV the one before, or nothing at the ends; the list stays |
| Commands.SkipBackUndoesSkipExactlyUnless | peer_service/internal/p2p/queue_controller.go:306-358 | skipping on and back returns to the same item iff the skip did not run off the end |
| Commands.UpdateReplaces | peer_service/internal/p2p/queue_controller.go:402-463 | a permitted update puts the list in place of the queue, with the cursor where it still reaches; a refused one changes nothing |
| Commands.DecodedConcat | peer_service/internal/p2p/queue_controller.go:416-437 | every decodable item of an update is taken, in order |
| Commands.ReactStreamsExactlyWhenItMust | peer_service/internal/p2p/node.go:105-394 | after re-evaluation the current item is being encoded from the next start number iff this node stores it and may stream, else what runs is cancelled |
| Commands.StartNeedsOwnItem | peer_service/internal/p2p/node.go:105-140 | no step starts an encoder unless the current item is this node's own and it may stream |
| Commands.MovingOnCancels | peer_service/internal/p2p/queue_controller.go:282-346 | CLEAR, both skips and NEXT from the last item cancel what is encoded |
| Commands.StopLeavesNothingEncoding | peer_service/internal/p2p/node.go:329-344 | stopping cancels the current context, or without one ends the live mark, and nothing else |
| Commands.SkipAccountsForOwnItem | peer_service/internal/p2p/queue_controller.go:309-346 | a skip of an own item, and no other command, moves the next start number above all that was produced |
| Commands.EncoderReportPassesExactlyWhen | peer_service/internal/p2p/queue_controller.go:131-200 | an encoder report advances the queue iff it completes the head's pair of reports |
| Commands.ReportsAreKeptWhileCurrent | peer_service/internal/p2p/queue_controller.go:158-172 | reports of the current stream are kept until complete, those of another forgotten; no other stream's are touched |
| Commands.PassUsesUpReports | peer_service/internal/p2p/queue_controller.go:180-199 | a pass leaves no report of its stream |
| Commands.CurrentExitEndsEncoding | peer_service/internal/p2p/node.go:284-309 | a current goroutine that returns without reporting only ends the encoding |
| Commands.EndOfFileAccounts | peer_service/internal/p2p/node.go:288-302 | an end of file is on record, and moves the next start number above all that was produced |
| Commands.RingFollows | peer_service/internal/media/ring_buffer.go:188-244 | a segment moves the ring to at least its number, a foreign reset to its own |
| BatonPass.EveryPassIsBackedAndConsumes | peer_service/internal/p2p/queue_controller.go:131-200 | in every state of every run each pass was backed by both reports since the last cleanup, and passes never outnumber encoder reports or the storer's player reports |
| BatonPass.PlayerReportPassesExactlyWhen | peer_service/internal/p2p/queue_controller.go:145-200 | a player report advances the queue iff it completes the head's pair of reports |
| BatonPass.OthersCanPassExactlyWhenReady | peer_service/internal/p2p/queue_controller.go:165-180 | a report of a player other than the storer's can advance the queue iff both reports of the head are waiting |
| BatonPass.OthersCannotPassExactlyWhenNewHeadsWait | peer_service/internal/p2p/queue_controller.go:158-200 | in every run no state lets other players advance the queue iff no change of the head brought up one whose reports were complete |
| BatonPass.OtherPlayersNeverPass | peer_service/internal/p2p/queue_controller.go:165-180 | then no report of a player other than the current storer's advances the queue, whoever the storers are |
| BatonPass.ReassignedStorerLetsOthersPass | peer_service/internal/p2p/queue_controller.go:402-462 | the update after which anyone's report advances the queue |
| BatonPass.ReassignedPassIsReachable | peer_service/internal/p2p/queue_controller.go:402-462 | a run from the start in which that happens |
| BatonPass.SkipToUnstartedLetsOthersPass | peer_service/internal/p2p/queue_controller.go:325-358 | a run without queue updates in which a skip to an unstarted item lets another peer's report advance the queue |
| BatonPass.FixedListPlaysOut | peer_service/internal/p2p/queue_controller.go:287-304 | with a fixed list each pass moves on by exactly one item, so at most length passes are made |
| Announcements.AnnouncedIsCurrent | peer_service/internal/p2p/queue_controller.go:363-463 | in every state of every run the own clients were told the queue as it stands and the stream started last; the other peers too, if no list of theirs has replaced it |
| Announcements.UpdateTellsOnlyClients | peer_service/internal/p2p/queue_controller.go:445-463 | a received list is not announced to the other peers, unless it makes this node start a stream |
| Announcements.EffectsAreAnnounced | peer_service/internal/p2p/queue_controller.go:256-393 | a permitted command is announced to everyone iff it changed the list, reached an item, or made this node start a stream |
| RunnerLifecycle.AtMostOneLive | peer_service/internal/p2p/node.go:206-261 | in every reachable state every context but the current one is cancelled |
| RunnerLifecycle.SupersededForever | peer_service/internal/p2p/node.go:206-282 | a superseded context stays superseded and cancelled for the rest of the run |
| RunnerLifecycle.SupersededExitIsSilent | peer_service/internal/p2p/node.go:274-283 | a goroutine superseded at any point of a run changes nothing but the shared mark when it returns at any later point |
| RunnerLifecycle.PassesReportsStarts | peer_service/internal/p2p/node.go:258-309 | in every state of every run a stream was passed on at most as often as its end was reported, and that at most as often as it was started |
| RunnerLifecycle.ExitReportsExactlyWhen | peer_service/internal/p2p/node.go:279-308 | a returning goroutine reports iff it is current, uncancelled and at end of file |
| RunnerLifecycle.ReactChangesNothingExactlyWhen | peer_service/internal/p2p/node.go:151-157 | re-evaluation changes nothing iff the mark is for this head from this start number, or a stopped runner is stopped |
| RunnerLifecycle.ReactRestartsUntilBegun | peer_service/internal/p2p/node.go:151-309 | until the new goroutine enters Start, each re-evaluation cancels and starts again |
| RunnerLifecycle.SupersededExitHidesLiveEncoder | peer_service/internal/media/encode_runner.go:55-64 | a superseded encoder's cleanup makes the next re-evaluation restart a live one |
| RunnerLifecycle.HiddenEncoderIsReachable | peer_service/internal/media/encode_runner.go:41-64 | a run of two files and one skip that reaches that state |
| FalseReports.NextMakesOne | peer_service/internal/p2p/node.go:151-261 | a step makes at most one new goroutine, for a task not marked as running, and otherwise leaves the mark alone |
| FalseReports.MarkTellsLastMove | peer_service/internal/media/encode_runner.go:41-64 | in every run the shared mark is set for a task iff its last move was the entry of a goroutine of that task |
| FalseReports.LiveEncoderIsRestartedExactlyWhen | peer_service/internal/p2p/node.go:146-157 | in every run re-evaluation restarts the stream its own encoder is encoding iff another goroutine moved the mark since |
| FalseReports.PhaseTellsHistory | peer_service/internal/media/encode_runner.go:41-53 | a goroutine was turned away iff it found the mark set for its task, and has encoded otherwise |
| FalseReports.ReportIsFalseExactlyWhenMarkWasSet | peer_service/internal/media/encode_runner.go:43-47 | in every run a reporting goroutine never encoded anything iff it found the mark set for its task on entering Start |
| FalseReports.NoFalseReportExactlyWhenNoDuplicateStart | peer_service/internal/p2p/node.go:151-309 | in every run no schedule of the goroutines makes a false report follow iff no start was made while an earlier one for the same task had yet to enter Start |
| FalseReports.FalseReportNeedsDuplicateStart | peer_service/internal/p2p/node.go:151-309 | every false report comes after such a start |
| FalseReports.TurnedAwayExitReports | peer_service/internal/media/encode_runner.go:43-47 | a duplicate turned away by Start reports the end of its stream |
| FalseReports.FalseEndOfFileIsReachable | peer_service/internal/media/encode_runner.go:43-47 | a run in which the end of a stream is reported though no segment was produced |
| StreamRanges.IncreasingExactlyWhenAccounted | peer_service/internal/p2p/queue_controller.go:85-105 | successive streams never share a number iff every start stood at or above the ring |
| StreamRanges.ArrivedIsWhatTheRingHeld | peer_service/internal/p2p/node.go:216-220 | without foreign resets the ring's next number is the end of what arrived while the current stream was current |
| StreamRanges.StreamsNeverShareNumbersExactlyWhen | peer_service/internal/p2p/queue_controller.go:306-358 | over every run without foreign resets what arrives for successive streams has disjoint, increasing numbers iff no step but an end of file or a skip of an own item starts a stream while the ring holds unaccounted segments |
| StreamRanges.MakersNeverShareNumbersExactlyWhen | peer_service/internal/p2p/queue_controller.go:306-358 | when all starts are accounted for, successive encoders make disjoint, increasing numbers iff no segment of a superseded one arrives at or above the next stream's start |
| StreamRanges.LateSegmentSharesNumber | peer_service/internal/p2p/node.go:206-220 | a run in which a late segment of a skipped encoder has the number of its successor's first |
| StreamRanges.StartKeepsRangesApartExactlyWhenQuiet | peer_service/internal/p2p/node.go:216-220 | any restart keeps the ranges apart iff the ring stands at or below the next start number |
| StreamRanges.RemovingThePlayingItemReusesNumbers | peer_service/internal/p2p/queue_controller.go:278-304 | removing the playing item, or NEXT, in mid-stream makes the next stream reuse numbers |
| StreamRanges.SharedNumberIsReachable | peer_service/internal/p2p/queue_controller.go:278-304 | a run from the start in which either does |
| StreamRanges.LateReturnSharesNumber | peer_service/internal/media/encode_runner.go:55-64 | a run in which a skipped encoder returns late, and re-evaluation restarts its successor on used numbers |
| Players.App.OnPlaybackStateCmd | client/gui/app.cpp:155-218 | applies a command iff it is for the active stream and newer, at a position of six digits never before the start |
| Players.App.OnPlaylistReset | client/gui/app.cpp:219-318 | takes over stream, stamp and origin, asks for a seek once the file is loaded, and finds the first item with the stream's number |
| Players.App.OnFileLoaded | client/gui/app.cpp:253-270 | the player is told the position asked for by the last reset, once |
| Players.App.NextMonotonicPlaybackHlcTs | client/gui/app.cpp:926-935 | a local stamp is later than everything applied and not behind the wall clock |
| Players.App.SetLocalPlaybackOriginSec | client/gui/app.cpp:937-948 | sets a non-negative origin unless it is fuzzily the same |
| Players.App.OnPlaylistReady | client/gui/video_panel.cpp:109-124 | the time line moves to the probed media sequence number unless the fuzzy comparison hides the change, which it never does between starts of segments; the playlist is loaded anew |
| Players.App.SendPlaybackStateCommand | client/gui/video_panel.cpp:33-76 | sends the global position and advances the own stamp |
| Players.CommandIsObeyedExactlyWhen | client/gui/app.cpp:155-213 | a command plays or pauses, sets the speed and seeks iff it is for the active stream and newer, else it is ignored |
| Players.SentCommandIsObeyed | client/gui/video_panel.cpp:33-76 | what one player sends, another of its stream obeys: mode, speed, and the same global time to half a unit of the sixth digit |
| Players.ResetOutdatesCommands | client/gui/app.cpp:229-270 | after a reset commands of other streams, or stamped no later, are ignored, and the next load seeks its start once |
| Players.ProbeMovesOrigin | client/gui/video_panel.cpp:109-124 | a probe moves the origin to two seconds per segment before the probed one; a failed one leaves it |
| Players.SynchronisesExactlyWhen | client/gui/app.cpp:155-275 | between resets all orders and repeats of the commands, among any reloads and loads of the player, end the same iff the commands sharing the top stamp agree and the player's own events do not leave it elsewhere |
| Players.AfterResetSynchronisesExactlyWhen | client/gui/app.cpp:219-281 | with the reload and load that follow a reset, iff they ask for the very position where the reset starts |
| Players.CommandBeforeReloadIsLost | client/gui/video_panel.cpp:109-124 | one command before or after the reload, ending at the start or at its position |
| Players.FirstTopDecides | client/gui/app.cpp:168-212 | of all commands but the first top one to arrive no trace is left |
| Players.TopHoldsUnlessDisturbed | client/gui/app.cpp:168-275 | every run ends with the top command's stamp and mode, and at its position at the final origin iff no reload or due load follows it, else where these leave the player |
| Players.RestingPosition | client/gui/app.cpp:253-275 | reloads and loads leave the player at the reset's start iff a due load comes last, else at the file's start |
| Players.OriginsAreTellable | client/gui/app.cpp:941-943 | the fuzzy comparison never confuses two segment-aligned origins |
| Players.RenderedLeavesSegmentExactlyWhen | client/gui/app.cpp:190-196 | six digits carry a position into the next segment iff it is within half a unit of the sixth digit of the segment's end |
| Players.SixDigitsCanCarry | client/gui/app.cpp:190-196 | a position that is passed to the player one segment later |
| Players.RenderedIsNear | client/gui/app.cpp:190-196 | at any distance the position passed on is at most half a unit of its sixth digit away |
| Players.PositionIsSharedExactlyWhen | client/gui/video_panel.cpp:57-58 | a sent position lands on the first segment of players that start later, else on the sender's media sequence number, or the next iff the six digits carry it over |
| Sessions.SessionManager.CreateSession | peer_service/internal/session/session_manager.go:36-85 | a new session with its admin as only member and Admin |
| Sessions.SessionManager.AddPeerToSession | peer_service/internal/session/session_manager.go:95-136 | adds a new member with the given or default roles; an existing one is unchanged |
| Sessions.SessionManager.RemovePeerFromSession | peer_service/internal/session/session_manager.go:138-156 | removes a member and says whether there was one |
| Sessions.SessionManager.IsPeerBanned | peer_service/internal/session/session_manager.go:158-170 | whether the peer is banned |
| Sessions.SessionManager.BanPeer | peer_service/internal/session/session_manager.go:172-197 | removes and bans |
| Sessions.SessionManager.IsPeerInSession | peer_service/internal/session/session_manager.go:199-210 | whether the peer is a member |
| Sessions.Server.HandleAuthStream | peer_service/main.go:1122-1160 | admits a peer iff the session is this admin's and the peer is not banned |
| Sessions.Server.Expellable | peer_service/main.go:1400-1443 | the checks that kick and ban share |
| Sessions.Server.HandleKickPeerCmd | peer_service/main.go:1400-1476 | a permitted kick removes the target and its roles |
| Sessions.Server.HandleBanPeerCmd | peer_service/main.go:1478-1549 | a permitted ban removes, bans and strips the target |
| Sessions.Server.HandleLeave | peer_service/main.go:350-363 | leaving removes the sender from the current session |
| Sessions.Server.HandleGossipPeerLeft | peer_service/main.go:1920-1940 | merges the stamp; the peer named, whoever the sender, loses its membership, and its roles if the message is newer |
| Sessions.BannedPeersStayOut | peer_service/internal/session/session_manager.go:95-197 | once banned, a peer is a member in no later state of any run |
| Sessions.AdminIsNeverExpelled | peer_service/main.go:1412-1438 | the admin is never banned and stops being a member exactly by its own leave or a message, from anyone, that it left |
| Sessions.ExpelledPeersLosePermissions | peer_service/main.go:1455-1538 | right after a kick or ban the target is outside and has an empty mask |
| Sessions.MembersExactlyAfter | peer_service/internal/session/session_manager.go:95-156 | after any step the members are those before, less those it takes out, and those it brings in |
| Sessions.BannedExactlyAfter | peer_service/internal/session/session_manager.go:172-197 | the banned are those before, and one expelled by a ban, on record as given |
| Sessions.RecordsStay | peer_service/internal/session/session_manager.go:95-210 | sessions keep name and admin, members what is on record about them |
| Sessions.OthersKeepTheirRoles | peer_service/main.go:1140-1538 | no step changes the roles or the mask of anyone but its subject |
| Sessions.AdmittedPeerMayViewAndChat | peer_service/main.go:1152-1160 | under the default definitions a new member is a Viewer: it may view and chat and nothing else |
| Sessions.CreatorMayDoEverything | peer_service/internal/session/session_manager.go:36-85 | who creates a session is its only member and may do everything |
| Sessions.RejoiningChangesNothing | peer_service/internal/session/session_manager.go:105-111 | a member that joins again keeps its roles |
| Sessions.AddedPeersHaveTheirRoles | peer_service/internal/session/session_manager.go:113-133 | a peer added without roles is a Viewer, others have the roles given |
| Sessions.LeaverLosesRolesExactlyWhenNewer | peer_service/main.go:1920-1934 | news that a peer left takes its roles iff it is newer than they are |

## Left out

- Write: wrap-around of the 32-bit sequence number is excluded by a precondition, as for WriteAt.
- RemoveDefinition: requires a wall reading for each peer it may visit; the source reads the clock as it goes.
- StartRunner: does not model the stamp of the stream it announces, a reading of the clock, nor those of queue updates.
- PositionIsSharedExactlyWhen: for positions over a million seconds, where the sixth digit stands for ten seconds or more, only the distance is bounded (RenderedIsNear).
- RewindCursor: requires the cursor to be in range, which every operation keeps.
- ServeSegment: requires a path long enough to cut `/seg_` and `.ts` off, as the route guarantees.
- Pack: exact for times that fit 48 bits; the 64-bit overflow of the shift is not modelled.
- Rounding of 64-bit floats: durations, positions and origins are exact reals; numerals parse to their exact value.
- The order of received role definitions and of received queue updates: the source has no gate for them, so no convergence is claimed.
- What the client does on its own: its default role, clearing, and starting over when it was itself kicked or banned.
- What the player does with what it is told: seeks while a file loads, and its own start position.
- Letter case beyond ASCII, invalid UTF-8, and alternative spellings of one peer id; ids are compared decoded.
- Interleavings inside one handler: each call of the controller, the node and the handlers is one step.
- The controller's early return when its dependencies are not set.
- Permission reads inside the queue and runner steps: the bits read are arguments of the step, so the run theorems hold for any answers.
- The retry loop and process handling of the encoder: Start is a beginning and an end with one of three outcomes.
- Read errors, file watching and timers of the monitor: a poll sees some text. The file it watches is written by ffmpeg in the same line grammar as the playlist the daemon prints.
- The segment event channel, the write cursor of the ring, logging, locks.
- The controller's last known playback state, analytics counters, topic handling, chat, transport, discovery and all of the user interface.
