# Verified models of the conversation runtime

A Dafny model of the stateful core of the conversation runtime: the voice hub's playback side, the media
gateway's reservations and timed capture, the recognition restart scheduler, the incremental parsers and
codecs, and controlled memory. Each state machine is given as functions on values (one function per
lock-held section, hand-over outside a lock, transaction or callback) and theorems over every run, that is
over every interleaving of those steps. The records that are updated in place are classes. Those of playback,
the recogniser lane, timed capture, the restart scheduler and the memory table keep their own history: each
method is proved to be one more step of a run, so that the theorems hold of the objects. The modules named
`Histories`, `Rules`, `Forms`, `Streams`, `Containers` and `Bodies` fix every operation from outside: what holds
at any time is told by what happened before and not undone since, and what a decoder accepts by the bytes
themselves.

`dafny verify dfyconfig.toml` checks everything.

| Files | Component |
|---|---|
| `Playback`, `PlaybackRuns`, `PlaybackHistories`, `NetworkSessions` | playback side of the network voice hub |
| `RecognitionLanes` | the lossy recogniser branch of capture |
| `MediaLeases`, `MediaSessions`, `CaptureRuns`, `CaptureHistories`, `ReservationFencing`, `LeaseHistories`, `RateWindows` | media reservations, timed capture, fencing, record budgets |
| `BigEndian`, `CaptureTiming`, `TimingCursors`, `WireForms` | capture-timing records and their wire forms |
| `MediaPackets`, `MediaReaders`, `MediaEncodings`, `MediaProducers`, `PacketForms`, `PacketStreams` | media packets, the resumable packet reader, and packets from the producer's side |
| `Incremental`, `Ndjson`, `NdjsonBodies`, `WavStreams`, `WavContainers`, `WavBodies`, `WavDecoder` | chunk-independent parsing in general, NDJSON responses, streamed WAV speech |
| `RecognitionRestarts`, `RestartHistories` | recognition epochs: backoff, rolling limit, segment numbers |
| `MemoryRows`, `MemoryRuns`, `MemoryHistories`, `MemoryTables`, `Retrieval`, `RetrievalRules` | controlled memory: transactions, lifecycle, ranked retrieval |
| `Histories` | what began and has not ended since, over any run |
| `Wrappers` | shared value types and machine widths |

Where the code does not meet a property one would expect, the code is modelled as it is, a lemma exhibits
the failure, and another states exactly when the property holds:

* Frames can reach a transport out of issue order, and can be acknowledged before they are handed over, since
  the hand-over happens outside the lock (`LaterFrameOvertakes`, `AcceptedBeforeHandOver`);
  `OvertakenExactlyInFlight` and `AcceptedAfterHandOver` say exactly when.
* A loss on the recogniser lane can be reported by more than one discontinuity (`TwoReportsForOneLoss`);
  `LossIsReported` says exactly when.
* An encoded finish boundary is refused by the decoder exactly for session zero (`FinishDecodesEncoded`).
* A committed frame goes to whichever reservation is in the session's slot, since committing is not fenced
  by the connection's token (`StaleCommitReopensAFrame`). `CommitsToItsOwnReservation` says exactly when it
  is the connection's own. The theorems of `CaptureRuns` are about one reservation and its own connections.
* Segment numbers of a later recognition epoch are not always higher: `LaterEpochsNumberHigher` gives the
  exact condition, which a provider number of zero (`NumberZeroRepeats`) and a saturated shift
  (`SaturatedShiftRepeats`) break.

## Model

| member | source | states |
|---|---|---|
| `PlaybackRuns.ReachableIsOwned` | crates/model-adapters/src/network_voice_io.rs:533-952 | in every reachable session: frames without a connection are exactly the waiting ones, tagged frames and flushes belong to the attached transport, the byte counter is the sum of the waiting payloads and within its limit, at most 16 frames are pending |
| `PlaybackRuns.StepOwned` | crates/model-adapters/src/network_voice_io.rs:533-1289 | every operation of the hub session keeps that ownership invariant |
| `PlaybackRuns.PendingOwnership` | crates/model-adapters/src/network_voice_io.rs:855-952 | a pending frame has no connection if and only if it is in the waiting queue; a connection it has is the attached one |
| `PlaybackRuns.ReattachDrainsInOrder` | crates/model-adapters/src/network_voice_io.rs:533-580 | a re-attach is refused only for its three stated reasons; otherwise it hands over all pending frames, oldest first, in a batch that fits the fresh queue, so the drain cannot fail |
| `PlaybackRuns.FinishIsNeverOwnedElsewhere` | crates/model-adapters/src/network_voice_io.rs:595-658 | the "owned elsewhere" refusal of a planned finish is unreachable |
| `PlaybackRuns.StepLives` | crates/model-adapters/src/network_voice_io.rs:855-1289 | every operation, and every hand-over outside the lock, advances the life of any one sequence number in order and never twice |
| `PlaybackRuns.LifeIsHistory` | crates/model-adapters/src/network_voice_io.rs:855-1289 | the tracked life of a sequence number agrees with the events of the run, both ways |
| `PlaybackRuns.EventsHappenOnce` | crates/model-adapters/src/network_voice_io.rs:899-1046 | in any run a number is issued, accepted and rendered at most once, handed over or refused by its queue at most once and never both, and its completion is answered at most once, with one verdict |
| `PlaybackRuns.EventsHappenInOrder` | crates/model-adapters/src/network_voice_io.rs:855-1046 | hand-over and acceptance follow issue, rendering follows acceptance |
| `PlaybackRuns.AcceptedAfterHandOver` | crates/model-adapters/src/network_voice_io.rs:927-941 | an accepted frame was handed over before if and only if it is neither still in flight nor was refused by its queue |
| `PlaybackRuns.AcceptedBeforeHandOver` | crates/model-adapters/src/network_voice_io.rs:926-941 | a run in which a frame is acknowledged before it is handed over |
| `PlaybackRuns.SettledForGood` | crates/model-adapters/src/network_voice_io.rs:1149-1172 | a settled number never becomes pending again |
| `PlaybackRuns.SentIsWhatWasEnqueued` | crates/model-adapters/src/network_voice_io.rs:855-952 | what a transport is given under a number is the frame enqueued under it |
| `PlaybackRuns.OvertakenExactlyInFlight` | crates/model-adapters/src/network_voice_io.rs:926-941 | of two numbers handed over in different steps the larger one goes first if and only if the smaller one is in flight, between its issue and its hand-over, when the larger one goes |
| `PlaybackRuns.SerialCallersKeepOrder` | crates/model-adapters/src/network_voice_io.rs:855-941 | a frame issued while none is in flight overtakes nothing: every smaller number is handed over before it or never |
| `PlaybackRuns.LaterFrameOvertakes` | crates/model-adapters/src/network_voice_io.rs:926-941 | a run of two overlapping callers in which frames issued as 1 and 2 reach the transport as 2 and 1 |
| `PlaybackRuns.BarrierOnce` | crates/model-adapters/src/network_voice_io.rs:472-510 | at most one recorder barrier is delivered per reservation |
| `PlaybackHistories.IssuedExactly` | crates/model-adapters/src/network_voice_io.rs:865-926 | in any run a number is issued if and only if no finish took the transport off, fewer than 16 frames are pending, the counter has a number left, and either a transport was attached and not detached since, or the last loss left a reconnect deadline that is not past and was neither expired nor ended by an attach since, and the frame fits the byte bound beside the waiting ones |
| `PlaybackHistories.TransportIsHistory` | crates/model-adapters/src/network_voice_io.rs:533-683 | a transport is attached exactly since an attach that was taken and no loss or finish of it since |
| `PlaybackHistories.WindowIsHistory` | crates/model-adapters/src/network_voice_io.rs:739-853 | a reconnect window is open exactly since the loss that set its deadline, until the next attach or its own expiry |
| `PlaybackHistories.FinishIsHistory` | crates/model-adapters/src/network_voice_io.rs:595-683 | the session is finishing exactly since a transport was taken off for it |
| `PlaybackHistories.VoiceIsHistory` | crates/model-adapters/src/network_voice_io.rs:287-302 | voice input is there exactly since the first step that attached it |
| `PlaybackHistories.PendingIsHistory` | crates/model-adapters/src/network_voice_io.rs:855-1289 | a frame is pending, under its generation, exactly from its issue to the first step that plays it, cancels it, or gives it up with its transport, its window or its generation |
| `PlaybackHistories.ProgressIsHistory` | crates/model-adapters/src/network_voice_io.rs:685-1046 | its rendering deadline is the one its acceptance came with, and it is written from its marking on |
| `PlaybackHistories.EventsExactly` | crates/model-adapters/src/network_voice_io.rs:472-1289 | exactly which step accepts, answers, renders, fails or hands over a frame, finds its queue unwilling, or delivers the recorder barrier |
| `PlaybackHistories.AnsweredExactly` | crates/model-adapters/src/network_voice_io.rs:287-1289 | every step is answered with success if and only if it does what it was asked for, each action with its own condition on transport, frame, flush and voice input; every reason given for a refusal holds |
| `PlaybackHistories.ToldExactly` | crates/model-adapters/src/network_voice_io.rs:739-1289 | exactly which generations a step reports: the written ones of a transport that goes, and the overdue ones of a sweep |
| `PlaybackHistories.DeliveryIsHistory` | crates/model-adapters/src/network_voice_io.rs:472-683 | the finish belongs to the connection it was taken off from and is delivered from its first delivery on |
| `PlaybackHistories.FlushIsHistory` | crates/model-adapters/src/network_voice_io.rs:1048-1172 | a flush is pending exactly from its request, which needs a transport, room among 16 and no equal one, to its acknowledgement, cancellation or the end of its transport |
| `PlaybackHistories.FlightIsHistory` | crates/model-adapters/src/network_voice_io.rs:866-941 | a frame is in flight exactly from its issue for an attached transport to its hand-over |
| `NetworkSessions.NetworkSession.EnqueuePlayback` | crates/model-adapters/src/network_voice_io.rs:866-926 | the lock-held part of an enqueue is one more step of the session's run; it issues a number if and only if the session is not finishing, fewer than 16 frames are pending, the counter has a number left, and a transport is attached, or the reconnect deadline is not past and the frame fits beside the waiting ones; it names the transport exactly when the frame is then in flight |
| `NetworkSessions.NetworkSession.HandOver` | crates/model-adapters/src/network_voice_io.rs:927-941 | the hand-over of a frame in flight is one more step, and a frame its queue refuses is cancelled |
| `NetworkSessions.NetworkSession.AttachTransport` | crates/model-adapters/src/network_voice_io.rs:533-580 | in any session with a history the attach with its draining loop is one more step, taken if and only if it is for this reservation, no transport is attached and the session is not finishing; neither the lookup nor the send of the drain can fail |
| `NetworkSessions.NetworkSession.DisconnectTransport` | crates/model-adapters/src/network_voice_io.rs:739-824 | the disconnect is one more step, and reports exactly the failed completions and flushed generations |
| `NetworkSessions.NetworkSession.DetachForFinish` | crates/model-adapters/src/network_voice_io.rs:595-683 | the planned detach is one more step, and never answers that a frame is owned elsewhere |
| `NetworkSessions.NetworkSession.ExpireWaitingFrames` | crates/model-adapters/src/network_voice_io.rs:826-853 | the expiry of waiting frames is one more step of the session's run |
| `NetworkSessions.NetworkSession.ExpireAcceptedGenerations` | crates/model-adapters/src/network_voice_io.rs:1225-1289 | the expiry of accepted generations is one more step of the session's run |
| `NetworkSessions.NetworkSession.AcknowledgePlayback` | crates/model-adapters/src/network_voice_io.rs:954-1046 | an acknowledgement is one more step of the session's run |
| `NetworkSessions.NetworkSession.CancelPendingPlayback` | crates/model-adapters/src/network_voice_io.rs:1149-1167 | a cancellation, which takes the frame and its bytes out of the middle of the queue, is one more step of the session's run |
| `NetworkSessions.NetworkSession.MarkPlaybackWritten` | crates/model-adapters/src/network_voice_io.rs:685-706 | marking a frame as written is one more step of the session's run |
| `NetworkSessions.NetworkSession.RequestFlushOf` | crates/model-adapters/src/network_voice_io.rs:1048-1107 | the lock-held part of a flush request is one more step of the session's run |
| `NetworkSessions.NetworkSession.AcknowledgeFlushOf` | crates/model-adapters/src/network_voice_io.rs:1109-1147 | a flush acknowledgement is one more step of the session's run |
| `NetworkSessions.NetworkSession.CancelPendingFlush` | crates/model-adapters/src/network_voice_io.rs:1168-1172 | so is the cancellation of a flush |
| `NetworkSessions.NetworkSession.AttachVoiceInput` | crates/model-adapters/src/network_voice_io.rs:287-302 | attaching the voice input is one more step of the session's run, refused exactly when it is attached already |
| `NetworkSessions.NetworkSession.DeliverCaptureFinish` | crates/model-adapters/src/network_voice_io.rs:472-510 | the delivery of the recorder barrier is one more step of the session's run, so that it succeeds at most once |
| `NetworkSessions.PositionOf` | crates/model-adapters/src/network_voice_io.rs:1149-1167 | the search finds the frame whose removal the cancel step describes, or reports that it is not waiting |
| `NetworkSessions.SettleEach` | crates/model-adapters/src/network_voice_io.rs:763-800 | frame-by-frame removal fails exactly the open completions and flushes exactly the written generations of the removed frames |
| `RecognitionLanes.RecognitionLane.OfferEvent` | crates/model-adapters/src/network_voice_io.rs:142-178 | an offer is one more step of the lane's run |
| `RecognitionLanes.RecognitionLane.Receive` | crates/model-adapters/src/network_voice_io.rs:142-178 | what is received is the next event of the stream the offers have sent |
| `RecognitionLanes.RunAccounted` | crates/model-adapters/src/network_voice_io.rs:142-178 | for every interleaving of offers and receives the sent stream tiles the offered one: each sent event is an offered one or a discontinuity for exactly the events lost before it |
| `RecognitionLanes.AdjacentFrames` | crates/model-adapters/src/network_voice_io.rs:142-178 | two frames adjacent on delivery were adjacent when offered |
| `RecognitionLanes.LossIsReported` | crates/model-adapters/src/network_voice_io.rs:142-178 | between two kept events there is a discontinuity if and only if something was lost, and more than one if and only if an offered discontinuity finds a debt and room and the very next offer, before the next kept event, finds the queue full |
| `RecognitionLanes.TwoReportsForOneLoss` | crates/model-adapters/src/network_voice_io.rs:142-178 | a run in which one maximal loss is reported by two discontinuities |
| `RecognitionLanes.LostExactly` | crates/model-adapters/src/network_voice_io.rs:142-178 | an offered event is not sent, in any interleaving, if and only if it finds all 16 places taken, or it is a frame, finds one place free and the offer before it was not sent either |
| `RecognitionLanes.ReportedTime` | crates/model-adapters/src/network_voice_io.rs:142-178 | what is sent for a loss carries the time of the first event lost if that was a discontinuity, and zero otherwise |
| `MediaSessions.TimedMediaState.AdmitDomain` | crates/model-adapters/src/capture_timing.rs:37-52 | the in-place domain history admits exactly the current domain or a new one within 256 |
| `MediaSessions.TimedMediaState.AdmitEpochRecord` | apps/runtime-gateway/src/media_server.rs:1150-1189 | in-place epoch admission with its domain history computes the epoch step and changes nothing when refused |
| `MediaSessions.MediaSession.AuthenticateConnection` | apps/runtime-gateway/src/media_server.rs:1325-1411 | an admission is one more step of the reservation's run; a token is issued if and only if credential, version and bridge are those of the reservation, neither deadline is past, no connection is there, the capture is not finished and a number is left; a refusal changes nothing |
| `MediaSessions.MediaSession.ReleaseConnection` | apps/runtime-gateway/src/media_server.rs:1531-1559 | a release by the holder is one more step, and any other token changes nothing |
| `MediaSessions.MediaSession.ReleasePlannedConnection` | apps/runtime-gateway/src/media_server.rs:1624-1633 | the same of a planned release |
| `MediaSessions.MediaSession.RenewCredential` | apps/runtime-gateway/src/media_server.rs:566-583 | a renewal is one more step, granted if and only if the capture is not finished, the lease is not past its expiry and a connection is there or the reconnect deadline is not past |
| `MediaSessions.MediaSession.AdmitTimedRate` | apps/runtime-gateway/src/media_server.rs:1116-1148 | asking for a place in a window is one more step, after which the task holds an admitted record or has ended |
| `MediaSessions.MediaSession.AdmitEpochRecord` | apps/runtime-gateway/src/media_server.rs:1150-1189 | an epoch record is one more step, after which the task goes on or has ended |
| `MediaSessions.MediaSession.AdmitClockPair` | apps/runtime-gateway/src/media_server.rs:1191-1236 | the same of a clock pair |
| `MediaSessions.MediaSession.AdmitDiscontinuity` | apps/runtime-gateway/src/media_server.rs:1191-1236 | the same of a discontinuity |
| `MediaSessions.MediaSession.ValidateTimedFrame` | apps/runtime-gateway/src/media_server.rs:1238-1291 | the check of a frame is one more step, after which the task holds exactly the checked frame with the hole verdict, or has ended |
| `MediaSessions.MediaSession.Deliver` | apps/runtime-gateway/src/media_server.rs:925 | the hub taking the checked frame, or failing, is one more step |
| `MediaSessions.MediaSession.CommitTimedFrame` | apps/runtime-gateway/src/media_server.rs:926-928 | a commit is one more step, and the frame comes strictly after every frame committed before in its clock domain and epoch |
| `MediaSessions.MediaSession.AdmitCaptureFinish` | apps/runtime-gateway/src/media_server.rs:1567-1619 | a finish is one more step, admitted exactly when it comes from the holder and names the current epoch, the last clock pair and the last committed frame |
| `CaptureRuns.StepSound` | apps/runtime-gateway/src/media_server.rs:889-931 | every lock-held section of a connection, and every renewal, reconnect and release, keeps the watermark invariant |
| `CaptureRuns.CommitTracked` | apps/runtime-gateway/src/media_server.rs:917-929 | a validated frame, when committed, extends the history in order and the watermarks describe it |
| `CaptureRuns.EpochTracked` | apps/runtime-gateway/src/media_server.rs:1150-1189 | an admitted epoch or domain change leaves every committed frame behind the watermarks |
| `CaptureRuns.CommittedOnce` | apps/runtime-gateway/src/media_server.rs:917-929 | no frame of a clock domain and capture epoch is ever committed twice, over any run of epochs, reconnects and domain changes; sample ranges are disjoint and increasing |
| `CaptureRuns.RecordedOnce` | apps/runtime-gateway/src/media_server.rs:917-929 | the same of the frames that reach the recorder, which is delivered to before the commit |
| `CaptureRuns.RecorderIsAhead` | apps/runtime-gateway/src/media_server.rs:917-929 | the recorder has the committed frames and at most one more, and one more exactly while an online connection is between delivery and commit |
| `CaptureRuns.AbortLeavesAFrame` | apps/runtime-gateway/src/media_server.rs:917-931 | a connection that is aborted leaves a recorded frame that is never committed if and only if it was between delivery and commit |
| `CaptureRuns.AbortedForGood` | apps/runtime-gateway/src/media_server.rs:917-931 | an aborted connection stays admitted, so that nothing is recorded or committed any more |
| `CaptureRuns.UnbrokenFramesTile` | apps/runtime-gateway/src/media_server.rs:1286-1290 | frames with no reported hole between them tile the output: sample counts add up to the range and sequences are consecutive |
| `CaptureRuns.FinishNamesTheLastFrame` | apps/runtime-gateway/src/media_server.rs:1567-1619 | the watermarks are never inconsistent, and exactly one boundary is admitted: current epoch, last clock pair, last committed frame |
| `CaptureRuns.FinishedForGood` | apps/runtime-gateway/src/media_server.rs:1561-1619 | after an admitted finish no record, finish or renewal is admitted for the rest of the run: watermarks, windows and expiry stand still while the connection closes, and nothing at all changes after |
| `CaptureRuns.RetiredForGood` | crates/model-adapters/src/capture_timing.rs:37-52 | a clock domain that stopped being current never returns in the reservation |
| `CaptureRuns.LogGrows` | apps/runtime-gateway/src/media_server.rs:917-929 | the history of committed frames only grows |
| `CaptureRuns.BudgetHolds` | apps/runtime-gateway/src/media_server.rs:1096-1148 | through every reconnect, renewal and epoch change each budget admits at most n+1 times its limit in n seconds, whatever the other kind of record does |
| `CaptureRuns.BudgetIsGranted` | apps/runtime-gateway/src/media_server.rs:1096-1148 | a record whose kind was admitted fewer times than its limit in the second before it is admitted, unless the capture is finished |
| `CaptureHistories.EpochExactly` | apps/runtime-gateway/src/media_server.rs:1150-1189 | in any run a capture epoch is taken if and only if it is proper and of this bridge, its domain is the current one or was never used among fewer than 256, and its number rises in its domain, or is repeated by the first record of a connection; otherwise the connection ends |
| `CaptureHistories.PairExactly` | apps/runtime-gateway/src/media_server.rs:1191-1236 | a clock pair is taken if and only if it is of the current domain and later than the last one in sequence and midpoint and not earlier in its wall clock epoch; a discontinuity if and only if it names the current epoch and is not an alignment limit |
| `CaptureHistories.FrameExactly` | apps/runtime-gateway/src/media_server.rs:1238-1291 | a frame is held if and only if it is the configured PCM, of the current epoch and behind everything committed in it, with the verdict whether it joins on to the last one |
| `CaptureHistories.RateExactly` | apps/runtime-gateway/src/media_server.rs:1116-1148 | a record that asks for its place gets it or ends the connection, and gets none once the capture is finished or, for metadata, in an untimed reservation |
| `CaptureHistories.FinishExactly` | apps/runtime-gateway/src/media_server.rs:894-1619 | a finish goes on to the planned close if and only if the connection has taken an epoch, the capture is drainable and not finished, and the boundary names the current epoch, the last clock pair and the last committed frame of that epoch; otherwise the connection ends |
| `CaptureHistories.ConnectionExactly` | apps/runtime-gateway/src/media_server.rs:992-1635 | apart from its records a connection task moves exactly when a connection is admitted, closes or is aborted |
| `CaptureHistories.StartedIsHistory` | apps/runtime-gateway/src/media_server.rs:894-928 | a connection has started exactly from the first capture epoch it takes until it is gone |
| `CaptureHistories.RecordedExactly` | apps/runtime-gateway/src/media_server.rs:917-925 | a frame is recorded exactly when the checked one is delivered, under the current domain and epoch |
| `CaptureHistories.CommittedExactly` | apps/runtime-gateway/src/media_server.rs:926-928 | and committed exactly when the delivered one is |
| `CaptureHistories.MarksAreHistory` | apps/runtime-gateway/src/media_server.rs:1150-1222 | the current epoch is the last one taken, the domains in use are those of all taken, and the current clock pair is the last one taken since the last change of domain |
| `CaptureHistories.PairsRise` | apps/runtime-gateway/src/media_server.rs:1205-1218 | over any run the clock pairs taken in one domain rise in sequence and midpoint and never fall in their wall clock epoch |
| `RateWindows.AdmitRateWindow` | apps/runtime-gateway/src/media_server.rs:1096-1113 | the in-place window computes the admission step |
| `RateWindows.RateBound` | apps/runtime-gateway/src/media_server.rs:1096-1113 | any half-open interval of n seconds admits at most n+1 times the limit |
| `RateWindows.GrantedExactly` | apps/runtime-gateway/src/media_server.rs:1096-1113 | a request is granted if and only if fewer than the limit were granted in its window, which is the current one for less than a second from its start and a fresh one from then on |
| `RateWindows.RoomIsGranted` | apps/runtime-gateway/src/media_server.rs:1096-1113 | in particular whenever fewer than the limit were granted in the second before it |
| `ReservationFencing.ReachableIsOrderly` | apps/runtime-gateway/src/media_server.rs:485-551 | under any interleaving of reserve, revoke, renew, authenticate, release and finish a reservation is active exactly when one connection holds it |
| `ReservationFencing.TokensAreFresh` | apps/runtime-gateway/src/media_server.rs:1382-1411 | a token (reservation epoch, connection id) is issued at most once, across all reservations of the session |
| `ReservationFencing.OutlivedTokenIsInert` | apps/runtime-gateway/src/media_server.rs:1531-1633 | a token no longer held is never held again, and releasing or finishing with it changes nothing |
| `ReservationFencing.LostForGood` | apps/runtime-gateway/src/media_server.rs:589-620 | once media is lost, no connection is admitted to that reservation, no renewal moves its expiry, and it stays lost while it is in the slot |
| `ReservationFencing.ReleaseOpensTheWindow` | apps/runtime-gateway/src/media_server.rs:1531-1559 | after a holder's release the rightful bridge is admitted exactly until the reconnect deadline and the expiry, under a new token and with the watermarks kept, and the media is lost exactly when it no longer would be |
| `ReservationFencing.RenewalKeepsTheDeadline` | apps/runtime-gateway/src/media_server.rs:561-583 | a renewal moves only the expiry; a disconnected bridge gains nothing past its reconnect deadline |
| `LeaseHistories.AdmittedExactly` | apps/runtime-gateway/src/media_server.rs:1325-1411 | in any run a token of a reservation is issued if and only if the credential, bridge and version offered are those of the installation that is still in the slot, no connection was admitted and not released since, no finish was admitted, neither deadline is past, and the connection counter has a number left |
| `LeaseHistories.CredentialsAreHistory` | apps/runtime-gateway/src/media_server.rs:485-551 | the reservation in the slot is bound to the credential, bridge and version it was installed with, until it is revoked or replaced |
| `LeaseHistories.ExpiryIsHistory` | apps/runtime-gateway/src/media_server.rs:485-583 | its expiry is that of the installation or of the last renewal granted since |
| `LeaseHistories.DeadlineIsHistory` | apps/runtime-gateway/src/media_server.rs:1531-1559 | its reconnect deadline is that of the installation or of the last release since |
| `LeaseHistories.ConnectionIsHistory` | apps/runtime-gateway/src/media_server.rs:1382-1633 | a connection is there exactly from its admission to its own release |
| `LeaseHistories.FinishIsHistory` | apps/runtime-gateway/src/media_server.rs:1531-1619 | the capture is finished exactly since its finish was admitted, and released exactly since the first release |
| `LeaseHistories.DrawnIsHistory` | apps/runtime-gateway/src/media_server.rs:485-551 | an epoch can be installed exactly from its draw to its installation, and is drawn only while the counter is below its end |
| `LeaseHistories.DrawnOnce` | apps/runtime-gateway/src/media_server.rs:485-551 | no epoch is drawn twice, and the numbers rise one by one |
| `LeaseHistories.RecordsExactly` | apps/runtime-gateway/src/media_server.rs:1116-1291 | the records of a connection leave their windows and watermarks in the slot, never another bridge |
| `ReservationFencing.CommitsToItsOwnReservation` | apps/runtime-gateway/src/media_server.rs:926-928 | a record goes to the reservation that admitted its connection if and only if no other was installed since |
| `ReservationFencing.StaleCommitReopensAFrame` | apps/runtime-gateway/src/media_server.rs:926-928 | a run in which the bridge of a revoked reservation commits a frame it had validated into the next reservation, and a frame refused there as a replay is admissible again |
| `BigEndian.DecodeEncode` | crates/model-adapters/src/capture_timing.rs:477-519 | a number that fits its width decodes to itself |
| `BigEndian.EncodeDecode` | crates/model-adapters/src/capture_timing.rs:477-519 | bytes re-encode to themselves |
| `BigEndian.UnpackPack` | crates/model-adapters/src/capture_timing.rs:477-519 | a row of fitting fields unpacks to itself |
| `BigEndian.PackUnpack` | crates/model-adapters/src/capture_timing.rs:477-519 | bytes of the right length repack to themselves |
| `CaptureTiming.FrameDecodesEncoded` | crates/model-adapters/src/capture_timing.rs:119-245 | frame provenance encodes if and only if valid, to 88 bytes that decode to it |
| `CaptureTiming.FrameEncodesDecoded` | crates/model-adapters/src/capture_timing.rs:199-245 | every accepted 88 bytes are the encoding of what they decode to |
| `CaptureTiming.FrameLayout` | crates/model-adapters/src/capture_timing.rs:160-197 | each field stands at its offset |
| `CaptureTiming.EpochDecodesEncoded` | crates/model-adapters/src/capture_timing.rs:254-286 | capture epochs decode from their encoding |
| `CaptureTiming.EpochEncodesDecoded` | crates/model-adapters/src/capture_timing.rs:272-286 | every accepted epoch record is the encoding of its value |
| `CaptureTiming.PairDecodesEncoded` | crates/model-adapters/src/capture_timing.rs:358-410 | clock pairs decode from their encoding, negative wall clocks included |
| `CaptureTiming.PairEncodesDecoded` | crates/model-adapters/src/capture_timing.rs:387-410 | every accepted pair record is the encoding of its value |
| `CaptureTiming.FinishDecodesEncoded` | apps/runtime-gateway/src/media_server.rs:1925-1964 | a valid boundary decodes from its encoding if and only if its session is not zero, and is refused otherwise |
| `CaptureTiming.FinishEncodesDecoded` | apps/runtime-gateway/src/media_server.rs:1925-1964 | every accepted 41 bytes are the encoding of a valid boundary |
| `CaptureTiming.FinishLayout` | apps/runtime-gateway/src/media_server.rs:1954-1964 | the byte layout of the finish body |
| `WireForms.FrameExactly` | crates/model-adapters/src/capture_timing.rs:119-245 | bytes decode to a frame if and only if they are its 88 bytes, field by field, and the frame is plausible |
| `WireForms.EpochExactly` | crates/model-adapters/src/capture_timing.rs:254-286 | bytes decode to a capture epoch if and only if they are its two identifiers, its number and a one |
| `WireForms.PairExactly` | crates/model-adapters/src/capture_timing.rs:358-410 | bytes decode to a clock pair if and only if they are its domain and its 57 bytes, field by field, and the pair is plausible |
| `WireForms.FinishExactly` | apps/runtime-gateway/src/media_server.rs:1925-1964 | bytes decode to a finish boundary if and only if they are its 41 bytes, field by field, and it is plausible |
| `WireForms.PcmExactly` | crates/model-adapters/src/capture_timing.rs:148-161 | a frame goes with PCM of its own rate and of as many bytes as its samples take on every channel |
| `WireForms.IdentifierExactly` | crates/model-adapters/src/capture_timing.rs:477-519 | identifiers are exactly the UTF-8 forms, of 1 to 64 bytes, of texts without control characters |
| `TimingCursors.DecodeEpochRecord` | crates/model-adapters/src/capture_timing.rs:272-286 | decoding with the moving cursor computes the epoch decoder |
| `TimingCursors.TimingCursor.Id` | crates/model-adapters/src/capture_timing.rs:477-520 | the cursor takes one length-prefixed identifier or nothing |
| `Incremental.DrainResumes` | crates/model-adapters/src/ollama.rs:790-830 | for a parser whose decisions are stable, parsing a and then b is parsing a + b |
| `Incremental.ChunkingIsIrrelevant` | crates/model-adapters/src/openai_compatible_streaming_speech.rs:209-288 | for such a parser every chunking of a stream parses to the same items and end |
| `MediaPackets.TargetIsAhead` | apps/runtime-gateway/src/media_server.rs:1782-1843 | a header target exceeds the bytes at hand and every target is within the packet bound, so every read asks for at least one byte |
| `MediaPackets.TargetStands` | apps/runtime-gateway/src/media_server.rs:1782-1843 | once the length or a rejection is decided, more bytes do not change it |
| `MediaReaders.TakerIsStable` | apps/runtime-gateway/src/media_server.rs:1782-1922 | taking a packet off the front consumes bytes and is stable under more input |
| `MediaReaders.FragmentationIsIrrelevant` | apps/runtime-gateway/src/media_server.rs:1993-2055 | every fragmentation gives the messages, first error and remainder of the whole stream |
| `MediaReaders.MediaPacketReader.NextMessage` | apps/runtime-gateway/src/media_server.rs:2021-2055 | for reads of any size, interruption before any read and reads that fail: the next message is the first of the whole remaining stream, a clean end happens only at a packet boundary, an interruption loses no byte, the buffer stays within the packet bound |
| `MediaReaders.ReadAll` | apps/runtime-gateway/src/media_server.rs:2021-2055 | through any interruptions what is read is a beginning of the whole stream's messages, and all of them up to the first error unless the connection is lost |
| `MediaEncodings.AcceptedPacketIsBuilt` | apps/runtime-gateway/src/media_server.rs:1845-1922 | an accepted packet is byte for byte the packet built from its message: no byte is ignored, no two packets say the same |
| `MediaProducers.SendableIsAccepted` | apps/runtime-gateway/src/media_server.rs:1782-1922 | conversely the packet built from every well-formed message is accepted and parses to that message |
| `MediaProducers.AcceptedIsSendable` | apps/runtime-gateway/src/media_server.rs:1782-1922 | and only those: the accepted packets are exactly the built packets of the well-formed messages |
| `PacketForms.PacketExactly` | apps/runtime-gateway/src/media_server.rs:1782-1922 | a packet is accepted as a message if and only if its bytes are laid out so, mark by mark and field by field, and the message is one a producer may send |
| `PacketStreams.StreamExactly` | apps/runtime-gateway/src/media_server.rs:1782-2055 | a stream is read as a list of messages if and only if it is made of packets laid out as these messages and of bytes that no packet is at the front of, and ends cleanly if and only if nothing is left |
| `PacketStreams.SentIsRead` | apps/runtime-gateway/src/media_server.rs:1782-2055 | the packets of any messages a producer may send, cut into any fragments, are read back as exactly these messages and a clean end |
| `MediaEncodings.FrameIsBuilt` | apps/runtime-gateway/src/media_server.rs:2057-2079 | the same for untimed frames |
| `MediaEncodings.AckIsBuilt` | apps/runtime-gateway/src/media_server.rs:2081-2103 | the same for playback and flush acknowledgements |
| `MediaEncodings.BodyIsBuilt` | apps/runtime-gateway/src/media_server.rs:1864-1922 | the same for the body of every timed record |
| `Ndjson.ParsesLineByLine` | crates/model-adapters/src/ollama.rs:779-859 | incremental parsing is splitting the whole stream at newlines and judging each record in order, blanks skipped, records and tails over 64 KiB refused |
| `Ndjson.ChunkingDoesNotMatter` | crates/model-adapters/src/ollama.rs:790-830 | every chunking gives the responses and verdict of the whole stream |
| `NdjsonBodies.BodyExactly` | crates/model-adapters/src/ollama.rs:779-859 | a body of lines, in any chunks, is answered record by record up to the first one that is over 64 KiB or does not decode, at which it fails; without one it waits with its unfinished line, which may not be over 64 KiB |
| `NdjsonBodies.EveryStreamHasLines` | crates/model-adapters/src/ollama.rs:790-830 | every stream is made of such lines and an unfinished one |
| `Ndjson.LineEndIsFirst` | crates/model-adapters/src/ollama.rs:800-802 | the split position is a newline and the first one |
| `Ndjson.NdjsonResponseParser.AppendPartial` | crates/model-adapters/src/ollama.rs:834-841 | the partial record grows only within 64 KiB |
| `Ndjson.NdjsonResponseParser.NextResponse` | crates/model-adapters/src/ollama.rs:790-822 | the next response of partial record and chunk is the first of the reference, and the rest is what remains of it |
| `Ndjson.NdjsonResponseParser.Feed` | crates/model-adapters/src/ollama.rs:790-822 | a chunk yields all its responses in order or the failure |
| `Ndjson.ParseBody` | crates/model-adapters/src/ollama.rs:779-840 | a body in any chunks yields the reference's responses and is accepted exactly when no record is bad and nothing follows the last newline |
| `WavStreams.ContainerStands` | crates/model-adapters/src/openai_compatible_streaming_speech.rs:298-335 | a decision about the container at the front never changes with more bytes |
| `WavStreams.WalkStands` | crates/model-adapters/src/openai_compatible_streaming_speech.rs:345-373 | a found or broken header stays so with more bytes |
| `WavContainers.CompleteExactly` | crates/model-adapters/src/openai_compatible_streaming_speech.rs:298-335 | a container is complete if and only if its marks are there, it states its size within the limit, all its bytes are there, and no chunk before its data is unreadable or leaves the size of the data open |
| `WavContainers.OpenExactly` | crates/model-adapters/src/openai_compatible_streaming_speech.rs:298-373 | PCM runs on from a header if and only if its marks are there, the chunks before its data give its format, and the container or, within its stated size, the data leaves its size open |
| `WavContainers.InvalidExactly` | crates/model-adapters/src/openai_compatible_streaming_speech.rs:298-373 | a body is refused at a container if and only if the marks are wrong, the stated size cannot be, a format chunk is unreadable, or a size is left open without a format |
| `WavContainers.HeadExactly` | crates/model-adapters/src/openai_compatible_streaming_speech.rs:345-373 | the walk finds the head of the data exactly behind chunks laid out one after another, padded to even length |
| `WavDecoder.ReadWavHeader` | crates/model-adapters/src/openai_compatible_streaming_speech.rs:345-373 | the offset loop computes the chunk walk |
| `WavStreams.TakerIsStable` | crates/model-adapters/src/openai_compatible_streaming_speech.rs:298-412 | taking speech off the front consumes bytes and is stable under more input |
| `WavDecoder.TakeOpenEndedFrames` | crates/model-adapters/src/openai_compatible_streaming_speech.rs:375-412 | the frames are the aligned bytes cut at 20 ms and the rest is left; it fails exactly for a zero frame size or a frame over 64 KiB |
| `WavStreams.PcmDrains` | crates/model-adapters/src/openai_compatible_streaming_speech.rs:375-412 | before the end open-ended PCM is taken in whole frames and the remainder is held back |
| `WavDecoder.Settle` | crates/model-adapters/src/openai_compatible_streaming_speech.rs:222-272 | the inner loop takes everything the buffer decides |
| `WavDecoder.DecodeResponse` | crates/model-adapters/src/openai_compatible_streaming_speech.rs:194-288 | within the byte limit the frames and the verdict are those of the whole body, for every chunking; over the limit it fails; stopped by cancellation, a closed receiver or the transport, it has sent a beginning of the whole body's frames |
| `WavStreams.ChunkingDoesNotMatter` | crates/model-adapters/src/openai_compatible_streaming_speech.rs:209-288 | frames and verdict depend only on the joined bytes |
| `WavBodies.ComposedBody` | crates/model-adapters/src/openai_compatible_streaming_speech.rs:209-288 | a body of complete containers and an optional open-ended tail is accepted if and only if the tail can follow, and says the containers' frames in turn and then the PCM cut into frames, numbered on |
| `WavBodies.AcceptedBodyHasParts` | crates/model-adapters/src/openai_compatible_streaming_speech.rs:209-288 | conversely every accepted body has such parts |
| `WavBodies.VoicedExactly` | crates/model-adapters/src/openai_compatible_streaming_speech.rs:209-288 | complete containers are taken one after another if and only if each decodes by itself to frames numbered on from those before it, all in the format of the first; what is said are these frames together |
| `WavBodies.TailFollowsExactly` | crates/model-adapters/src/openai_compatible_streaming_speech.rs:375-412 | an open-ended tail can follow if and only if its format is that of what came before, 20 ms of it hold a sample, no sample is cut short, no frame of it exceeds 64 KiB, and there is anything to say |
| `WavBodies.OpenEndedKeepsThePcm` | crates/model-adapters/src/openai_compatible_streaming_speech.rs:375-412 | wherever the open-ended part starts, its payloads join to its PCM, all but the last hold exactly the rate times 20 / 1000 samples of every channel at two or four bytes, the last no more, and the numbers run on across the switch |
| `WavBodies.PcmEnds` | crates/model-adapters/src/openai_compatible_streaming_speech.rs:375-412 | open-ended PCM after any frames is accepted exactly when a frame has bytes, none exceeds 64 KiB, no sample is cut short and there is anything to say |
| `RecognitionRestarts.RecognitionEpochs.ScheduleNext` | apps/runtime-gateway/src/voice_adapters.rs:462-479 | the in-place schedule with its pruning loop computes the schedule step |
| `RecognitionRestarts.RecognitionEpochs.Ended` | apps/runtime-gateway/src/voice_adapters.rs:448-460 | the end of an epoch is one more step of the scheduler's run, and is reported unless its failure was |
| `RecognitionRestarts.RecognitionEpochs.ReportFailure` | apps/runtime-gateway/src/voice_adapters.rs:334-337 | a reported failure is one more step, and the end of that epoch will not be reported again |
| `RecognitionRestarts.RecognitionEpochs.StartFinished` | apps/runtime-gateway/src/voice_adapters.rs:496-513 | a finished start is one more step |
| `RecognitionRestarts.RecognitionEpochs.BeginRestart` | apps/runtime-gateway/src/voice_adapters.rs:481-494 | a restart is one more step, and comes at least five minutes after the sixth before it |
| `RecognitionRestarts.RecognitionEpochs.RenumberSegment` | apps/runtime-gateway/src/voice_adapters.rs:529-562 | a renumbering is one more step, and returns the number it emits |
| `RecognitionRestarts.RestartsAreLimited` | apps/runtime-gateway/src/voice_adapters.rs:462-494 | in any run, any five minutes hold at most six restarts, and a scheduled one waits for the sixth before it to leave the window |
| `RecognitionRestarts.ScheduleLimited` | apps/runtime-gateway/src/voice_adapters.rs:462-479 | after pruning at most six restarts are remembered, and the time chosen is at least the backoff and at most five minutes ahead |
| `RecognitionRestarts.ScheduledWithinBounds` | apps/runtime-gateway/src/voice_adapters.rs:462-479 | whenever a run schedules a restart it is 250 ms to five minutes ahead |
| `RecognitionRestarts.SilenceBacksOff` | apps/runtime-gateway/src/voice_adapters.rs:448-494 | without a transcript the restarts are apart by at least the whole sum of the doubling, capped delays |
| `RecognitionRestarts.DelayDoublesToTheCap` | apps/runtime-gateway/src/voice_adapters.rs:565-568 | the delay starts at 250 ms, doubles with each failure and stays at 8 s |
| `RecognitionRestarts.NeverGivesUp` | apps/runtime-gateway/src/voice_adapters.rs:448-513 | a restartable session is always receiving, scheduled or starting |
| `RestartHistories.ScheduledExactly` | apps/runtime-gateway/src/voice_adapters.rs:448-513 | a restart is scheduled exactly when an epoch ends or a start fails, for the later of the backoff, doubled with every attempt since the last transcript, and the time at which five minutes hold fewer than six; it begins exactly when asked for at that time or later |
| `RestartHistories.BackoffIsHistory` | apps/runtime-gateway/src/voice_adapters.rs:448-494 | the backoff counts the restarts begun since the last epoch with a transcript ended |
| `RestartHistories.PhasesAreHistory` | apps/runtime-gateway/src/voice_adapters.rs:331-513 | receiving, starting, having a transcript and having reported a failure, each exactly from the step that starts it to the step that ends it |
| `RestartHistories.NumberedExactly` | apps/runtime-gateway/src/voice_adapters.rs:529-562 | each wording forwarded gets the provider's number plus the highest one given in earlier epochs, up to the 64-bit limit, and nothing else is forwarded |
| `RecognitionRestarts.LaterEpochsNumberHigher` | apps/runtime-gateway/src/voice_adapters.rs:496-562 | a number exceeds every number of earlier epochs if and only if there are none, or the provider's number is at least one and the shift is below the 64-bit limit |
| `RecognitionRestarts.NumberZeroRepeats` | apps/runtime-gateway/src/voice_adapters.rs:529-562 | a run in which a provider number of zero repeats a number of an earlier epoch |
| `RecognitionRestarts.SaturatedShiftRepeats` | apps/runtime-gateway/src/voice_adapters.rs:529-562 | a run in which a shift at the 64-bit limit repeats it |
| `RecognitionRestarts.EpochKeepsOrder` | apps/runtime-gateway/src/voice_adapters.rs:529-562 | within an epoch the order is kept, strictly if and only if the lower number does not saturate |
| `MemoryRuns.WritesAreAtomic` | crates/memory/src/sqlite.rs:335-517 | in any interleaving of transactions an edit, approval or pin that reads first and writes later has exactly the effect of the whole operation done atomically at the write, and none when that is refused |
| `MemoryRuns.RevisionsIdentify` | crates/memory/src/sqlite.rs:335-545 | over any stretch of a run the revision never falls and an equal revision means an equal record, but for the time of last use |
| `MemoryRuns.IdsAreNotReused` | crates/memory/migrations/0001_controlled_memory.sql:6-7 | an id once drawn is there throughout or never again |
| `MemoryRuns.StoredRowsAreReadable` | crates/memory/src/sqlite.rs:739-796 | every row of every reachable table passes all checks made on reading it back; an active identity or relationship is approved for its current content; a pinned record is not expired |
| `MemoryRuns.RecordsOnlyMoveForward` | crates/memory/src/sqlite.rs:335-545 | expired is absorbing, revision and update time never go back |
| `MemoryRuns.UnpinRestoresRetention` | crates/memory/src/sqlite.rs:458-517 | unpinning restores exactly the retention held at pinning, whatever came between, and a pinned record cannot expire |
| `MemoryRuns.StepLawful` | crates/memory/src/sqlite.rs:335-545 | every transaction keeps the record laws |
| `MemoryHistories.EditExactly` | crates/memory/src/sqlite.rs:335-410 | in any interleaving an edit goes through if and only if the row is there as expected, time does not go back and a new retention is allowed; then content, confidence and retention are each the patch's where it has one and the old one otherwise, and nothing but state, update time and revision changes besides |
| `MemoryHistories.ApproveExactly` | crates/memory/src/sqlite.rs:412-456 | the same of an approval, which records the digest of the content as it stands |
| `MemoryHistories.PinExactly` | crates/memory/src/sqlite.rs:458-517 | the same of a pin, which keeps the retention aside, and an unpin, which gives it back |
| `MemoryHistories.CreateExactly` | crates/memory/src/sqlite.rs:107-154 | a draft with an allowed retention is stored as it is under a number never drawn before |
| `MemoryHistories.DeleteExactly` | crates/memory/src/sqlite.rs:689-723 | a row goes only at the revision expected |
| `MemoryHistories.SweepExactly` | crates/memory/src/sqlite.rs:524-545 | a sweep expires exactly the rows that are due, or exactly the rows of the session, and changes nothing else of them |
| `MemoryHistories.UseExactly` | crates/memory/src/sqlite.rs:646-655 | a use leaves its time and touches nothing else |
| `MemoryHistories.ContentIsHistory` | crates/memory/src/sqlite.rs:335-410 | a row says what its last edit that set a content says, or its draft when none did |
| `MemoryHistories.ConfidenceIsHistory` | crates/memory/src/sqlite.rs:335-410 | the same of its confidence |
| `MemoryHistories.ActiveIsHistory` | crates/memory/src/sqlite.rs:335-545 | a row is active exactly from its making, or from its approval when it is an identity or relationship, until it expires, is deleted, or its approved wording is changed |
| `MemoryHistories.PinIsHistory` | crates/memory/src/sqlite.rs:458-545 | a row is pinned exactly from its pin to its unpin, and expired exactly since the sweep it fell to |
| `MemoryTables.MemoryTable.Insert` | crates/memory/src/sqlite.rs:107-154 | an insert draws an id no row has and adds the initial row; a draft about an unknown person is refused and nothing changes |
| `MemoryTables.MemoryTable.ExpireDueRows` | crates/memory/src/sqlite.rs:931-943 | the sweep is one more transaction of the table's run, and returns the number of due rows |
| `MemoryTables.MemoryTable.ExpireSessionRows` | crates/memory/src/sqlite.rs:524-545 | the same of the rows that live as long as a session |
| `MemoryTables.ExpireEach` | crates/memory/src/sqlite.rs:931-943 | row by row, exactly the given rows expire |
| `MemoryTables.MemoryTable.Inspect` | crates/memory/src/sqlite.rs:213-221 | a read gives the row as the last transaction left it, or says that there is none |
| `MemoryTables.MemoryTable.UpdateEdited` | crates/memory/src/sqlite.rs:335-410 | the conditional update from a row read at any earlier instant does to the table exactly what the whole edit would do atomically now, or nothing; it changes the row if and only if the row still has the revision, is not newer than the edit and may take its retention, and then every field the patch names has its value, every other its own, and an active identity or relationship memory with new content is a candidate again |
| `MemoryTables.MemoryTable.UpdateApproved` | crates/memory/src/sqlite.rs:412-456 | the same of an approval: it goes through if and only if the row is a candidate identity or relationship memory of that revision and not newer than the confirmation, which is then active with one more piece of evidence |
| `MemoryTables.MemoryTable.UpdatePinned` | crates/memory/src/sqlite.rs:458-517 | the same of a pin, which sets the retention aside, and of an unpin, which brings it back |
| `MemoryTables.MemoryTable.DeleteRow` | crates/memory/src/sqlite.rs:689-723 | a delete removes the row exactly at the expected revision |
| `MemoryTables.MemoryTable.MarkUsed` | crates/memory/src/sqlite.rs:646-655 | marking a retrieved row is one more transaction, and touches only the time of last use |
| `Retrieval.SelectionIgnoresOrder` | crates/memory/src/retrieval.rs:52-176 | for distinct ids the selection and all counts are independent of the input order |
| `Retrieval.SelectionIsBounded` | crates/memory/src/retrieval.rs:52-176 | the result is rank-sorted, within both limits, and selected plus the five exclusion counts is the number of records |
| `Retrieval.SelectedExactlyWhenItFits` | crates/memory/src/retrieval.rs:144-165 | a record is selected if and only if it is relevant, a place was left by better-ranked selected ones, and it fits beside them |
| `Retrieval.ExclusionsAreCharged` | crates/memory/src/retrieval.rs:144-165 | the item count is exactly the records that found no place, the byte count exactly those that had a place but did not fit |
| `Retrieval.SelectedAreCurrent` | crates/memory/src/retrieval.rs:66-116 | only active, unexpired records not from the future are selected, an unmatched one only when it is working memory, and a pinned match ranks before everything that is none |
| `Retrieval.OrderIsUnique` | crates/memory/src/retrieval.rs:119-142 | a rank-sorted list is determined by its members |
| `RetrievalRules.SelectRecords` | crates/memory/src/retrieval.rs:52-176 | the two passes compute the selection; for distinct ids its members are ranked and chosen by the rules below |
| `RetrievalRules.SelectedAsRanked` | crates/memory/src/retrieval.rs:119-142 | a pinned match precedes an exact phrase, that a shared term, and that recent working memory; for one reason more confidence comes first, then the later use or making, then the smaller id |
| `RetrievalRules.SelectedExactly` | crates/memory/src/retrieval.rs:66-165 | a record is selected for a reason if and only if it is known, active and not past, deserves that reason, fewer than the item limit of those selected outrank it, and it fits beside those |
| `RetrievalRules.CountedExactly` | crates/memory/src/retrieval.rs:66-118 | the counts by state, expiry and relevance are exactly of the rows not known or not active, past, and off the topic |

## Left out

- `detach_playback_transport` (crates/model-adapters/src/network_voice_io.rs:582-592) is not part of this model; it removes a transport without settling its frames and no gateway path calls it.
- Sockets, TLS, tasks, channels, timers and deadlines as such: a deadline passing is a step with a time. A oneshot completion is answered in the step that takes it out of the table. Whether a transport queue takes a frame is a choice of the step; hand-overs of flush requests have no event of their own.
- Playback and flush acknowledgements, and marking as written, check the connection but not the reservation epoch; the playback theorems are within one reservation.
- CommittedOnce: covers one reservation and the connections it admitted; a record of a connection of an earlier reservation is what `StaleCommitReopensAFrame` is about.
- The untimed capture path of the media server and its sequence check, and the authentication packet.
- NextMessage: the packet deadline is not measured; missing it is one of the ways a read can fail.
- The evidence journal of the media server, which records decisions and changes none.
- CaptureTiming.PairDecodesEncoded: the clock-pair decoder is given on values; only the epoch decoder is also given with the moving cursor.
- Text of utterances and their capture evidence, activity events, and the reaping of retired recognition workers.
- BeginRestart: the failure counter does not wrap; the rolling limit keeps it far from the machine width.
- Decoding a complete WAV container and parsing its `fmt ` chunk, JSON decoding of a record, the approval digest, text matching and content size are parameters.
- DecodeResponse: when it is stopped is a choice of the run, and frame numbers do not wrap, since a body within its limit has fewer bytes than there are numbers.
- Retrieval: cancellation, the 1024-record scan limit and the stored trace are left out; the library sort is given as an insertion sort, which has the same result on distinct ids.
- MemoryTables: people, provenance sources other than approvals, schema migration and the width of the revision column are left out; reading back after a write is a separate read.
- Content validation of drafts and patches, which reject blank or oversized text before any operation here.
- Configuration, providers, the desktop app, voice-loop policy and the other adapters, which would mostly add easy members.
