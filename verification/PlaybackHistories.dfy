/**
 What the playback half of a session is at any time, told by its history alone: which transport is attached,
 which reconnect window is open, which frames and flushes are pending; and exactly which steps issue, accept,
 render and fail a frame.
 */
module PlaybackHistories {
  import opened Wrappers
  import opened Histories
  import opened Playback
  import opened PlaybackRuns

  // ---------------------------------------------------------------- the steps of a transport

  predicate ForReservation(reservation: Option<nat>, epoch: nat) {
    reservation.Some? ==> reservation.value == epoch
  }

  /** The action attaches a transport to this session. */
  predicate TakesTransport(s: Session, a: Action) {
    a.DoAttach? && ForReservation(a.reservation, s.epoch) && s.playback.None? && !s.finished
  }

  /** The attached transport is lost, and a reconnect window opens. */
  predicate LosesTransport(s: Session, a: Action) {
    a.DoDisconnect? && ForReservation(a.reservation, s.epoch) && s.playback == Some(a.connection)
  }

  /** The attached transport is taken off for the finish. */
  predicate FinishesTransport(s: Session, a: Action) {
    a.DoPlannedDetach? && a.epoch == s.epoch && s.playback == Some(a.connection)
  }

  predicate Detaches(s: Session, a: Action) {
    LosesTransport(s, a) || FinishesTransport(s, a)
  }

  /** The open reconnect window is over. */
  predicate ClosesWindow(s: Session, a: Action) {
    a.DoExpireWaiting? && s.reconnect == Some(a.deadline)
  }

  // ---------------------------------------------------------------- latches over runs

  /** The steps of a run at which something is done. */
  ghost function When(t: Trace, does: (Session, Action) -> bool): nat -> bool {
    (i: nat) => i < |t.actions| && i < |t.sessions| && does(t.sessions[i], t.actions[i])
  }

  /** The sessions of a run of which something holds. */
  ghost function Where(t: Trace, holds: Session -> bool): nat -> bool {
    (i: nat) => i < |t.sessions| && holds(t.sessions[i])
  }

  ghost predicate MovesAt(t: Trace, i: nat, holds: Session -> bool, starts: (Session, Action) -> bool,
                          stops: (Session, Action) -> bool)
    requires i < |t.actions| && |t.sessions| == |t.actions| + 1
  {
    holds(t.sessions[i + 1]) <==>
    starts(t.sessions[i], t.actions[i]) || (holds(t.sessions[i]) && !stops(t.sessions[i], t.actions[i]))
  }

  lemma HoldsSince(t: Trace, n: nat, holds: Session -> bool, starts: (Session, Action) -> bool,
                   stops: (Session, Action) -> bool)
    requires |t.sessions| == |t.actions| + 1 && n < |t.sessions| && !holds(t.sessions[0])
    requires forall i :: 0 <= i < |t.actions| ==> MovesAt(t, i, holds, starts, stops)
    ensures holds(t.sessions[n]) <==> Since(When(t, starts), When(t, stops), n)
  {
    forall i: nat | i < n ensures LatchedAt(Where(t, holds), When(t, starts), When(t, stops), i) {
      assert MovesAt(t, i, holds, starts, stops);
    }
    Latched(Where(t, holds), When(t, starts), When(t, stops), n);
  }

  // ---------------------------------------------------------------- the transport and the reconnect window

  /** What one step makes of the transport and its windows. */
  ghost predicate LinkMoves(s: Session, a: Action, next: Session) {
    && next.epoch == s.epoch
    && next.playback == (if TakesTransport(s, a) then Some(a.connection)
                         else if Detaches(s, a) then None else s.playback)
    && next.reconnect == (if LosesTransport(s, a) then Some(a.deadline)
                          else if TakesTransport(s, a) || ClosesWindow(s, a) then None else s.reconnect)
    && next.finished == (s.finished || FinishesTransport(s, a))
    && next.voice == (s.voice || a.DoAttachVoice?)
  }

  predicate SameLink(s: Session, next: Session) {
    && next.epoch == s.epoch && next.playback == s.playback && next.reconnect == s.reconnect
    && next.finished == s.finished && next.voice == s.voice
  }

  lemma FrameStepKeepsLink(s: Session, flight: map<nat, Frame>, a: Action, maxBytes: nat)
    requires FrameStep(a)
    ensures SameLink(s, Apply(s, flight, a, maxBytes).next)
  {
  }

  lemma FlushStepKeepsLink(s: Session, flight: map<nat, Frame>, a: Action, maxBytes: nat)
    requires a.DoRequestFlush? || a.DoAcknowledgeFlush? || a.DoCancelFlush? || a.DoDeliverFinish?
    ensures SameLink(s, Apply(s, flight, a, maxBytes).next)
  {
  }

  lemma KeptLink(s: Session, a: Action, next: Session)
    requires SameLink(s, next) && !LinkStep(a) && !a.DoAttachVoice?
    ensures LinkMoves(s, a, next)
  {
  }

  lemma LinkStepMoves(s: Session, flight: map<nat, Frame>, a: Action, maxBytes: nat)
    requires Owned(s, maxBytes) && LinkStep(a)
    ensures LinkMoves(s, a, Apply(s, flight, a, maxBytes).next)
  {
    if FinishesTransport(s, a) { NoOtherOwner(s, a.connection, maxBytes); }
  }

  lemma NoOtherOwner(s: Session, connection: nat, maxBytes: nat)
    requires Owned(s, maxBytes) && s.playback == Some(connection)
    ensures !OtherOwner(s.pending, s.flushes, connection) && s.waiting == [] && s.waitingBytes == 0
  {
  }

  lemma StepMoves(t: Trace, i: nat, epoch: nat, maxBytes: nat)
    requires IsRun(t, epoch, maxBytes) && i < |t.actions|
    ensures LinkMoves(t.sessions[i], t.actions[i], t.sessions[i + 1])
  {
    var s, flight, a := t.sessions[i], t.flights[i], t.actions[i];
    ReachableIsOwned(t, i, epoch, maxBytes);
    assert StepAt(t, i, maxBytes);
    if LinkStep(a) {
      LinkStepMoves(s, flight, a, maxBytes);
    } else if !a.DoAttachVoice? {
      if FrameStep(a) {
        FrameStepKeepsLink(s, flight, a, maxBytes);
      } else {
        FlushStepKeepsLink(s, flight, a, maxBytes);
      }
      KeptLink(s, a, t.sessions[i + 1]);
    }
  }

  function OnTransport(c: nat): Session -> bool { (s: Session) => s.playback == Some(c) }

  function Attaching(c: nat): (Session, Action) -> bool { (s, a) => TakesTransport(s, a) && a.connection == c }

  function Detaching(): (Session, Action) -> bool { (s, a) => Detaches(s, a) }

  /** A transport is attached exactly from the step that takes it to the step that loses or finishes it. */
  lemma TransportIsHistory(t: Trace, n: nat, c: nat, epoch: nat, maxBytes: nat)
    requires IsRun(t, epoch, maxBytes) && n < |t.sessions|
    ensures t.sessions[n].playback == Some(c) <==> Since(When(t, Attaching(c)), When(t, Detaching()), n)
  {
    forall i | 0 <= i < |t.actions| ensures MovesAt(t, i, OnTransport(c), Attaching(c), Detaching()) {
      StepMoves(t, i, epoch, maxBytes);
    }
    HoldsSince(t, n, OnTransport(c), Attaching(c), Detaching());
  }

  function Reconnecting(d: nat): Session -> bool { (s: Session) => s.reconnect == Some(d) }

  function Losing(d: nat): (Session, Action) -> bool { (s, a) => LosesTransport(s, a) && a.deadline == d }

  function Closing(d: nat): (Session, Action) -> bool {
    (s, a) => TakesTransport(s, a) || (a.DoExpireWaiting? && a.deadline == d)
  }

  /** A reconnect window is open exactly from the loss that set its deadline to the next attach or its own expiry. */
  lemma WindowIsHistory(t: Trace, n: nat, d: nat, epoch: nat, maxBytes: nat)
    requires IsRun(t, epoch, maxBytes) && n < |t.sessions|
    ensures t.sessions[n].reconnect == Some(d) <==> Since(When(t, Losing(d)), When(t, Closing(d)), n)
  {
    forall i | 0 <= i < |t.actions| ensures MovesAt(t, i, Reconnecting(d), Losing(d), Closing(d)) {
      StepMoves(t, i, epoch, maxBytes);
      ReachableIsOwned(t, i, epoch, maxBytes);
    }
    HoldsSince(t, n, Reconnecting(d), Losing(d), Closing(d));
  }

  function TakenOff(): (Session, Action) -> bool { (s, a) => FinishesTransport(s, a) }

  function Nothing(): (Session, Action) -> bool { (s, a) => false }

  /** The session is finished exactly when some transport was taken off for the finish. */
  lemma FinishIsHistory(t: Trace, n: nat, epoch: nat, maxBytes: nat)
    requires IsRun(t, epoch, maxBytes) && n < |t.sessions|
    ensures t.sessions[n].finished <==> Since(When(t, TakenOff()), When(t, Nothing()), n)
  {
    var finished := (s: Session) => s.finished;
    forall i | 0 <= i < |t.actions| ensures MovesAt(t, i, finished, TakenOff(), Nothing()) {
      StepMoves(t, i, epoch, maxBytes);
    }
    HoldsSince(t, n, finished, TakenOff(), Nothing());
  }

  function AttachingVoice(): (Session, Action) -> bool { (s: Session, a: Action) => a.DoAttachVoice? }

  /** Voice input is there exactly from the first step that attaches it. */
  lemma VoiceIsHistory(t: Trace, n: nat, epoch: nat, maxBytes: nat)
    requires IsRun(t, epoch, maxBytes) && n < |t.sessions|
    ensures t.sessions[n].voice <==> Since(When(t, AttachingVoice()), When(t, Nothing()), n)
  {
    var voiced := (s: Session) => s.voice;
    forall i | 0 <= i < |t.actions| ensures MovesAt(t, i, voiced, AttachingVoice(), Nothing()) {
      StepMoves(t, i, epoch, maxBytes);
    }
    HoldsSince(t, n, voiced, AttachingVoice(), Nothing());
  }

  // ---------------------------------------------------------------- issue

  /** A frame may be taken: a transport is there, or its window is open and it fits beside the waiting frames. */
  ghost predicate Reachable(t: Trace, i: nat, frame: Frame, now: nat, maxBytes: nat)
    requires i < |t.sessions|
  {
    || (exists c: nat :: Since(When(t, Attaching(c)), When(t, Detaching()), i))
    || ((exists d: nat :: now <= d && Since(When(t, Losing(d)), When(t, Closing(d)), i))
        && Bytes(t.sessions[i].waiting) + |frame.payload| <= maxBytes)
  }

  lemma EnqueueIssues(s: Session, frame: Frame, now: nat, k: nat, maxBytes: nat)
    requires Owned(s, maxBytes)
    ensures Issued(k) in Enqueue(s, frame, now, maxBytes).events <==>
              && k == s.nextSequence < 0xFFFF_FFFF_FFFF_FFFF && !s.finished && |s.pending| < 16
              && (|| s.playback.Some?
                  || (s.reconnect.Some? && now <= s.reconnect.value && Bytes(s.waiting) + |frame.payload| <= maxBytes))
  {
  }

  lemma ReachableIsState(t: Trace, i: nat, frame: Frame, now: nat, epoch: nat, maxBytes: nat)
    requires IsRun(t, epoch, maxBytes) && i < |t.sessions|
    ensures
      var s := t.sessions[i];
      Reachable(t, i, frame, now, maxBytes) <==>
        || s.playback.Some?
        || (s.reconnect.Some? && now <= s.reconnect.value && Bytes(s.waiting) + |frame.payload| <= maxBytes)
  {
    var s := t.sessions[i];
    forall c: nat ensures s.playback == Some(c) <==> Since(When(t, Attaching(c)), When(t, Detaching()), i) {
      TransportIsHistory(t, i, c, epoch, maxBytes);
    }
    forall d: nat ensures s.reconnect == Some(d) <==> Since(When(t, Losing(d)), When(t, Closing(d)), i) {
      WindowIsHistory(t, i, d, epoch, maxBytes);
    }
    assert s.playback.Some? ==> s.playback == Some(s.playback.value);
    assert s.reconnect.Some? ==> s.reconnect == Some(s.reconnect.value);
  }

  /**
   A frame is issued a number if and only if the session is not finishing, fewer than 16 frames are pending,
   the counter has a number left, and either a transport is attached or the last loss left a reconnect window
   that is neither past nor closed since, and the frame fits the byte bound beside the waiting ones.
   */
  lemma IssuedExactly(t: Trace, i: nat, k: nat, epoch: nat, maxBytes: nat)
    requires IsRun(t, epoch, maxBytes) && i < |t.actions|
    ensures Issued(k) in t.outcomes[i].events <==>
              && t.actions[i].DoEnqueue?
              && k == t.sessions[i].nextSequence < 0xFFFF_FFFF_FFFF_FFFF
              && |t.sessions[i].pending| < 16
              && !Since(When(t, TakenOff()), When(t, Nothing()), i)
              && Reachable(t, i, t.actions[i].frame, t.actions[i].now, maxBytes)
  {
    var s, a := t.sessions[i], t.actions[i];
    assert StepAt(t, i, maxBytes);
    if a.DoEnqueue? {
      ReachableIsOwned(t, i, epoch, maxBytes);
      FinishIsHistory(t, i, epoch, maxBytes);
      ReachableIsState(t, i, a.frame, a.now, epoch, maxBytes);
      EnqueueIssues(s, a.frame, a.now, k, maxBytes);
    } else if Issued(k) in t.outcomes[i].events {
      IssuedByEnqueue(t, i, k, epoch, maxBytes);
    }
  }

  // ---------------------------------------------------------------- pending frames

  /** The step issues a number. */
  predicate Issues(s: Session, a: Action, maxBytes: nat) {
    && a.DoEnqueue? && !s.finished && |s.pending| < 16 && s.nextSequence < 0xFFFF_FFFF_FFFF_FFFF
    && (|| s.playback.Some?
        || (s.reconnect.Some? && a.now <= s.reconnect.value && Bytes(s.waiting) + |a.frame.payload| <= maxBytes))
  }

  /** The attached transport says that it has taken the frame to play. */
  predicate Accepts(s: Session, a: Action, k: nat) {
    && a.DoAcknowledge? && a.sequence == k && !a.rendered && s.playback == Some(a.connection)
    && k in s.pending && !s.pending[k].accepted
  }

  /** The attached transport says that it has played the frame. */
  predicate Renders(s: Session, a: Action, k: nat) {
    && a.DoAcknowledge? && a.sequence == k && a.rendered && s.playback == Some(a.connection)
    && k in s.pending && s.pending[k].accepted
  }

  predicate Writes(s: Session, a: Action, k: nat) {
    a.DoMarkWritten? && a.sequence == k && k in s.pending && s.playback == Some(a.connection)
  }

  /** Some accepted frame of the generation is overdue. */
  predicate GenerationOverdue(s: Session, g: nat, now: nat) {
    exists m :: m in s.pending && s.pending[m].generation == g
                && s.pending[m].deadline.Some? && s.pending[m].deadline.value <= now
  }

  /** A sweep of overdue generations takes the frame along. */
  predicate Sweeps(s: Session, a: Action, k: nat) {
    && a.DoExpireAccepted? && a.epoch == s.epoch && k in s.pending
    && GenerationOverdue(s, s.pending[k].generation, a.now)
  }

  /** The frame is given up: with its transport, with the reconnect window, or with its generation. */
  predicate GivesUp(s: Session, a: Action, k: nat) {
    Detaches(s, a) || ClosesWindow(s, a) || Sweeps(s, a, k)
  }

  predicate Removes(s: Session, a: Action, k: nat) {
    GivesUp(s, a, k) || Renders(s, a, k) || (a.DoCancelPlayback? && a.sequence == k)
  }

  function Changed(p: Pending, s: Session, a: Action, k: nat): Pending {
    if TakesTransport(s, a) then p.(connection := Some(a.connection))
    else if Accepts(s, a, k) then p.(accepted := true, deadline := Some(a.deadline), open := false)
    else if Writes(s, a, k) then p.(written := true)
    else p
  }

  /** What one step makes of one frame. */
  ghost predicate EntryMoves(s: Session, a: Action, k: nat, next: Session, maxBytes: nat) {
    Entry(next, k) ==
      if Issues(s, a, maxBytes) && k == s.nextSequence then
        Some(Pending(s.playback, a.frame.generation, true, false, None, false))
      else if k !in s.pending || Removes(s, a, k) then None
      else Some(Changed(s.pending[k], s, a, k))
  }

  lemma EnqueueMovesEntry(s: Session, a: Action, k: nat, maxBytes: nat)
    requires Owned(s, maxBytes) && a.DoEnqueue?
    ensures EntryMoves(s, a, k, Enqueue(s, a.frame, a.now, maxBytes).next, maxBytes)
  {
  }

  lemma AcknowledgeMovesEntry(s: Session, a: Action, k: nat, maxBytes: nat)
    requires Owned(s, maxBytes) && a.DoAcknowledge?
    ensures EntryMoves(s, a, k, Acknowledge(s, a.connection, a.sequence, a.rendered, a.deadline).next, maxBytes)
  {
  }

  lemma AttachMovesEntry(s: Session, a: Action, k: nat, maxBytes: nat)
    requires Owned(s, maxBytes) && a.DoAttach?
    ensures EntryMoves(s, a, k, Attach(s, a.reservation, a.connection).next, maxBytes)
  {
  }

  lemma DetachMovesEntry(s: Session, a: Action, k: nat, maxBytes: nat)
    requires Owned(s, maxBytes) && (a.DoDisconnect? || a.DoPlannedDetach?)
    ensures EntryMoves(s, a, k, Apply(s, map[], a, maxBytes).next, maxBytes)
  {
    if FinishesTransport(s, a) { NoOtherOwner(s, a.connection, maxBytes); }
  }

  lemma WindowMovesEntry(s: Session, a: Action, k: nat, maxBytes: nat)
    requires Owned(s, maxBytes) && a.DoExpireWaiting?
    ensures EntryMoves(s, a, k, ExpireWaiting(s, a.deadline).next, maxBytes)
  {
    if s.reconnect == Some(a.deadline) {
      assert s.playback.None? && Sequences(s.waiting) == s.pending.Keys;
    }
  }

  lemma OverdueIs(s: Session, g: nat, now: nat)
    ensures g in Overdue(s, now) <==> GenerationOverdue(s, g, now)
  {
  }

  lemma SweepMovesEntry(s: Session, a: Action, k: nat, maxBytes: nat)
    requires Owned(s, maxBytes) && a.DoExpireAccepted?
    ensures EntryMoves(s, a, k, ExpireAccepted(s, a.epoch, a.now).next, maxBytes)
  {
    if k in s.pending {
      OverdueIs(s, s.pending[k].generation, a.now);
    }
  }

  lemma MarkMovesEntry(s: Session, a: Action, k: nat, maxBytes: nat)
    requires Owned(s, maxBytes) && a.DoMarkWritten?
    ensures EntryMoves(s, a, k, MarkWritten(s, a.connection, a.sequence).next, maxBytes)
  {
  }

  lemma CancelMovesEntry(s: Session, a: Action, k: nat, maxBytes: nat)
    requires a.DoCancelPlayback?
    ensures EntryMoves(s, a, k, CancelPlayback(s, a.sequence).next, maxBytes)
  {
  }

  lemma OthersKeepTable(s: Session, flight: map<nat, Frame>, a: Action, maxBytes: nat)
    requires a.DoSend? || (!LinkStep(a) && !FrameStep(a))
    ensures Apply(s, flight, a, maxBytes).next.pending == s.pending
  {
  }

  lemma OtherMovesEntry(s: Session, a: Action, k: nat, next: Session, maxBytes: nat)
    requires (a.DoSend? || (!LinkStep(a) && !FrameStep(a))) && next.pending == s.pending
    ensures EntryMoves(s, a, k, next, maxBytes)
  {
  }

  lemma StepMovesEntry(t: Trace, i: nat, k: nat, epoch: nat, maxBytes: nat)
    requires IsRun(t, epoch, maxBytes) && i < |t.actions|
    ensures EntryMoves(t.sessions[i], t.actions[i], k, t.sessions[i + 1], maxBytes)
  {
    var s, a := t.sessions[i], t.actions[i];
    ReachableIsOwned(t, i, epoch, maxBytes);
    assert StepAt(t, i, maxBytes);
    match a
    case DoEnqueue(_, _) => EnqueueMovesEntry(s, a, k, maxBytes);
    case DoAcknowledge(_, _, _, _) => AcknowledgeMovesEntry(s, a, k, maxBytes);
    case DoAttach(_, _) => AttachMovesEntry(s, a, k, maxBytes);
    case DoDisconnect(_, _, _) => DetachMovesEntry(s, a, k, maxBytes);
    case DoPlannedDetach(_, _) => DetachMovesEntry(s, a, k, maxBytes);
    case DoExpireWaiting(_) => WindowMovesEntry(s, a, k, maxBytes);
    case DoExpireAccepted(_, _) => SweepMovesEntry(s, a, k, maxBytes);
    case DoMarkWritten(_, _) => MarkMovesEntry(s, a, k, maxBytes);
    case DoCancelPlayback(_) => CancelMovesEntry(s, a, k, maxBytes);
    case _ =>
      OthersKeepTable(s, t.flights[i], a, maxBytes);
      OtherMovesEntry(s, a, k, t.sessions[i + 1], maxBytes);
  }

  function Held(k: nat, has: Pending -> bool): Session -> bool {
    (s: Session) => k in s.pending && has(s.pending[k])
  }

  function Anything(): Pending -> bool { (p: Pending) => true }

  function OfGeneration(g: nat): Pending -> bool { (p: Pending) => p.generation == g }

  function DueAt(d: nat): Pending -> bool { (p: Pending) => p.deadline == Some(d) }

  function IsWritten(): Pending -> bool { (p: Pending) => p.written }

  function Issuing(k: nat, maxBytes: nat): (Session, Action) -> bool {
    (s, a) => Issues(s, a, maxBytes) && s.nextSequence == k
  }

  function IssuingIn(k: nat, g: nat, maxBytes: nat): (Session, Action) -> bool {
    (s, a) => Issues(s, a, maxBytes) && s.nextSequence == k && a.frame.generation == g
  }

  function Accepting(k: nat, d: nat): (Session, Action) -> bool { (s, a) => Accepts(s, a, k) && a.deadline == d }

  function Writing(k: nat): (Session, Action) -> bool { (s, a) => Writes(s, a, k) }

  function Removing(k: nat): (Session, Action) -> bool { (s, a) => Removes(s, a, k) }

  /** A frame is pending exactly from its issue to the first step that plays, cancels or gives it up. */
  lemma PendingIsHistory(t: Trace, n: nat, k: nat, g: nat, epoch: nat, maxBytes: nat)
    requires IsRun(t, epoch, maxBytes) && n < |t.sessions|
    ensures k in t.sessions[n].pending <==> Since(When(t, Issuing(k, maxBytes)), When(t, Removing(k)), n)
    ensures k in t.sessions[n].pending && t.sessions[n].pending[k].generation == g <==>
              Since(When(t, IssuingIn(k, g, maxBytes)), When(t, Removing(k)), n)
  {
    forall i | 0 <= i < |t.actions|
      ensures MovesAt(t, i, Held(k, Anything()), Issuing(k, maxBytes), Removing(k))
      ensures MovesAt(t, i, Held(k, OfGeneration(g)), IssuingIn(k, g, maxBytes), Removing(k))
    {
      ReachableIsOwned(t, i, epoch, maxBytes);
      StepMovesEntry(t, i, k, epoch, maxBytes);
    }
    HoldsSince(t, n, Held(k, Anything()), Issuing(k, maxBytes), Removing(k));
    HoldsSince(t, n, Held(k, OfGeneration(g)), IssuingIn(k, g, maxBytes), Removing(k));
  }

  /** Its rendering deadline is the one its acceptance came with, and it is written from its marking on. */
  lemma ProgressIsHistory(t: Trace, n: nat, k: nat, d: nat, epoch: nat, maxBytes: nat)
    requires IsRun(t, epoch, maxBytes) && n < |t.sessions|
    ensures k in t.sessions[n].pending && t.sessions[n].pending[k].deadline == Some(d) <==>
              Since(When(t, Accepting(k, d)), When(t, Removing(k)), n)
    ensures k in t.sessions[n].pending && t.sessions[n].pending[k].written <==>
              Since(When(t, Writing(k)), When(t, Removing(k)), n)
  {
    forall i | 0 <= i < |t.actions|
      ensures MovesAt(t, i, Held(k, DueAt(d)), Accepting(k, d), Removing(k))
      ensures MovesAt(t, i, Held(k, IsWritten()), Writing(k), Removing(k))
    {
      ReachableIsOwned(t, i, epoch, maxBytes);
      StepMovesEntry(t, i, k, epoch, maxBytes);
    }
    HoldsSince(t, n, Held(k, DueAt(d)), Accepting(k, d), Removing(k));
    HoldsSince(t, n, Held(k, IsWritten()), Writing(k), Removing(k));
  }

  // ---------------------------------------------------------------- events

  predicate Delivers(s: Session, a: Action) {
    && a.DoDeliverFinish? && a.epoch == s.epoch && s.finished && s.finishConnection == Some(a.connection)
    && !s.finishDelivered
  }

  /** What one step says about one frame. */
  ghost predicate EventsTell(s: Session, flight: map<nat, Frame>, a: Action, k: nat, o: Outcome) {
    && (Accepted(k) in o.events <==> Accepts(s, a, k))
    && (Resolved(k, true) in o.events <==> Accepts(s, a, k))
    && (Rendered(k) in o.events <==> Renders(s, a, k))
    && (Resolved(k, false) in o.events <==> k in s.pending && !s.pending[k].accepted && GivesUp(s, a, k))
    && (Sent(k) in o.events <==>
          || (a.DoSend? && a.sequence == k && a.taken && k in flight)
          || (TakesTransport(s, a) && k in s.pending))
    && (Undelivered(k) in o.events <==> a.DoSend? && a.sequence == k && !a.taken && k in flight)
    && (Barrier in o.events <==> Delivers(s, a) && s.voice)
  }

  lemma EnqueueTells(s: Session, flight: map<nat, Frame>, a: Action, k: nat, maxBytes: nat)
    requires a.DoEnqueue?
    ensures EventsTell(s, flight, a, k, Enqueue(s, a.frame, a.now, maxBytes))
  {
  }

  lemma SendTells(s: Session, flight: map<nat, Frame>, a: Action, k: nat)
    requires a.DoSend?
    ensures EventsTell(s, flight, a, k, Send(s, flight, a.sequence, a.taken))
  {
  }

  lemma AcknowledgeTells(s: Session, flight: map<nat, Frame>, a: Action, k: nat, maxBytes: nat)
    requires Owned(s, maxBytes) && a.DoAcknowledge?
    ensures EventsTell(s, flight, a, k, Acknowledge(s, a.connection, a.sequence, a.rendered, a.deadline))
  {
  }

  predicate Silent(a: Action) {
    || a.DoMarkWritten? || a.DoCancelPlayback? || a.DoRequestFlush? || a.DoAcknowledgeFlush? || a.DoCancelFlush?
    || a.DoAttachVoice?
  }

  lemma SilentSteps(s: Session, flight: map<nat, Frame>, a: Action, maxBytes: nat)
    requires Silent(a)
    ensures Apply(s, flight, a, maxBytes).events == {}
  {
  }

  lemma SilentTells(s: Session, flight: map<nat, Frame>, a: Action, k: nat, o: Outcome)
    requires Silent(a) && o.events == {}
    ensures EventsTell(s, flight, a, k, o)
  {
  }

  lemma DeliveryTells(s: Session, flight: map<nat, Frame>, a: Action, k: nat)
    requires a.DoDeliverFinish?
    ensures EventsTell(s, flight, a, k, DeliverFinish(s, a.epoch, a.connection))
  {
  }

  lemma AttachTells(s: Session, flight: map<nat, Frame>, a: Action, k: nat, maxBytes: nat)
    requires Owned(s, maxBytes) && a.DoAttach?
    ensures EventsTell(s, flight, a, k, Attach(s, a.reservation, a.connection))
  {
  }

  lemma LossTells(s: Session, flight: map<nat, Frame>, a: Action, k: nat, maxBytes: nat)
    requires Owned(s, maxBytes) && a.DoDisconnect?
    ensures EventsTell(s, flight, a, k, Disconnect(s, a.reservation, a.connection, a.deadline))
  {
  }

  lemma PlannedTells(s: Session, flight: map<nat, Frame>, a: Action, k: nat, maxBytes: nat)
    requires Owned(s, maxBytes) && a.DoPlannedDetach?
    ensures EventsTell(s, flight, a, k, PlannedDetach(s, a.epoch, a.connection))
  {
    if FinishesTransport(s, a) { NoOtherOwner(s, a.connection, maxBytes); }
  }

  lemma WindowTells(s: Session, flight: map<nat, Frame>, a: Action, k: nat, maxBytes: nat)
    requires Owned(s, maxBytes) && a.DoExpireWaiting?
    ensures EventsTell(s, flight, a, k, ExpireWaiting(s, a.deadline))
  {
    if s.reconnect == Some(a.deadline) {
      assert s.playback.None? && Sequences(s.waiting) == s.pending.Keys;
    }
  }

  lemma SweepTells(s: Session, flight: map<nat, Frame>, a: Action, k: nat, maxBytes: nat)
    requires Owned(s, maxBytes) && a.DoExpireAccepted?
    ensures EventsTell(s, flight, a, k, ExpireAccepted(s, a.epoch, a.now))
  {
    if k in s.pending {
      OverdueIs(s, s.pending[k].generation, a.now);
    }
  }

  /**
   Exactly which step says what about a frame: it is accepted, and its caller answered, when the attached
   transport first acknowledges it; rendered when the transport says so after that; failed when it is given up
   before; handed over by its own hand-over or by the attach that finds it waiting; and the recorder's barrier
   is delivered by the first delivery for the finished connection, if voice input is attached.
   */
  lemma EventsExactly(t: Trace, i: nat, k: nat, epoch: nat, maxBytes: nat)
    requires IsRun(t, epoch, maxBytes) && i < |t.actions|
    ensures EventsTell(t.sessions[i], t.flights[i], t.actions[i], k, t.outcomes[i])
  {
    var s, flight, a := t.sessions[i], t.flights[i], t.actions[i];
    ReachableIsOwned(t, i, epoch, maxBytes);
    assert StepAt(t, i, maxBytes);
    if Silent(a) {
      SilentSteps(s, flight, a, maxBytes);
      SilentTells(s, flight, a, k, t.outcomes[i]);
    } else {
      match a
      case DoEnqueue(_, _) => EnqueueTells(s, flight, a, k, maxBytes);
      case DoSend(_, _) => SendTells(s, flight, a, k);
      case DoAcknowledge(_, _, _, _) => AcknowledgeTells(s, flight, a, k, maxBytes);
      case DoAttach(_, _) => AttachTells(s, flight, a, k, maxBytes);
      case DoDisconnect(_, _, _) => LossTells(s, flight, a, k, maxBytes);
      case DoPlannedDetach(_, _) => PlannedTells(s, flight, a, k, maxBytes);
      case DoExpireWaiting(_) => WindowTells(s, flight, a, k, maxBytes);
      case DoExpireAccepted(_, _) => SweepTells(s, flight, a, k, maxBytes);
      case DoDeliverFinish(_, _) => DeliveryTells(s, flight, a, k);
    }
  }

  // ---------------------------------------------------------------- answers

  /** Frames of the transport were written, and there is no voice input to tell. */
  predicate Unheard(s: Session) {
    !s.voice && exists k :: k in s.pending && s.pending[k].written
  }

  /** The step does all that it was asked for. */
  ghost predicate Granted(s: Session, flight: map<nat, Frame>, a: Action, maxBytes: nat) {
    match a
    case DoEnqueue(_, _) => Issues(s, a, maxBytes)
    case DoSend(k, taken) => k in flight && taken
    case DoAttach(_, _) => TakesTransport(s, a)
    case DoDisconnect(_, _, _) => !(LosesTransport(s, a) && Unheard(s))
    case DoPlannedDetach(_, _) => FinishesTransport(s, a) && !Unheard(s)
    case DoAcknowledge(_, k, _, _) => Accepts(s, a, k) || (Renders(s, a, k) && s.voice)
    case DoMarkWritten(_, k) => Writes(s, a, k)
    case DoRequestFlush(_) => Flushes(s, a)
    case DoAcknowledgeFlush(c, g) => s.playback == Some(c) && g in s.flushes
    case DoAttachVoice => !s.voice
    case DoDeliverFinish(_, _) => Delivers(s, a) && s.voice
    case _ => true
  }

  /** The reason given for a refusal holds. */
  ghost predicate Truthful(s: Session, flight: map<nat, Frame>, a: Action, why: Refusal, maxBytes: nat) {
    match why
    case Finishing => s.finished
    case QueueFull => if a.DoEnqueue? then |s.pending| >= 16 else |s.flushes| >= 16
    case NotConnected => s.playback.None? && (a.DoEnqueue? && s.reconnect.Some? ==> a.now > s.reconnect.value)
    case ByteBound => a.DoEnqueue? && s.playback.None? && Bytes(s.waiting) + |a.frame.payload| > maxBytes
    case Overflow => s.nextSequence >= 0xFFFF_FFFF_FFFF_FFFF
    case AlreadyAttached => if a.DoAttachVoice? then s.voice else s.playback.Some?
    case WrongReservation =>
      || (a.DoAttach? && a.reservation.Some? && a.reservation.value != s.epoch)
      || (a.DoPlannedDetach? && a.epoch != s.epoch)
    case WrongConnection =>
      if a.DoDeliverFinish? then !Delivers(s, a) else Addressed(a) && s.playback != Some(a.connection)
    case Unknown => IsUnknown(s, flight, a)
    case Duplicated =>
      if a.DoAcknowledge? then a.sequence in s.pending && s.pending[a.sequence].accepted
      else a.DoRequestFlush? && a.generation in s.flushes
    case NotAccepted => a.DoAcknowledge? && a.sequence in s.pending && !s.pending[a.sequence].accepted
    case VoiceMissing => !s.voice
    case OwnedElsewhere => false
    case QueueUnavailable => a.DoSend? && !a.taken
  }

  predicate Addressed(a: Action) {
    a.DoPlannedDetach? || a.DoAcknowledge? || a.DoMarkWritten? || a.DoAcknowledgeFlush?
  }

  predicate IsUnknown(s: Session, flight: map<nat, Frame>, a: Action) {
    || (a.DoSend? && a.sequence !in flight)
    || ((a.DoAcknowledge? || a.DoMarkWritten?) && a.sequence !in s.pending)
    || (a.DoAcknowledgeFlush? && a.generation !in s.flushes)
  }

  ghost predicate Answers(s: Session, flight: map<nat, Frame>, a: Action, refusal: Option<Refusal>, maxBytes: nat) {
    && (refusal.None? <==> Granted(s, flight, a, maxBytes))
    && (refusal.Some? ==> Truthful(s, flight, a, refusal.value, maxBytes))
  }

  lemma EnqueueAnswers(s: Session, flight: map<nat, Frame>, a: Action, maxBytes: nat)
    requires Owned(s, maxBytes) && a.DoEnqueue?
    ensures Answers(s, flight, a, Enqueue(s, a.frame, a.now, maxBytes).refusal, maxBytes)
  {
  }

  lemma AcknowledgeAnswers(s: Session, flight: map<nat, Frame>, a: Action, maxBytes: nat)
    requires Owned(s, maxBytes) && a.DoAcknowledge?
    ensures Answers(s, flight, a, Acknowledge(s, a.connection, a.sequence, a.rendered, a.deadline).refusal, maxBytes)
  {
  }

  lemma MarkAnswers(s: Session, flight: map<nat, Frame>, a: Action, maxBytes: nat)
    requires Owned(s, maxBytes) && a.DoMarkWritten?
    ensures Answers(s, flight, a, MarkWritten(s, a.connection, a.sequence).refusal, maxBytes)
  {
  }

  lemma LossAnswers(s: Session, flight: map<nat, Frame>, a: Action, maxBytes: nat)
    requires Owned(s, maxBytes) && a.DoDisconnect?
    ensures Answers(s, flight, a, Disconnect(s, a.reservation, a.connection, a.deadline).refusal, maxBytes)
  {
    if LosesTransport(s, a) { WrittenIs(s, a.connection, maxBytes); }
  }

  lemma PlannedAnswers(s: Session, flight: map<nat, Frame>, a: Action, maxBytes: nat)
    requires Owned(s, maxBytes) && a.DoPlannedDetach?
    ensures Answers(s, flight, a, PlannedDetach(s, a.epoch, a.connection).refusal, maxBytes)
  {
    if FinishesTransport(s, a) {
      NoOtherOwner(s, a.connection, maxBytes);
      WrittenIs(s, a.connection, maxBytes);
    }
  }

  lemma DeliveryAnswers(s: Session, flight: map<nat, Frame>, a: Action, maxBytes: nat)
    requires a.DoDeliverFinish?
    ensures Answers(s, flight, a, DeliverFinish(s, a.epoch, a.connection).refusal, maxBytes)
  {
  }

  lemma WrittenIs(s: Session, connection: nat, maxBytes: nat)
    requires Owned(s, maxBytes) && s.playback == Some(connection)
    ensures
      var drop := set k | k in s.pending && s.pending[k].connection == Some(connection);
      && drop == s.pending.Keys
      && (WrittenGenerations(s.pending, drop) != {} <==> exists k :: k in s.pending && s.pending[k].written)
  {
    var drop := set k | k in s.pending && s.pending[k].connection == Some(connection);
    if k :| k in s.pending && s.pending[k].written {
      assert s.pending[k].generation in WrittenGenerations(s.pending, drop);
    }
  }

  lemma OtherAnswers(s: Session, flight: map<nat, Frame>, a: Action, maxBytes: nat)
    requires Owned(s, maxBytes)
    requires !(a.DoEnqueue? || a.DoAcknowledge? || a.DoMarkWritten? || a.DoDisconnect? || a.DoPlannedDetach?)
    requires !a.DoDeliverFinish?
    ensures Answers(s, flight, a, Apply(s, flight, a, maxBytes).refusal, maxBytes)
  {
  }

  /** Every step is answered with success exactly when it does what it was asked for, and else with a true reason. */
  lemma AnsweredExactly(t: Trace, i: nat, epoch: nat, maxBytes: nat)
    requires IsRun(t, epoch, maxBytes) && i < |t.actions|
    ensures t.outcomes[i].refusal.None? <==> Granted(t.sessions[i], t.flights[i], t.actions[i], maxBytes)
    ensures t.outcomes[i].refusal.Some? ==>
              Truthful(t.sessions[i], t.flights[i], t.actions[i], t.outcomes[i].refusal.value, maxBytes)
  {
    var s, flight, a := t.sessions[i], t.flights[i], t.actions[i];
    ReachableIsOwned(t, i, epoch, maxBytes);
    assert StepAt(t, i, maxBytes);
    match a
    case DoEnqueue(_, _) => EnqueueAnswers(s, flight, a, maxBytes);
    case DoAcknowledge(_, _, _, _) => AcknowledgeAnswers(s, flight, a, maxBytes);
    case DoMarkWritten(_, _) => MarkAnswers(s, flight, a, maxBytes);
    case DoDisconnect(_, _, _) => LossAnswers(s, flight, a, maxBytes);
    case DoPlannedDetach(_, _) => PlannedAnswers(s, flight, a, maxBytes);
    case DoDeliverFinish(_, _) => DeliveryAnswers(s, flight, a, maxBytes);
    case _ => OtherAnswers(s, flight, a, maxBytes);
  }

  // ---------------------------------------------------------------- generations told to the voice input

  /** Exactly which generations a step reports as flushed: the written ones of a lost transport, and overdue ones. */
  lemma ToldExactly(t: Trace, i: nat, g: nat, epoch: nat, maxBytes: nat)
    requires IsRun(t, epoch, maxBytes) && i < |t.actions|
    ensures
      var s, a := t.sessions[i], t.actions[i];
      g in t.outcomes[i].flushed <==>
        || (Detaches(s, a) && exists k :: k in s.pending && s.pending[k].written && s.pending[k].generation == g)
        || (a.DoExpireAccepted? && a.epoch == epoch && s.voice && GenerationOverdue(s, g, a.now))
  {
    var s, a := t.sessions[i], t.actions[i];
    ReachableIsOwned(t, i, epoch, maxBytes);
    EpochStands(t, i, epoch, maxBytes);
    assert StepAt(t, i, maxBytes);
    if a.DoDisconnect? {
      DisconnectTold(s, a.reservation, a.connection, a.deadline, g, maxBytes);
    } else if a.DoPlannedDetach? {
      PlannedTold(s, a.epoch, a.connection, g, maxBytes);
    } else if a.DoExpireAccepted? {
      OverdueIs(s, g, a.now);
    } else {
      NothingTold(s, t.flights[i], a, maxBytes);
    }
  }

  lemma DisconnectTold(s: Session, reservation: Option<nat>, connection: nat, deadline: nat, g: nat, maxBytes: nat)
    requires Owned(s, maxBytes)
    ensures g in Disconnect(s, reservation, connection, deadline).flushed <==>
              && ForReservation(reservation, s.epoch) && s.playback == Some(connection)
              && exists k :: k in s.pending && s.pending[k].written && s.pending[k].generation == g
  {
  }

  lemma PlannedTold(s: Session, epoch: nat, connection: nat, g: nat, maxBytes: nat)
    requires Owned(s, maxBytes)
    ensures g in PlannedDetach(s, epoch, connection).flushed <==>
              && epoch == s.epoch && s.playback == Some(connection)
              && exists k :: k in s.pending && s.pending[k].written && s.pending[k].generation == g
  {
    if epoch == s.epoch && s.playback == Some(connection) { NoOtherOwner(s, connection, maxBytes); }
  }

  lemma NothingTold(s: Session, flight: map<nat, Frame>, a: Action, maxBytes: nat)
    requires !a.DoDisconnect? && !a.DoPlannedDetach? && !a.DoExpireAccepted?
    ensures Apply(s, flight, a, maxBytes).flushed == {}
  {
  }

  lemma {:induction false} EpochStands(t: Trace, n: nat, epoch: nat, maxBytes: nat)
    requires IsRun(t, epoch, maxBytes) && n < |t.sessions|
    ensures t.sessions[n].epoch == epoch
  {
    if n > 0 {
      EpochStands(t, n - 1, epoch, maxBytes);
      StepMoves(t, n - 1, epoch, maxBytes);
    }
  }

  // ---------------------------------------------------------------- the finish barrier and the flushes

  function FinishedFor(c: nat): Session -> bool { (s: Session) => s.finishConnection == Some(c) }

  function TakenOffFrom(c: nat): (Session, Action) -> bool { (s, a) => FinishesTransport(s, a) && a.connection == c }

  function WasDelivered(): Session -> bool { (s: Session) => s.finishDelivered }

  function Delivering(): (Session, Action) -> bool { (s, a) => Delivers(s, a) }

  /** What one step makes of the finish. */
  ghost predicate FinishGoes(s: Session, a: Action, next: Session) {
    && next.finishConnection == (if FinishesTransport(s, a) then Some(a.connection) else s.finishConnection)
    && next.finishDelivered == (s.finishDelivered || Delivers(s, a))
  }

  lemma FinishMoves(s: Session, flight: map<nat, Frame>, a: Action, maxBytes: nat)
    requires Owned(s, maxBytes)
    ensures FinishGoes(s, a, Apply(s, flight, a, maxBytes).next)
  {
    if FinishesTransport(s, a) { NoOtherOwner(s, a.connection, maxBytes); }
  }

  lemma StepMovesFinish(t: Trace, i: nat, epoch: nat, maxBytes: nat)
    requires IsRun(t, epoch, maxBytes) && i < |t.actions|
    ensures FinishGoes(t.sessions[i], t.actions[i], t.sessions[i + 1])
  {
    ReachableIsOwned(t, i, epoch, maxBytes);
    assert StepAt(t, i, maxBytes);
    FinishMoves(t.sessions[i], t.flights[i], t.actions[i], maxBytes);
  }

  /** The finish belongs to the connection taken off for it, and is delivered from its first delivery on. */
  lemma DeliveryIsHistory(t: Trace, n: nat, c: nat, epoch: nat, maxBytes: nat)
    requires IsRun(t, epoch, maxBytes) && n < |t.sessions|
    ensures t.sessions[n].finishConnection == Some(c) <==> Since(When(t, TakenOffFrom(c)), When(t, Nothing()), n)
    ensures t.sessions[n].finishDelivered <==> Since(When(t, Delivering()), When(t, Nothing()), n)
  {
    forall i | 0 <= i < |t.actions|
      ensures MovesAt(t, i, FinishedFor(c), TakenOffFrom(c), Nothing())
      ensures MovesAt(t, i, WasDelivered(), Delivering(), Nothing())
    {
      ReachableIsOwned(t, i, epoch, maxBytes);
      FinishOnce(t, i, epoch, maxBytes);
      StepMovesFinish(t, i, epoch, maxBytes);
    }
    HoldsSince(t, n, FinishedFor(c), TakenOffFrom(c), Nothing());
    HoldsSince(t, n, WasDelivered(), Delivering(), Nothing());
  }

  lemma {:induction false} FinishOnce(t: Trace, n: nat, epoch: nat, maxBytes: nat)
    requires IsRun(t, epoch, maxBytes) && n < |t.sessions|
    ensures t.sessions[n].finishConnection.Some? <==> t.sessions[n].finished
  {
    if n > 0 {
      FinishOnce(t, n - 1, epoch, maxBytes);
      StepMoves(t, n - 1, epoch, maxBytes);
      StepMovesFinish(t, n - 1, epoch, maxBytes);
    }
  }

  /** A flush is asked of the attached transport. */
  predicate Flushes(s: Session, a: Action) {
    a.DoRequestFlush? && !s.finished && s.playback.Some? && |s.flushes| < 16 && a.generation !in s.flushes
  }

  /** The flush is acknowledged, cancelled, or lost with its transport. */
  predicate SettlesFlush(s: Session, a: Action, g: nat) {
    || Detaches(s, a)
    || (a.DoAcknowledgeFlush? && a.generation == g && s.playback == Some(a.connection))
    || (a.DoCancelFlush? && a.generation == g)
  }

  function Flushed(g: nat): Session -> bool { (s: Session) => g in s.flushes }

  function Flushing(g: nat): (Session, Action) -> bool { (s, a) => Flushes(s, a) && a.generation == g }

  function SettlingFlush(g: nat): (Session, Action) -> bool { (s, a) => SettlesFlush(s, a, g) }

  lemma FrameStepKeepsFlushes(s: Session, flight: map<nat, Frame>, a: Action, maxBytes: nat)
    requires FrameStep(a) || a.DoAttachVoice? || a.DoDeliverFinish?
    ensures Apply(s, flight, a, maxBytes).next.flushes == s.flushes
  {
  }

  lemma FlushMoves(s: Session, a: Action, g: nat, maxBytes: nat)
    requires a.DoRequestFlush? || a.DoAcknowledgeFlush? || a.DoCancelFlush?
    ensures g in Apply(s, map[], a, maxBytes).next.flushes <==>
              (Flushes(s, a) && a.generation == g) || (g in s.flushes && !SettlesFlush(s, a, g))
  {
  }

  lemma LinkMovesFlush(s: Session, flight: map<nat, Frame>, a: Action, g: nat, maxBytes: nat)
    requires Owned(s, maxBytes) && LinkStep(a)
    ensures g in Apply(s, flight, a, maxBytes).next.flushes <==> g in s.flushes && !SettlesFlush(s, a, g)
  {
    if FinishesTransport(s, a) { NoOtherOwner(s, a.connection, maxBytes); }
  }

  /** A flush is pending exactly from its request to its acknowledgement, its cancellation or the transport's end. */
  lemma FlushIsHistory(t: Trace, n: nat, g: nat, epoch: nat, maxBytes: nat)
    requires IsRun(t, epoch, maxBytes) && n < |t.sessions|
    ensures g in t.sessions[n].flushes <==> Since(When(t, Flushing(g)), When(t, SettlingFlush(g)), n)
  {
    forall i | 0 <= i < |t.actions| ensures MovesAt(t, i, Flushed(g), Flushing(g), SettlingFlush(g)) {
      ReachableIsOwned(t, i, epoch, maxBytes);
      assert StepAt(t, i, maxBytes);
      if LinkStep(t.actions[i]) {
        LinkMovesFlush(t.sessions[i], t.flights[i], t.actions[i], g, maxBytes);
      } else if FrameStep(t.actions[i]) || t.actions[i].DoAttachVoice? || t.actions[i].DoDeliverFinish? {
        FrameStepKeepsFlushes(t.sessions[i], t.flights[i], t.actions[i], maxBytes);
      } else {
        FlushMoves(t.sessions[i], t.actions[i], g, maxBytes);
      }
    }
    HoldsSince(t, n, Flushed(g), Flushing(g), SettlingFlush(g));
  }

  // ---------------------------------------------------------------- frames in flight

  function Departing(k: nat, maxBytes: nat): (Session, Action) -> bool {
    (s, a) => Issues(s, a, maxBytes) && s.nextSequence == k && s.playback.Some?
  }

  function Arriving(k: nat): (Session, Action) -> bool { (s: Session, a: Action) => a.DoSend? && a.sequence == k }

  /** A frame is in flight exactly from its issue for an attached transport to its hand-over. */
  lemma {:induction false} FlightIsHistory(t: Trace, n: nat, k: nat, epoch: nat, maxBytes: nat)
    requires IsRun(t, epoch, maxBytes) && n < |t.sessions|
    ensures k in t.flights[n] <==> Since(When(t, Departing(k, maxBytes)), When(t, Arriving(k)), n)
  {
    var starts, stops := When(t, Departing(k, maxBytes)), When(t, Arriving(k));
    if n == 0 {
      SinceNever(starts, stops);
    } else {
      FlightIsHistory(t, n - 1, k, epoch, maxBytes);
      SinceNext(starts, stops, n - 1);
      StepMovesFlight(t, n - 1, k, epoch, maxBytes);
    }
  }

  /** What one step makes of a frame in flight. */
  ghost predicate FlightGoes(s: Session, a: Action, k: nat, before: bool, after: bool, maxBytes: nat) {
    after <==> Departing(k, maxBytes)(s, a) || (before && !Arriving(k)(s, a))
  }

  lemma StepMovesFlight(t: Trace, i: nat, k: nat, epoch: nat, maxBytes: nat)
    requires IsRun(t, epoch, maxBytes) && i < |t.actions|
    ensures FlightGoes(t.sessions[i], t.actions[i], k, k in t.flights[i], k in t.flights[i + 1], maxBytes)
  {
    ReachableIsOwned(t, i, epoch, maxBytes);
    assert StepAt(t, i, maxBytes);
    FlightMoves(t.sessions[i], t.flights[i], t.actions[i], k, maxBytes);
  }

  lemma FlightMoves(s: Session, flight: map<nat, Frame>, a: Action, k: nat, maxBytes: nat)
    requires Owned(s, maxBytes)
    ensures k in FlightAfter(flight, a, Apply(s, flight, a, maxBytes)) <==>
              || (Issues(s, a, maxBytes) && s.nextSequence == k && s.playback.Some?)
              || (k in flight && !(a.DoSend? && a.sequence == k))
  {
  }
}
