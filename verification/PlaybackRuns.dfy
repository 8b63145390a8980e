/** What every step of the playback half keeps, and what therefore holds over whole runs. */
module PlaybackRuns {
  import opened Wrappers
  import opened Playback

  // ---------------------------------------------------------------- ownership

  predicate Earlier(waiting: seq<Request>, i: nat, j: nat)
    requires i < j < |waiting|
  {
    waiting[i].sequence < waiting[j].sequence
  }

  predicate Ascending(waiting: seq<Request>) {
    forall i, j :: 0 <= i < j < |waiting| ==> Earlier(waiting, i, j)
  }

  /** A completion is taken exactly at acceptance, and only a frame on a connection gets that far. */
  predicate Coherent(p: Pending) {
    && p.accepted == !p.open
    && p.accepted == p.deadline.Some?
    && (p.accepted || p.written ==> p.connection.Some?)
  }

  /** Every pending frame is owned by the attached transport, or by nothing when there is none. */
  ghost predicate FramesOwned(pending: map<nat, Pending>, playback: Option<nat>, nextSequence: nat) {
    && |pending| <= QUEUE_CAPACITY
    && (forall k :: k in pending ==>
          1 <= k < nextSequence && pending[k].connection == playback && Coherent(pending[k]))
  }

  /** No frame and no flush is owned by anything but the attached transport. */
  ghost predicate TableOwned(s: Session) {
    && FramesOwned(s.pending, s.playback, s.nextSequence)
    && (forall g :: g in s.flushes ==> s.playback == Some(s.flushes[g]))
  }

  /** Frames wait, in issue order, exactly while no transport is attached. */
  ghost predicate WaitingOwned(waiting: seq<Request>, playback: Option<nat>, pending: set<nat>) {
    && (if playback.Some? then waiting == [] else Sequences(waiting) == pending)
    && Ascending(waiting)
  }

  /** The waiting frames are in order and within the byte bound. */
  ghost predicate QueueOwned(s: Session, maxBytes: nat) {
    && WaitingOwned(s.waiting, s.playback, s.pending.Keys)
    && s.waitingBytes == Bytes(s.waiting) <= maxBytes
  }

  /** The ownership invariant of every reachable session. */
  ghost predicate Owned(s: Session, maxBytes: nat) {
    && TableOwned(s)
    && QueueOwned(s, maxBytes)
    && 1 <= s.nextSequence
    && (s.playback.Some? ==> s.reconnect.None?)
    && (s.waiting != [] ==> s.reconnect.Some?)
    && (s.finished ==> s.playback.None? && s.waiting == [])
    && (s.finishDelivered ==> s.finished)
  }

  lemma {:induction false} BytesAppend(a: seq<Request>, b: seq<Request>)
    ensures Bytes(a + b) == Bytes(a) + Bytes(b)
  {
    if a == [] {
      assert a + b == b;
    } else {
      BytesAppend(a[1..], b);
      assert (a + b)[1..] == a[1..] + b;
    }
  }

  lemma {:induction false} WithoutBytes(waiting: seq<Request>, k: nat)
    ensures Bytes(waiting) == Bytes(Without(waiting, k)) + SizeOf(waiting, k)
  {
    if waiting != [] && waiting[0].sequence != k {
      WithoutBytes(waiting[1..], k);
      BytesAppend([waiting[0]], Without(waiting[1..], k));
    }
  }

  lemma AscendingPart(waiting: seq<Request>, lo: nat, hi: nat)
    requires Ascending(waiting) && lo <= hi <= |waiting|
    ensures Ascending(waiting[lo..hi])
  {
    forall i, j | 0 <= i < j < hi - lo ensures Earlier(waiting[lo..hi], i, j) {
      assert Earlier(waiting, lo + i, lo + j);
    }
  }

  lemma {:induction false} WithoutMembers(waiting: seq<Request>, k: nat, r: Request)
    requires Ascending(waiting)
    ensures r in Without(waiting, k) <==> r in waiting && r.sequence != k
  {
    if waiting != [] {
      var rest := waiting[1..];
      assert waiting == [waiting[0]] + rest;
      AscendingPart(waiting, 1, |waiting|);
      assert waiting[1..|waiting|] == rest;
      WithoutMembers(rest, k, r);
      if waiting[0].sequence == k && r in rest {
        var i :| 0 <= i < |rest| && rest[i] == r;
        assert Earlier(waiting, 0, i + 1);
      }
    }
  }

  lemma {:induction false} WithoutAscends(waiting: seq<Request>, k: nat)
    requires Ascending(waiting)
    ensures Ascending(Without(waiting, k))
  {
    if waiting != [] {
      var rest := waiting[1..];
      AscendingPart(waiting, 1, |waiting|);
      assert waiting[1..|waiting|] == rest;
      if waiting[0].sequence != k {
        var kept := Without(rest, k);
        WithoutAscends(rest, k);
        forall j | 0 <= j < |kept| ensures waiting[0].sequence < kept[j].sequence {
          WithoutMembers(rest, k, kept[j]);
          var i :| 0 <= i < |rest| && rest[i] == kept[j];
          assert Earlier(waiting, 0, i + 1);
        }
        AscendingBehind(waiting[0], kept);
      }
    }
  }

  lemma AscendingBehind(first: Request, rest: seq<Request>)
    requires Ascending(rest) && forall j :: 0 <= j < |rest| ==> first.sequence < rest[j].sequence
    ensures Ascending([first] + rest)
  {
    forall i, j | 0 <= i < j < |rest| + 1 ensures Earlier([first] + rest, i, j) {
      if i > 0 { assert Earlier(rest, i - 1, j - 1); }
    }
  }

  /** Taking one waiting frame out removes exactly its sequence number. */
  lemma WithoutSequences(waiting: seq<Request>, k: nat)
    requires Ascending(waiting)
    ensures Sequences(Without(waiting, k)) == Sequences(waiting) - {k}
  {
    forall r | r in Without(waiting, k) || r in waiting
      ensures r in Without(waiting, k) <==> r in waiting && r.sequence != k
    {
      WithoutMembers(waiting, k, r);
    }
  }

  /** Distinct sequence numbers: the waiting queue is no longer than the pending table. */
  lemma {:induction false} WaitingLength(waiting: seq<Request>)
    requires Ascending(waiting)
    ensures |waiting| == |Sequences(waiting)|
  {
    if waiting == [] {
    } else {
      var n := |waiting| - 1;
      var front := waiting[..n];
      assert waiting == front + [waiting[n]];
      AscendingPart(waiting, 0, n);
      WaitingLength(front);
      assert Sequences(waiting) == Sequences(front) + {waiting[n].sequence};
      forall i | 0 <= i < n ensures front[i].sequence != waiting[n].sequence {
        assert Earlier(waiting, i, n);
      }
    }
  }

  // ---------------------------------------------------------------- the runs

  datatype Action =
    | DoEnqueue(frame: Frame, now: nat)
    | DoSend(sequence: nat, taken: bool)
    | DoAttach(reservation: Option<nat>, connection: nat)
    | DoDisconnect(reservation: Option<nat>, connection: nat, deadline: nat)
    | DoPlannedDetach(epoch: nat, connection: nat)
    | DoExpireWaiting(deadline: nat)
    | DoExpireAccepted(epoch: nat, now: nat)
    | DoAcknowledge(connection: nat, sequence: nat, rendered: bool, deadline: nat)
    | DoMarkWritten(connection: nat, sequence: nat)
    | DoCancelPlayback(sequence: nat)
    | DoRequestFlush(generation: nat)
    | DoAcknowledgeFlush(connection: nat, generation: nat)
    | DoCancelFlush(generation: nat)
    | DoAttachVoice
    | DoDeliverFinish(epoch: nat, connection: nat)

  /** One step of the session, with the frames in flight between their issue and their hand-over. */
  function Apply(s: Session, flight: map<nat, Frame>, a: Action, maxBytes: nat): Outcome {
    match a
    case DoEnqueue(frame, now) => Enqueue(s, frame, now, maxBytes)
    case DoSend(k, taken) => Send(s, flight, k, taken)
    case DoAttach(reservation, connection) => Attach(s, reservation, connection)
    case DoDisconnect(reservation, connection, deadline) => Disconnect(s, reservation, connection, deadline)
    case DoPlannedDetach(epoch, connection) => PlannedDetach(s, epoch, connection)
    case DoExpireWaiting(deadline) => ExpireWaiting(s, deadline)
    case DoExpireAccepted(epoch, now) => ExpireAccepted(s, epoch, now)
    case DoAcknowledge(connection, k, rendered, deadline) => Acknowledge(s, connection, k, rendered, deadline)
    case DoMarkWritten(connection, k) => MarkWritten(s, connection, k)
    case DoCancelPlayback(k) => CancelPlayback(s, k)
    case DoRequestFlush(generation) => RequestFlush(s, generation)
    case DoAcknowledgeFlush(connection, generation) => AcknowledgeFlush(s, connection, generation)
    case DoCancelFlush(generation) => CancelFlush(s, generation)
    case DoAttachVoice => AttachVoice(s)
    case DoDeliverFinish(epoch, connection) => DeliverFinish(s, epoch, connection)
  }

  /** The frame issued to a transport by this step, if it issued one. */
  predicate Departs(a: Action, o: Outcome, k: nat) {
    a.DoEnqueue? && o.refusal.None? && o.next.playback.Some? && k + 1 == o.next.nextSequence
  }

  function FlightAfter(flight: map<nat, Frame>, a: Action, o: Outcome): map<nat, Frame> {
    if a.DoSend? then flight - {a.sequence}
    else if a.DoEnqueue? && o.next.nextSequence > 0 && Departs(a, o, o.next.nextSequence - 1)
    then flight[o.next.nextSequence - 1 := a.frame]
    else flight
  }

  /** A run: the actions, what each of them did, and the sessions and frames in flight between them. */
  datatype Trace = Trace(
    actions: seq<Action>,
    outcomes: seq<Outcome>,
    sessions: seq<Session>,
    flights: seq<map<nat, Frame>>)

  ghost predicate StepAt(t: Trace, i: nat, maxBytes: nat)
    requires i < |t.actions| == |t.outcomes| && |t.sessions| == |t.flights| == |t.actions| + 1
  {
    && t.outcomes[i] == Apply(t.sessions[i], t.flights[i], t.actions[i], maxBytes)
    && t.sessions[i + 1] == t.outcomes[i].next
    && t.flights[i + 1] == FlightAfter(t.flights[i], t.actions[i], t.outcomes[i])
  }

  ghost predicate IsRun(t: Trace, epoch: nat, maxBytes: nat) {
    && |t.actions| == |t.outcomes|
    && |t.sessions| == |t.flights| == |t.actions| + 1
    && t.sessions[0] == New(epoch) && t.flights[0] == map[]
    && (forall i {:trigger StepAt(t, i, maxBytes)} :: 0 <= i < |t.actions| ==> StepAt(t, i, maxBytes))
  }

  // ---------------------------------------------------------------- ownership over runs

  lemma SmallerTable(m: map<nat, Pending>, drop: set<nat>)
    ensures |m - drop| <= |m|
  {
    assert m.Keys == (m - drop).Keys + (m.Keys * drop);
  }

  lemma SameTable(m: map<nat, Pending>, n: map<nat, Pending>)
    requires m.Keys == n.Keys
    ensures |m| == |n|
  {
    assert |m| == |m.Keys| && |n| == |n.Keys|;
  }

  lemma WaitingGrows(waiting: seq<Request>, request: Request)
    requires Ascending(waiting)
    requires forall k :: k in Sequences(waiting) ==> k < request.sequence
    ensures Ascending(waiting + [request])
    ensures Sequences(waiting + [request]) == Sequences(waiting) + {request.sequence}
    ensures Bytes(waiting + [request]) == Bytes(waiting) + |request.frame.payload|
  {
    BytesAppend(waiting, [request]);
    assert Bytes([request]) == |request.frame.payload|;
    forall i, j | 0 <= i < j < |waiting| + 1 ensures Earlier(waiting + [request], i, j) {
      if j < |waiting| {
        assert Earlier(waiting, i, j);
      } else {
        assert waiting[i].sequence in Sequences(waiting);
      }
    }
  }

  lemma FramesGrow(pending: map<nat, Pending>, playback: Option<nat>, k: nat, p: Pending)
    requires FramesOwned(pending, playback, k) && |pending| < QUEUE_CAPACITY && 1 <= k
    requires p.connection == playback && Coherent(p)
    ensures FramesOwned(pending[k := p], playback, k + 1)
    ensures pending[k := p].Keys == pending.Keys + {k}
  {
  }

  lemma EnqueueOwnsTable(s: Session, frame: Frame, now: nat, maxBytes: nat)
    requires TableOwned(s) && 1 <= s.nextSequence && Enqueue(s, frame, now, maxBytes).refusal.None?
    ensures TableOwned(Enqueue(s, frame, now, maxBytes).next)
    ensures Enqueue(s, frame, now, maxBytes).next.pending.Keys == s.pending.Keys + {s.nextSequence}
  {
    var next := Enqueue(s, frame, now, maxBytes).next;
    var p := Pending(s.playback, frame.generation, true, false, None, false);
    assert next.pending == s.pending[s.nextSequence := p] && next.flushes == s.flushes;
    assert next.playback == s.playback && next.nextSequence == s.nextSequence + 1;
    FramesGrow(s.pending, s.playback, s.nextSequence, p);
  }

  lemma QueueGrows(waiting: seq<Request>, pending: set<nat>, request: Request)
    requires WaitingOwned(waiting, None, pending) && forall k :: k in pending ==> k < request.sequence
    ensures WaitingOwned(waiting + [request], None, pending + {request.sequence})
    ensures Bytes(waiting + [request]) == Bytes(waiting) + |request.frame.payload|
  {
    WaitingGrows(waiting, request);
  }

  lemma EnqueueOwnsQueue(s: Session, next: Session, request: Request, maxBytes: nat)
    requires QueueOwned(s, maxBytes) && s.playback.None? && next.playback.None?
    requires forall k :: k in s.pending.Keys ==> k < request.sequence
    requires next.waiting == s.waiting + [request] && next.pending.Keys == s.pending.Keys + {request.sequence}
    requires next.waitingBytes == s.waitingBytes + |request.frame.payload| <= maxBytes
    ensures QueueOwned(next, maxBytes)
  {
    QueueGrows(s.waiting, s.pending.Keys, request);
  }

  lemma EnqueueOwnsWaiting(s: Session, frame: Frame, now: nat, maxBytes: nat)
    requires QueueOwned(s, maxBytes) && (forall k :: k in s.pending.Keys ==> k < s.nextSequence)
    requires Enqueue(s, frame, now, maxBytes).refusal.None?
    requires Enqueue(s, frame, now, maxBytes).next.pending.Keys == s.pending.Keys + {s.nextSequence}
    ensures QueueOwned(Enqueue(s, frame, now, maxBytes).next, maxBytes)
  {
    var next := Enqueue(s, frame, now, maxBytes).next;
    if s.playback.None? {
      EnqueueOwnsQueue(s, next, Request(s.nextSequence, frame), maxBytes);
    } else {
      assert next.waiting == [] && next.waitingBytes == 0 && next.playback.Some?;
    }
  }

  lemma EnqueueOwned(s: Session, frame: Frame, now: nat, maxBytes: nat)
    requires Owned(s, maxBytes)
    ensures Owned(Enqueue(s, frame, now, maxBytes).next, maxBytes)
  {
    if Enqueue(s, frame, now, maxBytes).refusal.None? {
      EnqueueOwnsTable(s, frame, now, maxBytes);
      EnqueueOwnsWaiting(s, frame, now, maxBytes);
    } else {
      assert Enqueue(s, frame, now, maxBytes).next == s;
    }
  }

  lemma AttachOwnsTable(s: Session, reservation: Option<nat>, connection: nat)
    requires TableOwned(s) && s.playback.None? && Sequences(s.waiting) == s.pending.Keys
    requires Attach(s, reservation, connection).refusal.None?
    ensures TableOwned(Attach(s, reservation, connection).next)
  {
    SameTable(s.pending, Tagged(s.pending, Sequences(s.waiting), connection));
  }

  lemma AttachOwned(s: Session, reservation: Option<nat>, connection: nat, maxBytes: nat)
    requires Owned(s, maxBytes)
    ensures Owned(Attach(s, reservation, connection).next, maxBytes)
  {
    if Attach(s, reservation, connection).refusal.None? {
      AttachOwnsTable(s, reservation, connection);
    }
  }

  /** With nothing pending there is nothing left to own. */
  lemma EmptyOwned(s: Session, maxBytes: nat)
    requires s.pending == map[] && s.flushes == map[] && s.waiting == [] && s.waitingBytes == 0
    requires s.playback.None? && 1 <= s.nextSequence && (s.finishDelivered ==> s.finished)
    ensures Owned(s, maxBytes)
  {
    assert Sequences([]) == {};
  }

  lemma DisconnectOwned(s: Session, reservation: Option<nat>, connection: nat, deadline: nat, maxBytes: nat)
    requires Owned(s, maxBytes)
    ensures Owned(Disconnect(s, reservation, connection, deadline).next, maxBytes)
  {
    var next := Disconnect(s, reservation, connection, deadline).next;
    if next != s {
      assert next.pending == map[] && next.flushes == map[];
      EmptyOwned(next, maxBytes);
    }
  }

  lemma PlannedDetachOwned(s: Session, reservation: nat, connection: nat, maxBytes: nat)
    requires Owned(s, maxBytes)
    ensures Owned(PlannedDetach(s, reservation, connection).next, maxBytes)
  {
    if PlannedDetach(s, reservation, connection).next != s {
      EmptyOwned(PlannedDetach(s, reservation, connection).next, maxBytes);
    }
  }

  lemma ExpireWaitingOwned(s: Session, deadline: nat, maxBytes: nat)
    requires Owned(s, maxBytes)
    ensures Owned(ExpireWaiting(s, deadline).next, maxBytes)
  {
    if s.reconnect == Some(deadline) {
      var next := ExpireWaiting(s, deadline).next;
      assert next.pending == map[] && next.flushes == map[];
      EmptyOwned(next, maxBytes);
    }
  }

  /** An overdue frame was accepted, so a transport is attached and nothing is waiting. */
  lemma ExpireAcceptedOwned(s: Session, epoch: nat, now: nat, maxBytes: nat)
    requires Owned(s, maxBytes)
    ensures Owned(ExpireAccepted(s, epoch, now).next, maxBytes)
  {
    var generations := Overdue(s, now);
    if generations != {} {
      var g :| g in generations;
      assert s.playback.Some?;
      SmallerTable(s.pending, set k | k in s.pending && s.pending[k].generation in generations);
    }
  }

  lemma AcknowledgeOwned(s: Session, connection: nat, k: nat, rendered: bool, deadline: nat, maxBytes: nat)
    requires Owned(s, maxBytes)
    ensures Owned(Acknowledge(s, connection, k, rendered, deadline).next, maxBytes)
  {
    var o := Acknowledge(s, connection, k, rendered, deadline);
    SmallerTable(s.pending, {k});
    if k in s.pending && !rendered {
      SameTable(s.pending, s.pending[k := s.pending[k].(accepted := true, deadline := Some(deadline), open := false)]);
    }
  }

  lemma MarkWrittenOwned(s: Session, connection: nat, k: nat, maxBytes: nat)
    requires Owned(s, maxBytes)
    ensures Owned(MarkWritten(s, connection, k).next, maxBytes)
  {
    if k in s.pending {
      SameTable(s.pending, s.pending[k := s.pending[k].(written := true)]);
    }
  }

  lemma CancelPlaybackOwned(s: Session, k: nat, maxBytes: nat)
    requires Owned(s, maxBytes)
    ensures Owned(CancelPlayback(s, k).next, maxBytes)
  {
    WithoutAscends(s.waiting, k);
    WithoutSequences(s.waiting, k);
    WithoutBytes(s.waiting, k);
    SmallerTable(s.pending, {k});
    if s.waiting == [] { assert Without(s.waiting, k) == []; }
  }

  /** The steps of a frame's own way: issue, hand-over, acknowledgement, writing and cancellation. */
  predicate FrameStep(a: Action) {
    a.DoEnqueue? || a.DoSend? || a.DoAcknowledge? || a.DoMarkWritten? || a.DoCancelPlayback?
  }

  /** The steps of the transport: attach, detach and expiry. */
  predicate LinkStep(a: Action) {
    a.DoAttach? || a.DoDisconnect? || a.DoPlannedDetach? || a.DoExpireWaiting? || a.DoExpireAccepted?
  }

  lemma OtherStepOwned(s: Session, flight: map<nat, Frame>, a: Action, maxBytes: nat)
    requires Owned(s, maxBytes) && !FrameStep(a) && !LinkStep(a)
    ensures Owned(Apply(s, flight, a, maxBytes).next, maxBytes)
  {
  }

  lemma FrameStepOwned(s: Session, flight: map<nat, Frame>, a: Action, maxBytes: nat)
    requires Owned(s, maxBytes) && FrameStep(a)
    ensures Owned(Apply(s, flight, a, maxBytes).next, maxBytes)
  {
    match a
    case DoSend(k, taken) =>
    case DoEnqueue(frame, now) => EnqueueOwned(s, frame, now, maxBytes);
    case DoAcknowledge(connection, k, rendered, deadline) =>
      AcknowledgeOwned(s, connection, k, rendered, deadline, maxBytes);
    case DoMarkWritten(connection, k) => MarkWrittenOwned(s, connection, k, maxBytes);
    case DoCancelPlayback(k) => CancelPlaybackOwned(s, k, maxBytes);
  }

  lemma LinkStepOwned(s: Session, flight: map<nat, Frame>, a: Action, maxBytes: nat)
    requires Owned(s, maxBytes) && LinkStep(a)
    ensures Owned(Apply(s, flight, a, maxBytes).next, maxBytes)
  {
    match a
    case DoAttach(reservation, connection) => AttachOwned(s, reservation, connection, maxBytes);
    case DoDisconnect(reservation, connection, deadline) =>
      DisconnectOwned(s, reservation, connection, deadline, maxBytes);
    case DoPlannedDetach(reservation, connection) => PlannedDetachOwned(s, reservation, connection, maxBytes);
    case DoExpireWaiting(deadline) => ExpireWaitingOwned(s, deadline, maxBytes);
    case DoExpireAccepted(epoch, now) => ExpireAcceptedOwned(s, epoch, now, maxBytes);
  }

  /** Every step keeps ownership. */
  lemma StepOwned(s: Session, flight: map<nat, Frame>, a: Action, maxBytes: nat)
    requires Owned(s, maxBytes)
    ensures Owned(Apply(s, flight, a, maxBytes).next, maxBytes)
  {
    if FrameStep(a) {
      FrameStepOwned(s, flight, a, maxBytes);
    } else if LinkStep(a) {
      LinkStepOwned(s, flight, a, maxBytes);
    } else {
      OtherStepOwned(s, flight, a, maxBytes);
    }
  }

  // ---------------------------------------------------------------- one sequence number's life

  /** Everything that has happened to one sequence number so far. */
  datatype Life = Life(
    frame: Option<Frame>,
    sent: bool,
    lost: bool,
    accepted: bool,
    rendered: bool,
    answered: bool,
    failed: bool)

  function Lived(l: Life, k: nat, a: Action, o: Outcome): Life {
    Life(if Issued(k) in o.events && a.DoEnqueue? then Some(a.frame) else l.frame,
         l.sent || Sent(k) in o.events,
         l.lost || Undelivered(k) in o.events,
         l.accepted || Accepted(k) in o.events,
         l.rendered || Rendered(k) in o.events,
         l.answered || Resolved(k, true) in o.events,
         l.failed || Resolved(k, false) in o.events)
  }

  function LifeAt(t: Trace, n: nat, k: nat): Life
    requires n <= |t.actions| == |t.outcomes|
  {
    if n == 0 then Life(None, false, false, false, false, false, false)
    else Lived(LifeAt(t, n - 1, k), k, t.actions[n - 1], t.outcomes[n - 1])
  }

  /** The frame in flight under one number, if it is. */
  function Flying(flight: map<nat, Frame>, k: nat): Option<Frame> {
    if k in flight then Some(flight[k]) else None
  }

  function FlyingAfter(flying: Option<Frame>, k: nat, a: Action, o: Outcome): Option<Frame> {
    if a.DoSend? && a.sequence == k then None else if Departs(a, o, k) then Some(a.frame) else flying
  }

  /** The stages of a life come in order, and a completion is answered `Ok` exactly by acceptance. */
  predicate Ordered(l: Life) {
    && (l.sent || l.lost || l.accepted || l.failed ==> l.frame.Some?)
    && !(l.sent && l.lost)
    && (l.rendered ==> l.accepted)
    && (l.answered <==> l.accepted)
    && (l.failed ==> !l.answered)
  }

  /** What the session knows about one number. */
  function Entry(s: Session, k: nat): Option<Pending> {
    if k in s.pending then Some(s.pending[k]) else None
  }

  /** The table and the flight agree with the life of a number. */
  predicate KnownEntry(e: Option<Pending>, attached: bool, next: nat, k: nat, l: Life, flying: Option<Frame>) {
    && Ordered(l)
    && (l.frame.Some? <==> 1 <= k < next)
    && (l.rendered || l.failed ==> e.None?)
    && (flying.Some? ==> l.frame == flying && !l.sent && !l.lost)
    && (e.Some? ==>
          && l.frame.Some? && l.frame.value.generation == e.value.generation
          && l.accepted == e.value.accepted
          && (attached <==> l.sent || l.lost || flying.Some?))
  }

  predicate KnownTable(s: Session, k: nat, l: Life, flying: Option<Frame>) {
    KnownEntry(Entry(s, k), s.playback.Some?, s.nextSequence, k, l, flying)
  }

  /** The queue holds the issued frame, and only numbers larger than any that was handed over or is in flight. */
  predicate KnownQueue(waiting: seq<Request>, k: nat, l: Life, flying: Option<Frame>) {
    && (forall r :: r in waiting && r.sequence == k ==> l.frame == Some(r.frame))
    && (l.sent || flying.Some? ==> forall r :: r in waiting ==> k < r.sequence)
  }

  predicate Known(s: Session, k: nat, l: Life, flying: Option<Frame>) {
    KnownTable(s, k, l, flying) && KnownQueue(s.waiting, k, l, flying)
  }

  /** No event of `o` happens to `k` for a second time or out of order. */
  predicate FreshEvents(l: Life, flying: Option<Frame>, k: nat, a: Action, o: Outcome) {
    && (Issued(k) in o.events ==> l.frame.None? && a.DoEnqueue?)
    && (Sent(k) in o.events ==> l.frame.Some? && !l.sent && !l.lost)
    && (Undelivered(k) in o.events ==> !l.sent && !l.lost && flying.Some?)
    && (Accepted(k) in o.events ==> !l.accepted && l.frame.Some? && (l.sent || l.lost || flying.Some?))
    && (Rendered(k) in o.events ==> l.accepted && !l.rendered)
    && (Resolved(k, true) in o.events ==> !l.answered && !l.failed && Resolved(k, false) !in o.events)
    && (Resolved(k, false) in o.events ==> !l.answered && !l.failed)
  }

  /** What is handed over under `k` is its frame, and a drain hands over nothing below what went before. */
  predicate FreshSent(l: Life, flying: Option<Frame>, k: nat, a: Action, o: Outcome) {
    && (forall r :: r in o.sent && r.sequence == k ==>
          Sent(k) in o.events && Lived(l, k, a, o).frame == Some(r.frame))
    && (l.sent || flying.Some? ==> forall r :: r in o.sent && a.DoAttach? ==> k < r.sequence)
  }

  ghost predicate AdvancedTable(k: nat, l: Life, flying: Option<Frame>, a: Action, o: Outcome) {
    FreshEvents(l, flying, k, a, o) && KnownTable(o.next, k, Lived(l, k, a, o), FlyingAfter(flying, k, a, o))
  }

  ghost predicate AdvancedQueue(k: nat, l: Life, flying: Option<Frame>, a: Action, o: Outcome) {
    FreshSent(l, flying, k, a, o) && KnownQueue(o.next.waiting, k, Lived(l, k, a, o), FlyingAfter(flying, k, a, o))
  }

  ghost predicate Advanced(k: nat, l: Life, flying: Option<Frame>, a: Action, o: Outcome) {
    AdvancedTable(k, l, flying, a, o) && AdvancedQueue(k, l, flying, a, o)
  }

  /** A step that hands nothing over and adds nothing to the queue. */
  lemma QueueKept(s: Session, k: nat, l: Life, u: Option<Frame>, a: Action, o: Outcome)
    requires KnownQueue(s.waiting, k, l, u) && o.sent == []
    requires forall r :: r in o.next.waiting ==> r in s.waiting
    requires Lived(l, k, a, o).frame == l.frame && Sent(k) !in o.events && FlyingAfter(u, k, a, o) == u
    ensures AdvancedQueue(k, l, u, a, o)
  {
  }

  /** A step that at most takes `k` out of the table, answering an open completion with a failure. */
  lemma DroppedOrKept(s: Session, k: nat, l: Life, u: Option<Frame>, a: Action, o: Outcome)
    requires KnownTable(s, k, l, u) && (k in s.pending ==> Coherent(s.pending[k]))
    requires forall e :: e in o.events ==> e.Resolved? && !e.ok
    requires o.next.nextSequence == s.nextSequence && FlyingAfter(u, k, a, o) == u
    requires k !in o.next.pending || (Entry(o.next, k) == Entry(s, k) && o.next.playback.Some? == s.playback.Some?)
    requires Resolved(k, false) in o.events ==> k in s.pending && s.pending[k].open && k !in o.next.pending
    ensures AdvancedTable(k, l, u, a, o)
    ensures Lived(l, k, a, o).frame == l.frame && Sent(k) !in o.events
  {
  }

  lemma FailedOnly(pending: map<nat, Pending>, drop: set<nat>, k: nat)
    ensures Resolved(k, false) in Failed(pending, drop) <==> k in drop && k in pending && pending[k].open
    ensures forall e :: e in Failed(pending, drop) ==> e.Resolved? && !e.ok
  {
  }

  lemma WaitingWasIssued(s: Session, maxBytes: nat)
    requires Owned(s, maxBytes)
    ensures forall r :: r in s.waiting ==> r.sequence in s.pending && r.sequence < s.nextSequence
  {
    forall r | r in s.waiting ensures r.sequence in s.pending {
      assert r.sequence in Sequences(s.waiting);
    }
  }

  lemma IssueAnotherOutcome(s: Session, k: nat, frame: Frame, now: nat, maxBytes: nat)
    requires k != s.nextSequence && Enqueue(s, frame, now, maxBytes).refusal.None?
    ensures
      var o := Enqueue(s, frame, now, maxBytes);
      && o.events == {Issued(s.nextSequence)} && o.next.nextSequence == s.nextSequence + 1
      && Entry(o.next, k) == Entry(s, k) && o.next.playback == s.playback
  {
  }

  lemma IssueAnotherTable(s: Session, k: nat, l: Life, u: Option<Frame>, frame: Frame, now: nat, maxBytes: nat)
    requires KnownTable(s, k, l, u) && k != s.nextSequence && Enqueue(s, frame, now, maxBytes).refusal.None?
    ensures AdvancedTable(k, l, u, DoEnqueue(frame, now), Enqueue(s, frame, now, maxBytes))
    ensures Lived(l, k, DoEnqueue(frame, now), Enqueue(s, frame, now, maxBytes)) == l
  {
    IssueAnotherOutcome(s, k, frame, now, maxBytes);
  }

  lemma IssueAnotherQueue(s: Session, k: nat, l: Life, u: Option<Frame>, frame: Frame, now: nat, maxBytes: nat)
    requires Known(s, k, l, u) && k != s.nextSequence && Enqueue(s, frame, now, maxBytes).refusal.None?
    requires Lived(l, k, DoEnqueue(frame, now), Enqueue(s, frame, now, maxBytes)) == l
    ensures AdvancedQueue(k, l, u, DoEnqueue(frame, now), Enqueue(s, frame, now, maxBytes))
  {
    var o := Enqueue(s, frame, now, maxBytes);
    forall r | r in o.next.waiting ensures r in s.waiting || r == Request(s.nextSequence, frame) {
    }
  }

  lemma IssueToThis(s: Session, k: nat, l: Life, u: Option<Frame>, frame: Frame, now: nat, maxBytes: nat)
    requires Known(s, k, l, u) && k == s.nextSequence && 1 <= k && k !in s.pending
    requires forall r :: r in s.waiting ==> r.sequence < k
    requires s.playback.Some? ==> s.waiting == []
    requires Enqueue(s, frame, now, maxBytes).refusal.None?
    ensures AdvancedTable(k, l, u, DoEnqueue(frame, now), Enqueue(s, frame, now, maxBytes))
    ensures AdvancedQueue(k, l, u, DoEnqueue(frame, now), Enqueue(s, frame, now, maxBytes))
  {
    assert Lived(l, k, DoEnqueue(frame, now), Enqueue(s, frame, now, maxBytes))
        == Life(Some(frame), false, false, false, false, false, false);
  }

  lemma EnqueueLives(s: Session, k: nat, l: Life, u: Option<Frame>, frame: Frame, now: nat, maxBytes: nat)
    requires Owned(s, maxBytes) && Known(s, k, l, u)
    ensures Advanced(k, l, u, DoEnqueue(frame, now), Enqueue(s, frame, now, maxBytes))
  {
    if Enqueue(s, frame, now, maxBytes).refusal.Some? {
      QuietLives(s, k, l, u, DoEnqueue(frame, now), Enqueue(s, frame, now, maxBytes));
    } else if k != s.nextSequence {
      IssueAnotherTable(s, k, l, u, frame, now, maxBytes);
      IssueAnotherQueue(s, k, l, u, frame, now, maxBytes);
    } else {
      WaitingWasIssued(s, maxBytes);
      assert k !in s.pending;
      IssueToThis(s, k, l, u, frame, now, maxBytes);
    }
  }

  lemma SendLives(s: Session, k: nat, l: Life, flight: map<nat, Frame>, sequence: nat, taken: bool)
    requires Known(s, k, l, Flying(flight, k))
    ensures Advanced(k, l, Flying(flight, k), DoSend(sequence, taken), Send(s, flight, sequence, taken))
  {
    if sequence != k {
      assert Lived(l, k, DoSend(sequence, taken), Send(s, flight, sequence, taken)) == l;
    }
  }

  lemma AttachEvents(s: Session, k: nat, reservation: Option<nat>, connection: nat, maxBytes: nat)
    requires Owned(s, maxBytes) && Attach(s, reservation, connection).refusal.None?
    ensures
      var o := Attach(s, reservation, connection);
      && (Sent(k) in o.events <==> k in s.pending)
      && (forall e :: e in o.events ==> e.Sent?)
      && (k in o.next.pending <==> k in s.pending)
      && (k in s.pending ==> o.next.pending[k] == s.pending[k].(connection := Some(connection)))
      && (forall r :: r in s.waiting ==> r.sequence in s.pending)
  {
    forall r | r in s.waiting ensures r.sequence in s.pending {
      assert r.sequence in Sequences(s.waiting);
    }
  }

  lemma AttachTable(s: Session, k: nat, l: Life, u: Option<Frame>, reservation: Option<nat>, connection: nat,
                    maxBytes: nat)
    requires Owned(s, maxBytes) && KnownTable(s, k, l, u) && Attach(s, reservation, connection).refusal.None?
    ensures AdvancedTable(k, l, u, DoAttach(reservation, connection), Attach(s, reservation, connection))
  {
    AttachEvents(s, k, reservation, connection, maxBytes);
  }

  lemma AttachQueue(s: Session, k: nat, l: Life, u: Option<Frame>, reservation: Option<nat>, connection: nat,
                    maxBytes: nat)
    requires Owned(s, maxBytes) && KnownQueue(s.waiting, k, l, u) && Attach(s, reservation, connection).refusal.None?
    ensures AdvancedQueue(k, l, u, DoAttach(reservation, connection), Attach(s, reservation, connection))
  {
    AttachEvents(s, k, reservation, connection, maxBytes);
  }

  lemma AttachLives(s: Session, k: nat, l: Life, u: Option<Frame>, reservation: Option<nat>, connection: nat,
                    maxBytes: nat)
    requires Owned(s, maxBytes) && Known(s, k, l, u)
    ensures Advanced(k, l, u, DoAttach(reservation, connection), Attach(s, reservation, connection))
  {
    if Attach(s, reservation, connection).refusal.None? {
      AttachTable(s, k, l, u, reservation, connection, maxBytes);
      AttachQueue(s, k, l, u, reservation, connection, maxBytes);
    } else {
      QuietLives(s, k, l, u, DoAttach(reservation, connection), Attach(s, reservation, connection));
    }
  }

  /** A step that at most removes frames from the table and the queue. */
  lemma DropLives(s: Session, k: nat, l: Life, u: Option<Frame>, a: Action, o: Outcome, drop: set<nat>, maxBytes: nat)
    requires Owned(s, maxBytes) && Known(s, k, l, u) && !a.DoEnqueue? && !a.DoSend?
    requires o.sent == [] && o.next.nextSequence == s.nextSequence
    requires o.next.pending == s.pending - drop && o.events <= Failed(s.pending, drop)
    requires o.next.playback == s.playback || o.next.pending == map[]
    requires forall r :: r in o.next.waiting ==> r in s.waiting
    ensures Advanced(k, l, u, a, o)
  {
    FailedOnly(s.pending, drop, k);
    DroppedOrKept(s, k, l, u, a, o);
    QueueKept(s, k, l, u, a, o);
  }

  lemma DisconnectLives(s: Session, k: nat, l: Life, u: Option<Frame>, reservation: Option<nat>, connection: nat,
                        deadline: nat, maxBytes: nat)
    requires Owned(s, maxBytes) && Known(s, k, l, u)
    ensures Advanced(k, l, u, DoDisconnect(reservation, connection, deadline),
                     Disconnect(s, reservation, connection, deadline))
  {
    var a, o := DoDisconnect(reservation, connection, deadline), Disconnect(s, reservation, connection, deadline);
    if o.next == s {
      QuietLives(s, k, l, u, a, o);
    } else {
      var drop := set j | j in s.pending && s.pending[j].connection == Some(connection);
      assert o.next.pending == map[];
      DropLives(s, k, l, u, a, o, drop, maxBytes);
    }
  }

  lemma PlannedDetachLives(s: Session, k: nat, l: Life, u: Option<Frame>, epoch: nat, connection: nat, maxBytes: nat)
    requires Owned(s, maxBytes) && Known(s, k, l, u)
    ensures Advanced(k, l, u, DoPlannedDetach(epoch, connection), PlannedDetach(s, epoch, connection))
  {
    var a, o := DoPlannedDetach(epoch, connection), PlannedDetach(s, epoch, connection);
    if o.next == s {
      QuietLives(s, k, l, u, a, o);
    } else {
      assert s.pending - s.pending.Keys == map[];
      DropLives(s, k, l, u, a, o, s.pending.Keys, maxBytes);
    }
  }

  lemma ExpireWaitingLives(s: Session, k: nat, l: Life, u: Option<Frame>, deadline: nat, maxBytes: nat)
    requires Owned(s, maxBytes) && Known(s, k, l, u)
    ensures Advanced(k, l, u, DoExpireWaiting(deadline), ExpireWaiting(s, deadline))
  {
    var a, o := DoExpireWaiting(deadline), ExpireWaiting(s, deadline);
    if s.reconnect != Some(deadline) {
      QuietLives(s, k, l, u, a, o);
    } else {
      DropLives(s, k, l, u, a, o, Sequences(s.waiting), maxBytes);
    }
  }

  lemma ExpireAcceptedLives(s: Session, k: nat, l: Life, u: Option<Frame>, epoch: nat, now: nat, maxBytes: nat)
    requires Owned(s, maxBytes) && Known(s, k, l, u)
    ensures Advanced(k, l, u, DoExpireAccepted(epoch, now), ExpireAccepted(s, epoch, now))
  {
    var a, o := DoExpireAccepted(epoch, now), ExpireAccepted(s, epoch, now);
    if epoch != s.epoch || Overdue(s, now) == {} {
      QuietLives(s, k, l, u, a, o);
    } else {
      DropLives(s, k, l, u, a, o, (set j | j in s.pending && s.pending[j].generation in Overdue(s, now)), maxBytes);
    }
  }

  lemma CancelPlaybackLives(s: Session, k: nat, l: Life, u: Option<Frame>, sequence: nat, maxBytes: nat)
    requires Owned(s, maxBytes) && Known(s, k, l, u)
    ensures Advanced(k, l, u, DoCancelPlayback(sequence), CancelPlayback(s, sequence))
  {
    forall r | r in Without(s.waiting, sequence) ensures r in s.waiting {
      WithoutMembers(s.waiting, sequence, r);
    }
    DropLives(s, k, l, u, DoCancelPlayback(sequence), CancelPlayback(s, sequence), {sequence}, maxBytes);
  }

  lemma AcknowledgeTable(s: Session, k: nat, l: Life, u: Option<Frame>, connection: nat, rendered: bool, deadline: nat)
    requires KnownTable(s, k, l, u) && (k in s.pending ==> Coherent(s.pending[k]))
    ensures AdvancedTable(k, l, u, DoAcknowledge(connection, k, rendered, deadline),
                          Acknowledge(s, connection, k, rendered, deadline))
  {
  }

  lemma AcknowledgeAnother(s: Session, k: nat, l: Life, u: Option<Frame>, connection: nat, sequence: nat,
                           rendered: bool, deadline: nat)
    requires KnownTable(s, k, l, u) && k != sequence
    ensures
      var a := DoAcknowledge(connection, sequence, rendered, deadline);
      var o := Acknowledge(s, connection, sequence, rendered, deadline);
      AdvancedTable(k, l, u, a, o)
  {
    var a := DoAcknowledge(connection, sequence, rendered, deadline);
    var o := Acknowledge(s, connection, sequence, rendered, deadline);
    assert Lived(l, k, a, o) == l && Entry(o.next, k) == Entry(s, k);
  }

  lemma AcknowledgeLives(s: Session, k: nat, l: Life, u: Option<Frame>, connection: nat, sequence: nat, rendered: bool,
                         deadline: nat, maxBytes: nat)
    requires Owned(s, maxBytes) && Known(s, k, l, u)
    ensures
      var a := DoAcknowledge(connection, sequence, rendered, deadline);
      var o := Acknowledge(s, connection, sequence, rendered, deadline);
      Advanced(k, l, u, a, o)
  {
    var a := DoAcknowledge(connection, sequence, rendered, deadline);
    var o := Acknowledge(s, connection, sequence, rendered, deadline);
    if k == sequence {
      AcknowledgeTable(s, k, l, u, connection, rendered, deadline);
    } else {
      AcknowledgeAnother(s, k, l, u, connection, sequence, rendered, deadline);
    }
    QueueKept(s, k, l, u, a, o);
  }

  /** A step that moves no frame leaves every life as it was. */
  lemma QuietLives(s: Session, k: nat, l: Life, u: Option<Frame>, a: Action, o: Outcome)
    requires Known(s, k, l, u)
    requires o.events <= {Barrier} && o.sent == [] && FlyingAfter(u, k, a, o) == u
    requires o.next.waiting == s.waiting && o.next.playback == s.playback && o.next.nextSequence == s.nextSequence
    requires Entry(o.next, k) == Entry(s, k)
    ensures Advanced(k, l, u, a, o)
  {
    assert Lived(l, k, a, o) == l;
  }

  lemma MarkWrittenLives(s: Session, k: nat, l: Life, u: Option<Frame>, connection: nat, sequence: nat)
    requires Known(s, k, l, u)
    ensures Advanced(k, l, u, DoMarkWritten(connection, sequence), MarkWritten(s, connection, sequence))
  {
    assert Lived(l, k, DoMarkWritten(connection, sequence), MarkWritten(s, connection, sequence)) == l;
  }

  lemma FlushLives(s: Session, k: nat, l: Life, u: Option<Frame>, a: Action, maxBytes: nat)
    requires Known(s, k, l, u) && (a.DoRequestFlush? || a.DoAcknowledgeFlush? || a.DoCancelFlush?)
    ensures Advanced(k, l, u, a, Apply(s, map[], a, maxBytes))
  {
    QuietLives(s, k, l, u, a, Apply(s, map[], a, maxBytes));
  }

  lemma VoiceLives(s: Session, k: nat, l: Life, u: Option<Frame>, a: Action, maxBytes: nat)
    requires Known(s, k, l, u) && (a.DoAttachVoice? || a.DoDeliverFinish?)
    ensures Advanced(k, l, u, a, Apply(s, map[], a, maxBytes))
  {
    QuietLives(s, k, l, u, a, Apply(s, map[], a, maxBytes));
  }

  lemma FrameStepLives(s: Session, k: nat, l: Life, flight: map<nat, Frame>, a: Action, maxBytes: nat)
    requires Owned(s, maxBytes) && Known(s, k, l, Flying(flight, k)) && FrameStep(a)
    ensures Advanced(k, l, Flying(flight, k), a, Apply(s, flight, a, maxBytes))
  {
    var u := Flying(flight, k);
    match a
    case DoSend(sequence, taken) => SendLives(s, k, l, flight, sequence, taken);
    case DoEnqueue(frame, now) => EnqueueLives(s, k, l, u, frame, now, maxBytes);
    case DoAcknowledge(connection, sequence, rendered, deadline) =>
      AcknowledgeLives(s, k, l, u, connection, sequence, rendered, deadline, maxBytes);
    case DoCancelPlayback(sequence) => CancelPlaybackLives(s, k, l, u, sequence, maxBytes);
    case DoMarkWritten(connection, sequence) => MarkWrittenLives(s, k, l, u, connection, sequence);
  }

  lemma LinkStepLives(s: Session, k: nat, l: Life, flight: map<nat, Frame>, a: Action, maxBytes: nat)
    requires Owned(s, maxBytes) && Known(s, k, l, Flying(flight, k)) && LinkStep(a)
    ensures Advanced(k, l, Flying(flight, k), a, Apply(s, flight, a, maxBytes))
  {
    var u := Flying(flight, k);
    match a
    case DoAttach(reservation, connection) => AttachLives(s, k, l, u, reservation, connection, maxBytes);
    case DoDisconnect(reservation, connection, deadline) =>
      DisconnectLives(s, k, l, u, reservation, connection, deadline, maxBytes);
    case DoPlannedDetach(epoch, connection) => PlannedDetachLives(s, k, l, u, epoch, connection, maxBytes);
    case DoExpireWaiting(deadline) => ExpireWaitingLives(s, k, l, u, deadline, maxBytes);
    case DoExpireAccepted(epoch, now) => ExpireAcceptedLives(s, k, l, u, epoch, now, maxBytes);
  }

  /** Any step advances the life of `k` by fresh events only. */
  lemma StepLives(s: Session, k: nat, l: Life, flight: map<nat, Frame>, a: Action, maxBytes: nat)
    requires Owned(s, maxBytes) && Known(s, k, l, Flying(flight, k))
    ensures Advanced(k, l, Flying(flight, k), a, Apply(s, flight, a, maxBytes))
  {
    if FrameStep(a) {
      FrameStepLives(s, k, l, flight, a, maxBytes);
    } else if LinkStep(a) {
      LinkStepLives(s, k, l, flight, a, maxBytes);
    } else if a.DoAttachVoice? || a.DoDeliverFinish? {
      VoiceLives(s, k, l, Flying(flight, k), a, maxBytes);
    } else {
      FlushLives(s, k, l, Flying(flight, k), a, maxBytes);
    }
  }

  // ---------------------------------------------------------------- theorems over whole runs

  lemma TraceOwned(t: Trace, i: nat, epoch: nat, maxBytes: nat)
    requires IsRun(t, epoch, maxBytes) && i < |t.actions| && Owned(t.sessions[i], maxBytes)
    ensures Owned(t.sessions[i + 1], maxBytes)
  {
    StepOwned(t.sessions[i], t.flights[i], t.actions[i], maxBytes);
    assert StepAt(t, i, maxBytes);
  }

  lemma TraceLives(t: Trace, i: nat, k: nat, l: Life, epoch: nat, maxBytes: nat)
    requires IsRun(t, epoch, maxBytes) && i < |t.actions|
    requires Owned(t.sessions[i], maxBytes) && Known(t.sessions[i], k, l, Flying(t.flights[i], k))
    ensures Advanced(k, l, Flying(t.flights[i], k), t.actions[i], t.outcomes[i])
    ensures t.sessions[i + 1] == t.outcomes[i].next
    ensures Flying(t.flights[i + 1], k) == FlyingAfter(Flying(t.flights[i], k), k, t.actions[i], t.outcomes[i])
  {
    StepLives(t.sessions[i], k, l, t.flights[i], t.actions[i], maxBytes);
    assert StepAt(t, i, maxBytes);
    FlightOfOne(t.flights[i], t.actions[i], t.outcomes[i], k);
  }

  lemma FlightOfOne(flight: map<nat, Frame>, a: Action, o: Outcome, k: nat)
    ensures Flying(FlightAfter(flight, a, o), k) == FlyingAfter(Flying(flight, k), k, a, o)
  {
  }

  /** Ownership holds in every reachable session. */
  lemma {:induction false} ReachableIsOwned(t: Trace, n: nat, epoch: nat, maxBytes: nat)
    requires IsRun(t, epoch, maxBytes) && n < |t.sessions|
    ensures Owned(t.sessions[n], maxBytes)
  {
    if n == 0 {
      assert Sequences([]) == {};
    } else {
      ReachableIsOwned(t, n - 1, epoch, maxBytes);
      TraceOwned(t, n - 1, epoch, maxBytes);
    }
  }

  lemma {:induction false} ReachableIsKnown(t: Trace, n: nat, k: nat, epoch: nat, maxBytes: nat)
    requires IsRun(t, epoch, maxBytes) && n < |t.sessions|
    ensures Owned(t.sessions[n], maxBytes) && Known(t.sessions[n], k, LifeAt(t, n, k), Flying(t.flights[n], k))
    ensures n < |t.actions| ==> Advanced(k, LifeAt(t, n, k), Flying(t.flights[n], k), t.actions[n], t.outcomes[n])
  {
    ReachableIsOwned(t, n, epoch, maxBytes);
    if n > 0 {
      ReachableIsKnown(t, n - 1, k, epoch, maxBytes);
      TraceLives(t, n - 1, k, LifeAt(t, n - 1, k), epoch, maxBytes);
    }
    if n < |t.actions| {
      TraceLives(t, n, k, LifeAt(t, n, k), epoch, maxBytes);
    }
  }

  /** A pending frame is without a connection exactly while it waits; otherwise its transport is attached. */
  lemma PendingOwnership(t: Trace, n: nat, k: nat, epoch: nat, maxBytes: nat)
    requires IsRun(t, epoch, maxBytes) && n < |t.sessions| && k in t.sessions[n].pending
    ensures var s := t.sessions[n];
            && (s.pending[k].connection.None? <==> exists r :: r in s.waiting && r.sequence == k)
            && (s.pending[k].connection.Some? ==> s.playback == s.pending[k].connection)
  {
    ReachableIsOwned(t, n, epoch, maxBytes);
    if t.sessions[n].playback.None? {
      assert k in Sequences(t.sessions[n].waiting);
    }
  }

  /**
   A re-attach is refused only for the three stated reasons. Otherwise it hands every pending frame
   over, oldest first, in one batch that fits the fresh transport queue.
   */
  lemma ReattachDrainsInOrder(t: Trace, n: nat, reservation: Option<nat>, connection: nat, epoch: nat, maxBytes: nat)
    requires IsRun(t, epoch, maxBytes) && n < |t.sessions|
    ensures var s := t.sessions[n];
            var o := Attach(s, reservation, connection);
            && (o.refusal.Some? <==>
                (reservation.Some? && reservation.value != s.epoch) || s.finished || s.playback.Some?)
            && (o.refusal.None? ==>
                  && |o.sent| <= QUEUE_CAPACITY
                  && Ascending(o.sent)
                  && Sequences(o.sent) == s.pending.Keys == o.next.pending.Keys
                  && o.next.waitingBytes == 0
                  && forall k :: k in o.next.pending ==>
                     o.next.pending[k] == s.pending[k].(connection := Some(connection)))
  {
    ReachableIsOwned(t, n, epoch, maxBytes);
    WaitingLength(t.sessions[n].waiting);
  }

  /** The "owned elsewhere" refusal of a planned finish cannot happen. */
  lemma FinishIsNeverOwnedElsewhere(t: Trace, n: nat, reservation: nat, connection: nat, epoch: nat, maxBytes: nat)
    requires IsRun(t, epoch, maxBytes) && n < |t.sessions|
    ensures PlannedDetach(t.sessions[n], reservation, connection).refusal != Some(OwnedElsewhere)
  {
    ReachableIsOwned(t, n, epoch, maxBytes);
  }

  predicate Flag(l: Life, e: Event)
    requires !e.Barrier?
  {
    match e
    case Issued(_) => l.frame.Some?
    case Sent(_) => l.sent
    case Undelivered(_) => l.lost
    case Accepted(_) => l.accepted
    case Rendered(_) => l.rendered
    case Resolved(_, ok) => if ok then l.answered else l.failed
  }

  ghost predicate Happened(t: Trace, n: nat, e: Event)
    requires n <= |t.outcomes|
  {
    exists i :: 0 <= i < n && e in t.outcomes[i].events
  }

  lemma FlagStep(l: Life, e: Event, a: Action, o: Outcome)
    requires !e.Barrier? && (e.Issued? && e in o.events ==> a.DoEnqueue?)
    ensures Flag(Lived(l, e.sequence, a, o), e) <==> Flag(l, e) || e in o.events
  {
  }

  lemma HappenedNext(t: Trace, n: nat, e: Event)
    requires n < |t.outcomes|
    ensures Happened(t, n + 1, e) <==> Happened(t, n, e) || e in t.outcomes[n].events
  {
  }

  lemma IssuedByEnqueue(t: Trace, n: nat, k: nat, epoch: nat, maxBytes: nat)
    requires IsRun(t, epoch, maxBytes) && n < |t.actions| && Issued(k) in t.outcomes[n].events
    ensures t.actions[n].DoEnqueue?
  {
    ReachableIsKnown(t, n, k, epoch, maxBytes);
  }

  /** A life records an event exactly when some earlier step of the run produced it. */
  lemma {:induction false} LifeIsHistory(t: Trace, n: nat, e: Event, epoch: nat, maxBytes: nat)
    requires IsRun(t, epoch, maxBytes) && n <= |t.actions| && !e.Barrier?
    ensures Flag(LifeAt(t, n, e.sequence), e) <==> Happened(t, n, e)
  {
    if n > 0 {
      LifeIsHistory(t, n - 1, e, epoch, maxBytes);
      HappenedNext(t, n - 1, e);
      if e.Issued? && e in t.outcomes[n - 1].events {
        IssuedByEnqueue(t, n - 1, e.sequence, epoch, maxBytes);
      }
      FlagStep(LifeAt(t, n - 1, e.sequence), e, t.actions[n - 1], t.outcomes[n - 1]);
    }
  }

  /**
   In any run a sequence number is issued once, handed over or refused by a transport queue at most once
   and never both, accepted at most once, rendered at most once, and its completion is answered at most once.
   */
  lemma EventsHappenOnce(t: Trace, i: nat, j: nat, e: Event, epoch: nat, maxBytes: nat)
    requires IsRun(t, epoch, maxBytes) && i < j < |t.actions| && !e.Barrier?
    requires e in t.outcomes[i].events
    ensures e !in t.outcomes[j].events
    ensures e.Resolved? ==> Resolved(e.sequence, !e.ok) !in t.outcomes[j].events
    ensures e.Sent? ==> Undelivered(e.sequence) !in t.outcomes[j].events
    ensures e.Undelivered? ==> Sent(e.sequence) !in t.outcomes[j].events
  {
    LifeIsHistory(t, j, e, epoch, maxBytes);
    ReachableIsKnown(t, j, e.sequence, epoch, maxBytes);
  }

  /** Handing over comes after issue, acceptance after issue, rendering after acceptance. */
  lemma EventsHappenInOrder(t: Trace, j: nat, k: nat, epoch: nat, maxBytes: nat)
    requires IsRun(t, epoch, maxBytes) && j < |t.actions|
    ensures Sent(k) in t.outcomes[j].events || Accepted(k) in t.outcomes[j].events ==> Happened(t, j, Issued(k))
    ensures Rendered(k) in t.outcomes[j].events ==> Happened(t, j, Accepted(k))
  {
    ReachableIsKnown(t, j, k, epoch, maxBytes);
    LifeIsHistory(t, j, Issued(k), epoch, maxBytes);
    LifeIsHistory(t, j, Accepted(k), epoch, maxBytes);
  }

  /**
   A frame is accepted after it was handed over if and only if, when the acknowledgement comes, it is
   neither still in flight nor refused by its transport queue.
   */
  lemma AcceptedAfterHandOver(t: Trace, j: nat, k: nat, epoch: nat, maxBytes: nat)
    requires IsRun(t, epoch, maxBytes) && j < |t.actions| && Accepted(k) in t.outcomes[j].events
    ensures Happened(t, j, Sent(k)) <==> k !in t.flights[j] && !Happened(t, j, Undelivered(k))
  {
    ReachableIsKnown(t, j, k, epoch, maxBytes);
    LifeIsHistory(t, j, Sent(k), epoch, maxBytes);
    LifeIsHistory(t, j, Undelivered(k), epoch, maxBytes);
  }

  lemma FrameStepSettles(s: Session, flight: map<nat, Frame>, a: Action, k: nat, maxBytes: nat)
    requires k < s.nextSequence && k !in s.pending && FrameStep(a)
    ensures k !in Apply(s, flight, a, maxBytes).next.pending
  {
  }

  lemma LinkStepSettles(s: Session, flight: map<nat, Frame>, a: Action, k: nat, maxBytes: nat)
    requires k !in s.pending && LinkStep(a)
    ensures k !in Apply(s, flight, a, maxBytes).next.pending
  {
  }

  lemma StepSettles(s: Session, flight: map<nat, Frame>, a: Action, k: nat, maxBytes: nat)
    requires k < s.nextSequence && k !in s.pending
    ensures k < Apply(s, flight, a, maxBytes).next.nextSequence && k !in Apply(s, flight, a, maxBytes).next.pending
  {
    StepNumbers(s, flight, a, maxBytes);
    if FrameStep(a) {
      FrameStepSettles(s, flight, a, k, maxBytes);
    } else if LinkStep(a) {
      LinkStepSettles(s, flight, a, k, maxBytes);
    }
  }

  /** A frame once settled never becomes pending again, so a late cancellation cannot hit another frame. */
  lemma {:induction false} SettledForGood(t: Trace, n: nat, m: nat, k: nat, epoch: nat, maxBytes: nat)
    requires IsRun(t, epoch, maxBytes) && n <= m < |t.sessions|
    requires k < t.sessions[n].nextSequence && k !in t.sessions[n].pending
    ensures k < t.sessions[m].nextSequence && k !in t.sessions[m].pending
  {
    if n < m {
      SettledForGood(t, n, m - 1, k, epoch, maxBytes);
      StepSettles(t.sessions[m - 1], t.flights[m - 1], t.actions[m - 1], k, maxBytes);
      assert StepAt(t, m - 1, maxBytes);
    }
  }

  lemma {:induction false} FrameOfLife(t: Trace, n: nat, k: nat)
    requires n <= |t.actions| == |t.outcomes| && LifeAt(t, n, k).frame.Some?
    ensures exists i :: 0 <= i < n && t.actions[i].DoEnqueue? && Issued(k) in t.outcomes[i].events
              && t.actions[i].frame == LifeAt(t, n, k).frame.value
  {
    if !(Issued(k) in t.outcomes[n - 1].events && t.actions[n - 1].DoEnqueue?) {
      FrameOfLife(t, n - 1, k);
    }
  }

  /** The frame handed to a transport under a number is the frame that was enqueued under it. */
  lemma SentIsWhatWasEnqueued(t: Trace, n: nat, r: Request, epoch: nat, maxBytes: nat)
    requires IsRun(t, epoch, maxBytes) && n < |t.actions| && r in t.outcomes[n].sent
    ensures exists i :: 0 <= i <= n && t.actions[i].DoEnqueue? && t.actions[i].frame == r.frame
              && Issued(r.sequence) in t.outcomes[i].events
  {
    ReachableIsKnown(t, n, r.sequence, epoch, maxBytes);
    FrameOfLife(t, n + 1, r.sequence);
  }

  lemma StepKeepsBarrier(s: Session, flight: map<nat, Frame>, a: Action, maxBytes: nat)
    requires s.finished
    ensures var o := Apply(s, flight, a, maxBytes);
            o.next.finished && (s.finishDelivered ==> o.next.finishDelivered && Barrier !in o.events)
  {
  }

  lemma BarrierNeedsFinish(s: Session, flight: map<nat, Frame>, a: Action, maxBytes: nat)
    requires Barrier in Apply(s, flight, a, maxBytes).events
    ensures
      var next := Apply(s, flight, a, maxBytes).next;
      s.finished && next.finished && next.finishDelivered
  {
  }

  /** The recorder barrier is delivered at most once per reservation, whatever is retried. */
  lemma {:induction false} BarrierOnce(t: Trace, i: nat, j: nat, epoch: nat, maxBytes: nat)
    requires IsRun(t, epoch, maxBytes) && i < j <= |t.actions| && Barrier in t.outcomes[i].events
    ensures t.sessions[j].finished && t.sessions[j].finishDelivered
    ensures j < |t.actions| ==> Barrier !in t.outcomes[j].events
  {
    assert StepAt(t, j - 1, maxBytes);
    if i + 1 < j {
      BarrierOnce(t, i, j - 1, epoch, maxBytes);
      StepKeepsBarrier(t.sessions[j - 1], t.flights[j - 1], t.actions[j - 1], maxBytes);
    } else {
      BarrierNeedsFinish(t.sessions[i], t.flights[i], t.actions[i], maxBytes);
    }
    if j < |t.actions| {
      assert StepAt(t, j, maxBytes);
      StepKeepsBarrier(t.sessions[j], t.flights[j], t.actions[j], maxBytes);
    }
  }

  // ---------------------------------------------------------------- the order of hand-overs

  /** Only a fresh issue puts a frame in flight: a number issued by `i` and in flight later was in flight at `i`. */
  lemma {:induction false} FlightIsOld(t: Trace, i: nat, j: nat, k: nat, epoch: nat, maxBytes: nat)
    requires IsRun(t, epoch, maxBytes) && i <= j < |t.sessions| && k < t.sessions[i].nextSequence && k in t.flights[j]
    ensures k in t.flights[i]
    decreases j
  {
    if i < j {
      NumbersGrow(t, i, j - 1, epoch, maxBytes);
      FlightBefore(t, j - 1, k, epoch, maxBytes);
      FlightIsOld(t, i, j - 1, k, epoch, maxBytes);
    }
  }

  lemma FlightBefore(t: Trace, i: nat, k: nat, epoch: nat, maxBytes: nat)
    requires IsRun(t, epoch, maxBytes) && i < |t.actions| && k < t.sessions[i].nextSequence && k in t.flights[i + 1]
    ensures k in t.flights[i]
  {
    assert StepAt(t, i, maxBytes);
    StepKeepsFlight(t.sessions[i], t.flights[i], t.actions[i], k, maxBytes);
  }

  lemma StepKeepsFlight(s: Session, flight: map<nat, Frame>, a: Action, k: nat, maxBytes: nat)
    requires k < s.nextSequence && k in FlightAfter(flight, a, Apply(s, flight, a, maxBytes))
    ensures k in flight
  {
    if Departs(a, Apply(s, flight, a, maxBytes), k) {
      DepartsFresh(s, flight, a, k, maxBytes);
    }
  }

  lemma DepartsFresh(s: Session, flight: map<nat, Frame>, a: Action, k: nat, maxBytes: nat)
    requires Departs(a, Apply(s, flight, a, maxBytes), k)
    ensures k == s.nextSequence
  {
  }

  lemma {:induction false} NumbersGrow(t: Trace, i: nat, j: nat, epoch: nat, maxBytes: nat)
    requires IsRun(t, epoch, maxBytes) && i <= j < |t.sessions|
    ensures t.sessions[i].nextSequence <= t.sessions[j].nextSequence
  {
    if i < j {
      NumbersGrow(t, i, j - 1, epoch, maxBytes);
      assert StepAt(t, j - 1, maxBytes);
      StepNumbers(t.sessions[j - 1], t.flights[j - 1], t.actions[j - 1], maxBytes);
    }
  }

  lemma StepNumbers(s: Session, flight: map<nat, Frame>, a: Action, maxBytes: nat)
    ensures s.nextSequence <= Apply(s, flight, a, maxBytes).next.nextSequence
    ensures a.DoEnqueue? || Apply(s, flight, a, maxBytes).next.nextSequence == s.nextSequence
  {
  }

  /** A step hands a frame over by draining the queue on attach, or one frame in flight. */
  lemma SentBy(s: Session, flight: map<nat, Frame>, a: Action, k: nat, maxBytes: nat)
    requires Sent(k) in Apply(s, flight, a, maxBytes).events
    ensures
      || (a.DoAttach? && exists r :: r in Apply(s, flight, a, maxBytes).sent && r.sequence == k)
      || (a == DoSend(k, true) && k in flight)
  {
  }

  /** After a number was handed over, only a frame in flight can still be handed over under a smaller one. */
  lemma SmallerComesFromFlight(t: Trace, i: nat, j: nat, k: nat, m: nat, epoch: nat, maxBytes: nat)
    requires IsRun(t, epoch, maxBytes) && i < j < |t.actions| && k < m
    requires Sent(m) in t.outcomes[i].events && Sent(k) in t.outcomes[j].events
    ensures k in t.flights[j]
  {
    ReachableIsKnown(t, j, m, epoch, maxBytes);
    LifeIsHistory(t, j, Sent(m), epoch, maxBytes);
    assert StepAt(t, j, maxBytes);
    SentBy(t.sessions[j], t.flights[j], t.actions[j], k, maxBytes);
  }

  /**
   Hand-overs keep the issue order except for frames in flight. Of two numbers handed over in different
   steps the larger one goes first if and only if the smaller one is in flight when the larger one goes.
   */
  lemma OvertakenExactlyInFlight(t: Trace, i: nat, j: nat, k: nat, m: nat, epoch: nat, maxBytes: nat)
    requires IsRun(t, epoch, maxBytes) && i < |t.actions| && j < |t.actions| && i != j && k < m
    requires Sent(m) in t.outcomes[i].events && Sent(k) in t.outcomes[j].events
    ensures i < j <==> k in t.flights[i]
  {
    ReachableIsKnown(t, i, m, epoch, maxBytes);
    ReachableIsKnown(t, i, k, epoch, maxBytes);
    LifeIsHistory(t, i, Sent(k), epoch, maxBytes);
    if i < j {
      SmallerComesFromFlight(t, i, j, k, m, epoch, maxBytes);
      FlightIsOld(t, i, j, k, epoch, maxBytes);
    }
  }

  lemma IssuedNext(t: Trace, e: nat, m: nat, epoch: nat, maxBytes: nat)
    requires IsRun(t, epoch, maxBytes) && e < |t.actions| && Issued(m) in t.outcomes[e].events
    ensures m == t.sessions[e].nextSequence
  {
    assert StepAt(t, e, maxBytes);
    ReachableIsKnown(t, e, m, epoch, maxBytes);
    assert t.outcomes[e] == Enqueue(t.sessions[e], t.actions[e].frame, t.actions[e].now, maxBytes);
  }

  /**
   A caller that issues a frame only while none is in flight never sees it overtake an earlier one: every
   smaller number is handed over before it, or never.
   */
  lemma SerialCallersKeepOrder(t: Trace, e: nat, i: nat, j: nat, k: nat, m: nat, epoch: nat, maxBytes: nat)
    requires IsRun(t, epoch, maxBytes) && e <= i < |t.actions| && j < |t.actions| && i != j && k < m
    requires Issued(m) in t.outcomes[e].events && t.flights[e] == map[]
    requires Sent(m) in t.outcomes[i].events && Sent(k) in t.outcomes[j].events
    ensures j < i
  {
    OvertakenExactlyInFlight(t, i, j, k, m, epoch, maxBytes);
    if k in t.flights[i] {
      IssuedNext(t, e, m, epoch, maxBytes);
      FlightIsOld(t, e, i, k, epoch, maxBytes);
    }
  }

  // ---------------------------------------------------------------- two runs that need the exceptions

  /** The run with one more action. */
  function Extended(t: Trace, a: Action, maxBytes: nat): Trace
    requires |t.actions| == |t.outcomes| && |t.sessions| == |t.flights| == |t.actions| + 1
  {
    var n := |t.actions|;
    var o := Apply(t.sessions[n], t.flights[n], a, maxBytes);
    Trace(t.actions + [a], t.outcomes + [o], t.sessions + [o.next], t.flights + [FlightAfter(t.flights[n], a, o)])
  }

  lemma ExtendedIsRun(t: Trace, a: Action, epoch: nat, maxBytes: nat)
    requires IsRun(t, epoch, maxBytes)
    ensures IsRun(Extended(t, a, maxBytes), epoch, maxBytes)
  {
    var next := Extended(t, a, maxBytes);
    forall i | 0 <= i < |next.actions| ensures StepAt(next, i, maxBytes) {
      if i < |t.actions| { assert StepAt(t, i, maxBytes); }
    }
  }

  /** A run that has come to this session. */
  ghost predicate Tracks(t: Trace, s: Session, epoch: nat, maxBytes: nat) {
    IsRun(t, epoch, maxBytes) && t.sessions[|t.actions|] == s
  }

  lemma ExtendedTracks(t: Trace, s: Session, a: Action, epoch: nat, maxBytes: nat)
    requires Tracks(t, s, epoch, maxBytes)
    ensures Tracks(Extended(t, a, maxBytes), Apply(s, t.flights[|t.actions|], a, maxBytes).next, epoch, maxBytes)
  {
    ExtendedIsRun(t, a, epoch, maxBytes);
  }

  /** A fresh session with a transport attached. */
  lemma Attached(epoch: nat, maxBytes: nat) returns (t: Trace)
    ensures IsRun(t, epoch, maxBytes) && |t.actions| == 1
    ensures t.sessions[1] == New(epoch).(playback := Some(7)) && t.flights[1] == map[]
  {
    var start := Trace([], [], [New(epoch)], [map[]]);
    var a := DoAttach(None, 7);
    ExtendedIsRun(start, a, epoch, maxBytes);
    t := Extended(start, a, maxBytes);
    assert Sequences([]) == {};
    assert t.sessions[1].pending == map[];
  }

  /** A transport, and two frames issued for it by overlapping callers. */
  lemma TwoInFlight(epoch: nat, maxBytes: nat, x: Frame, y: Frame) returns (t: Trace)
    ensures IsRun(t, epoch, maxBytes) && |t.actions| == 3 && t.flights[3] == map[1 := x, 2 := y]
    ensures Issued(1) in t.outcomes[1].events && Issued(2) in t.outcomes[2].events
  {
    t := Attached(epoch, maxBytes);
    var one, two := DoEnqueue(x, 0), DoEnqueue(y, 0);
    ExtendedIsRun(t, one, epoch, maxBytes);
    t := Extended(t, one, maxBytes);
    assert t.flights[2] == map[1 := x] && t.sessions[2].nextSequence == 2 && |t.sessions[2].pending| == 1;
    ExtendedIsRun(t, two, epoch, maxBytes);
    t := Extended(t, two, maxBytes);
  }

  /** Two overlapping callers: the frames issued as 1 and 2 reach the transport as 2 and 1. */
  lemma LaterFrameOvertakes(epoch: nat, maxBytes: nat, x: Frame, y: Frame) returns (t: Trace)
    ensures IsRun(t, epoch, maxBytes) && |t.actions| == 5
    ensures Issued(1) in t.outcomes[1].events && Issued(2) in t.outcomes[2].events
    ensures t.outcomes[3].sent == [Request(2, y)] && t.outcomes[4].sent == [Request(1, x)]
  {
    t := TwoInFlight(epoch, maxBytes, x, y);
    ExtendedIsRun(t, DoSend(2, true), epoch, maxBytes);
    t := Extended(t, DoSend(2, true), maxBytes);
    ExtendedIsRun(t, DoSend(1, true), epoch, maxBytes);
    t := Extended(t, DoSend(1, true), maxBytes);
  }

  /** An acknowledgement can be accepted before the frame is handed over. */
  lemma AcceptedBeforeHandOver(epoch: nat, maxBytes: nat, x: Frame) returns (t: Trace)
    ensures IsRun(t, epoch, maxBytes) && |t.actions| == 4
    ensures Accepted(1) in t.outcomes[2].events && Sent(1) in t.outcomes[3].events
  {
    t := Attached(epoch, maxBytes);
    var one, ack := DoEnqueue(x, 0), DoAcknowledge(7, 1, false, 0);
    ExtendedIsRun(t, one, epoch, maxBytes);
    t := Extended(t, one, maxBytes);
    ExtendedIsRun(t, ack, epoch, maxBytes);
    t := Extended(t, ack, maxBytes);
    ExtendedIsRun(t, DoSend(1, true), epoch, maxBytes);
    t := Extended(t, DoSend(1, true), maxBytes);
  }
}
