/**
 The mutable record of one reservation, as the hub keeps it behind its lock. Each method performs one
 lock-held section in place and is proved to compute the step of module `Playback`.
 */
module NetworkSessions {
  import opened Wrappers
  import opened Playback
  import opened PlaybackRuns
  import PlaybackHistories

  class NetworkSession {
    const epoch: nat
    const maxBytes: nat
    var voice: bool
    var playback: Option<nat>
    var nextSequence: nat
    var pending: map<nat, Pending>
    var flushes: map<nat, nat>
    var reconnect: Option<nat>
    var finished: bool
    var finishConnection: Option<nat>
    var finishDelivered: bool
    var waiting: seq<Request>
    var waitingBytes: nat
    /** Everything that has happened to this session. */
    ghost var trace: Trace

    ghost function Value(): Session
      reads this
    {
      Session(epoch, voice, playback, nextSequence, pending, flushes, reconnect, finished,
              finishConnection, finishDelivered, waiting, waitingBytes)
    }

    /** The session is where its history has led it: what holds over every run holds of this object. */
    ghost predicate Valid()
      reads this
    {
      Tracks(trace, Value(), epoch, maxBytes)
    }

    /** The frames in flight: issued for a transport and not handed over yet. */
    ghost function Flight(): map<nat, Frame>
      requires Valid()
      reads this
    {
      trace.flights[|trace.actions|]
    }

    /** Notes the step that is about to be performed. */
    ghost method Note(a: Action)
      requires Valid()
      modifies this`trace
      ensures trace == Extended(old(trace), a, maxBytes)
      ensures Tracks(trace, Apply(Value(), old(Flight()), a, maxBytes).next, epoch, maxBytes)
    {
      ExtendedTracks(trace, Value(), a, epoch, maxBytes);
      trace := Extended(trace, a, maxBytes);
    }

    constructor (epoch: nat, maxBytes: nat)
      ensures Valid() && Value() == New(epoch) && this.maxBytes == maxBytes
    {
      this.epoch, this.maxBytes := epoch, maxBytes;
      voice, playback, nextSequence := false, None, 1;
      pending, flushes, reconnect := map[], map[], None;
      finished, finishConnection, finishDelivered := false, None, false;
      waiting, waitingBytes := [], 0;
      trace := Trace([], [], [New(epoch)], [map[]]);
    }

    /** The lock-held part of an enqueue: the number issued, and the transport to hand the frame to, if any. */
    method EnqueuePlayback(frame: Frame, now: nat) returns (r: Result<(nat, Option<nat>), Refusal>)
      requires Valid()
      modifies this
      ensures Valid() && trace == Extended(old(trace), DoEnqueue(frame, now), maxBytes)
      ensures Value() == Enqueue(old(Value()), frame, now, maxBytes).next
      ensures
        var o := Enqueue(old(Value()), frame, now, maxBytes);
        && (o.refusal.Some? ==> r == Err(o.refusal.value))
        && (o.refusal.None? ==> r == Ok((old(nextSequence), old(playback))))
        && (r.Ok? ==> (r.value.1.Some? <==> Departs(DoEnqueue(frame, now), o, r.value.0)))
      ensures r.Ok? <==> PlaybackHistories.Issues(old(Value()), DoEnqueue(frame, now), maxBytes)
    {
      WaitingIsDrainable(trace, Value(), epoch, maxBytes);
      Note(DoEnqueue(frame, now));
      if finished { return Err(Finishing); }
      if |pending| >= QUEUE_CAPACITY { return Err(QueueFull); }
      if playback.None? && (reconnect.None? || now > reconnect.value) { return Err(NotConnected); }
      if playback.None? && (|frame.payload| > maxBytes || waitingBytes + |frame.payload| > maxBytes) {
        return Err(ByteBound);
      }
      var sequence := nextSequence;
      if sequence >= U64_MAX { return Err(Overflow); }
      Admit(sequence, frame);
      r := Ok((sequence, playback));
    }

    /** Files the frame under its number, and queues it when no transport is attached. */
    method Admit(sequence: nat, frame: Frame)
      modifies this`nextSequence, this`pending, this`waiting, this`waitingBytes
      ensures nextSequence == sequence + 1
      ensures pending ==
              old(pending)[sequence := Pending(playback, frame.generation, true, false, None, false)]
      ensures playback.Some? ==> waiting == old(waiting) && waitingBytes == old(waitingBytes)
      ensures playback.None? ==>
                && waiting == old(waiting) + [Request(sequence, frame)]
                && waitingBytes == old(waitingBytes) + |frame.payload|
    {
      nextSequence := sequence + 1;
      pending := pending[sequence := Pending(playback, frame.generation, true, false, None, false)];
      if playback.None? {
        waitingBytes := waitingBytes + |frame.payload|;
        waiting := waiting + [Request(sequence, frame)];
      }
    }

    /** The rest of an enqueue with a transport: a frame its queue did not take is cancelled. */
    method HandOver(k: nat, taken: bool) returns (r: Result<(), Refusal>)
      requires Valid() && k in Flight()
      modifies this
      ensures Valid()
      ensures
        var sent := Extended(old(trace), DoSend(k, taken), maxBytes);
        && r == (if taken then Ok(()) else Err(QueueUnavailable))
        && trace == if taken then sent else Extended(sent, DoCancelPlayback(k), maxBytes)
    {
      Note(DoSend(k, taken));
      if !taken {
        CancelPendingPlayback(k);
        return Err(QueueUnavailable);
      }
      r := Ok(());
    }

    /**
     Moves the waiting frames to a fresh transport queue one at a time. For the frames of an owned
     session neither the lookup of the pending entry nor the bounded send can fail.
     */
    method Drain(connection: nat) returns (queue: seq<Request>)
      requires Ascending(waiting) && Sequences(waiting) <= pending.Keys && |pending| <= QUEUE_CAPACITY
      requires waitingBytes == Bytes(waiting)
      modifies this`waiting, this`waitingBytes, this`pending
      ensures queue == old(waiting) && waiting == [] && waitingBytes == 0
      ensures pending == Tagged(old(pending), Sequences(queue), connection)
    {
      ghost var before, table := waiting, pending;
      QueueFits(before, table);
      queue := [];
      TagNone(table, connection);
      while waiting != []
        invariant |queue| <= |before| && queue == before[..|queue|] && waiting == before[|queue|..]
        invariant waitingBytes == Bytes(waiting)
        invariant pending == Tagged(table, Sequences(queue), connection)
        decreases |waiting|
      {
        DrainOne(before, table, |queue|, connection);
        var next := waiting[0];
        waiting := waiting[1..];
        waitingBytes := SaturatingSub(waitingBytes, |next.frame.payload|);
        pending := pending[next.sequence := pending[next.sequence].(connection := Some(connection))];
        if |queue| >= QUEUE_CAPACITY {
          assert false;
        }
        queue := queue + [next];
      }
    }

    method AttachTransport(reservation: Option<nat>, connection: nat) returns (r: Result<seq<Request>, Refusal>)
      requires Valid()
      modifies this
      ensures Valid() && trace == Extended(old(trace), DoAttach(reservation, connection), maxBytes)
      ensures Value() == Attach(old(Value()), reservation, connection).next
      ensures var o := Attach(old(Value()), reservation, connection);
              r == if o.refusal.Some? then Err(o.refusal.value) else Ok(o.sent)
      ensures r.Ok? <==> PlaybackHistories.TakesTransport(old(Value()), DoAttach(reservation, connection))
    {
      WaitingIsDrainable(trace, Value(), epoch, maxBytes);
      Note(DoAttach(reservation, connection));
      if reservation.Some? && reservation.value != epoch { return Err(WrongReservation); }
      if finished { return Err(Finishing); }
      if playback.Some? { return Err(AlreadyAttached); }
      playback := Some(connection);
      reconnect := None;
      var queue := Drain(connection);
      r := Ok(queue);
    }

    /** Removes the frames in `drop`, collecting who must be told. */
    method Settle(drop: set<nat>) returns (failed: set<Event>, flushed: set<nat>)
      modifies this`pending
      ensures pending == old(pending) - drop
      ensures failed == Failed(old(pending), drop)
      ensures flushed == WrittenGenerations(old(pending), drop)
    {
      var left;
      left, failed, flushed := SettleEach(pending, drop);
      pending := left;
    }

    method DisconnectTransport(reservation: Option<nat>, connection: nat, deadline: nat)
      returns (r: Result<(set<Event>, set<nat>), Refusal>)
      requires Valid()
      modifies this
      ensures Valid() && trace == Extended(old(trace), DoDisconnect(reservation, connection, deadline), maxBytes)
      ensures Value() == Disconnect(old(Value()), reservation, connection, deadline).next
      ensures var o := Disconnect(old(Value()), reservation, connection, deadline);
              r == if o.refusal.Some? then Err(o.refusal.value) else Ok((o.events, o.flushed))
    {
      Note(DoDisconnect(reservation, connection, deadline));
      if reservation.Some? && reservation.value != epoch { return Ok(({}, {})); }
      if playback != Some(connection) { return Ok(({}, {})); }
      var failed, flushed := Sever(connection, deadline);
      if flushed != {} && !voice { return Err(VoiceMissing); }
      r := Ok((failed, flushed));
    }

    /** Settles everything a connection owns and starts its reconnect window. */
    method Sever(connection: nat, deadline: nat) returns (failed: set<Event>, flushed: set<nat>)
      modifies this`playback, this`reconnect, this`pending, this`flushes
      ensures
        var drop := set k | k in old(pending) && old(pending)[k].connection == Some(connection);
        && pending == old(pending) - drop
        && failed == Failed(old(pending), drop)
        && flushed == WrittenGenerations(old(pending), drop)
      ensures playback == None && reconnect == Some(deadline)
      ensures flushes == map g | g in old(flushes) && old(flushes)[g] != connection :: old(flushes)[g]
    {
      playback := None;
      reconnect := Some(deadline);
      var drop := set k | k in pending && pending[k].connection == Some(connection);
      failed, flushed := Settle(drop);
      flushes := map g | g in flushes && flushes[g] != connection :: flushes[g];
    }

    method SettleAll() returns (failed: set<Event>, flushed: set<nat>)
      modifies this`pending, this`flushes
      ensures pending == map[] && flushes == map[]
      ensures failed == Failed(old(pending), old(pending).Keys)
      ensures flushed == WrittenGenerations(old(pending), old(pending).Keys)
    {
      NoneLeft(pending);
      failed, flushed := Settle(pending.Keys);
      flushes := map[];
    }

    method DetachForFinish(reservation: nat, connection: nat) returns (r: Result<(set<Event>, set<nat>), Refusal>)
      requires Valid()
      modifies this
      ensures Valid() && trace == Extended(old(trace), DoPlannedDetach(reservation, connection), maxBytes)
      ensures Value() == PlannedDetach(old(Value()), reservation, connection).next
      ensures var o := PlannedDetach(old(Value()), reservation, connection);
              r == if o.refusal.Some? then Err(o.refusal.value) else Ok((o.events, o.flushed))
      ensures r != Err(OwnedElsewhere)
    {
      FinishIsNeverOwnedElsewhere(trace, |trace.actions|, reservation, connection, epoch, maxBytes);
      Note(DoPlannedDetach(reservation, connection));
      if epoch != reservation { return Err(WrongReservation); }
      if finished || playback != Some(connection) { return Err(WrongConnection); }
      if waiting != [] || waitingBytes != 0 || OtherOwner(pending, flushes, connection) {
        return Err(OwnedElsewhere);
      }
      var failed, flushed := FinishFor(connection);
      if flushed != {} && !voice { return Err(VoiceMissing); }
      r := Ok((failed, flushed));
    }

    method FinishFor(connection: nat) returns (failed: set<Event>, flushed: set<nat>)
      modifies this`playback, this`reconnect, this`finished, this`finishConnection, this`finishDelivered
      modifies this`pending, this`flushes
      ensures Value() == old(Value()).(
                playback := None, reconnect := None, finished := true, finishConnection := Some(connection),
                finishDelivered := false, pending := map[], flushes := map[])
      ensures failed == Failed(old(pending), old(pending).Keys)
      ensures flushed == WrittenGenerations(old(pending), old(pending).Keys)
    {
      playback := None;
      reconnect := None;
      finished := true;
      finishConnection := Some(connection);
      finishDelivered := false;
      failed, flushed := SettleAll();
    }

    method ExpireWaitingFrames(deadline: nat) returns (failed: set<Event>)
      requires Valid()
      modifies this
      ensures Valid() && trace == Extended(old(trace), DoExpireWaiting(deadline), maxBytes)
      ensures Value() == ExpireWaiting(old(Value()), deadline).next
      ensures failed == ExpireWaiting(old(Value()), deadline).events
    {
      Note(DoExpireWaiting(deadline));
      if reconnect != Some(deadline) { return {}; }
      reconnect := None;
      waitingBytes := 0;
      var drop := Sequences(waiting);
      waiting := [];
      var flushed;
      failed, flushed := Settle(drop);
    }

    method ExpireAcceptedGenerations(reservation: nat, now: nat) returns (failed: set<Event>, told: set<nat>)
      requires Valid()
      modifies this
      ensures Valid() && trace == Extended(old(trace), DoExpireAccepted(reservation, now), maxBytes)
      ensures Value() == ExpireAccepted(old(Value()), reservation, now).next
      ensures failed == ExpireAccepted(old(Value()), reservation, now).events
      ensures told == ExpireAccepted(old(Value()), reservation, now).flushed
    {
      Note(DoExpireAccepted(reservation, now));
      if epoch != reservation { return {}, {}; }
      var generations := set k | k in pending && pending[k].deadline.Some? && pending[k].deadline.value <= now ::
        pending[k].generation;
      if generations == {} { return {}, {}; }
      var flushed;
      failed, flushed := Settle(set k | k in pending && pending[k].generation in generations);
      told := if voice then generations else {};
    }

    method AcknowledgePlayback(connection: nat, k: nat, rendered: bool, deadline: nat)
      returns (r: Result<set<Event>, Refusal>)
      requires Valid()
      modifies this`pending, this`trace
      ensures Valid() && trace == Extended(old(trace), DoAcknowledge(connection, k, rendered, deadline), maxBytes)
      ensures Value() == Acknowledge(old(Value()), connection, k, rendered, deadline).next
      ensures var o := Acknowledge(old(Value()), connection, k, rendered, deadline);
              r == if o.refusal.Some? then Err(o.refusal.value) else Ok(o.events)
    {
      Note(DoAcknowledge(connection, k, rendered, deadline));
      if playback != Some(connection) { return Err(WrongConnection); }
      if k !in pending { return Err(Unknown); }
      var entry := pending[k];
      if entry.connection != Some(connection) { return Err(WrongConnection); }
      if !rendered {
        if entry.accepted { return Err(Duplicated); }
        var answered := entry.open;
        pending := pending[k := entry.(accepted := true, deadline := Some(deadline), open := false)];
        return Ok(if answered then {Accepted(k), Resolved(k, true)} else {Accepted(k)});
      }
      if !entry.accepted { return Err(NotAccepted); }
      pending := pending - {k};
      if !voice { return Err(VoiceMissing); }
      r := Ok({Rendered(k)});
    }

    method MarkPlaybackWritten(connection: nat, k: nat) returns (r: Result<(), Refusal>)
      requires Valid()
      modifies this`pending, this`trace
      ensures Valid() && trace == Extended(old(trace), DoMarkWritten(connection, k), maxBytes)
      ensures Value() == MarkWritten(old(Value()), connection, k).next
      ensures var o := MarkWritten(old(Value()), connection, k);
              r == if o.refusal.Some? then Err(o.refusal.value) else Ok(())
    {
      Note(DoMarkWritten(connection, k));
      if k !in pending { return Err(Unknown); }
      if pending[k].connection != Some(connection) { return Err(WrongConnection); }
      pending := pending[k := pending[k].(written := true)];
      r := Ok(());
    }

    /** Takes the waiting frame out of the middle of the queue. */
    method CancelPendingPlayback(k: nat)
      requires Valid()
      modifies this
      ensures Valid() && trace == Extended(old(trace), DoCancelPlayback(k), maxBytes)
      ensures Value() == CancelPlayback(old(Value()), k).next
    {
      Note(DoCancelPlayback(k));
      pending := pending - {k};
      Unqueue(k);
    }

    method Unqueue(k: nat)
      modifies this`waiting, this`waitingBytes
      ensures waiting == Without(old(waiting), k)
      ensures waitingBytes == SaturatingSub(old(waitingBytes), SizeOf(old(waiting), k))
    {
      var index := PositionOf(waiting, k);
      if index < |waiting| {
        waitingBytes := SaturatingSub(waitingBytes, |waiting[index].frame.payload|);
        waiting := waiting[..index] + waiting[index + 1..];
      }
    }

    method RequestFlushOf(generation: nat) returns (r: Result<(), Refusal>)
      requires Valid()
      modifies this`flushes, this`trace
      ensures Valid() && trace == Extended(old(trace), DoRequestFlush(generation), maxBytes)
      ensures Value() == RequestFlush(old(Value()), generation).next
      ensures var o := RequestFlush(old(Value()), generation);
              r == if o.refusal.Some? then Err(o.refusal.value) else Ok(())
    {
      Note(DoRequestFlush(generation));
      if finished { return Err(Finishing); }
      if playback.None? { return Err(NotConnected); }
      if |flushes| >= QUEUE_CAPACITY { return Err(QueueFull); }
      if generation in flushes { return Err(Duplicated); }
      flushes := flushes[generation := playback.value];
      r := Ok(());
    }

    method AcknowledgeFlushOf(connection: nat, generation: nat) returns (r: Result<(), Refusal>)
      requires Valid()
      modifies this`flushes, this`trace
      ensures Valid() && trace == Extended(old(trace), DoAcknowledgeFlush(connection, generation), maxBytes)
      ensures Value() == AcknowledgeFlush(old(Value()), connection, generation).next
      ensures var o := AcknowledgeFlush(old(Value()), connection, generation);
              r == if o.refusal.Some? then Err(o.refusal.value) else Ok(())
    {
      Note(DoAcknowledgeFlush(connection, generation));
      if playback != Some(connection) { return Err(WrongConnection); }
      if generation !in flushes { return Err(Unknown); }
      var owner := flushes[generation];
      flushes := flushes - {generation};
      if owner != connection { return Err(WrongConnection); }
      r := Ok(());
    }

    method CancelPendingFlush(generation: nat)
      requires Valid()
      modifies this`flushes, this`trace
      ensures Valid() && trace == Extended(old(trace), DoCancelFlush(generation), maxBytes)
    {
      Note(DoCancelFlush(generation));
      flushes := flushes - {generation};
    }

    method AttachVoiceInput() returns (ok: bool)
      requires Valid()
      modifies this`voice, this`trace
      ensures Valid() && trace == Extended(old(trace), DoAttachVoice, maxBytes)
      ensures ok == !old(voice)
    {
      Note(DoAttachVoice);
      ok := !voice;
      voice := true;
    }

    method DeliverCaptureFinish(reservation: nat, connection: nat) returns (r: Result<(), Refusal>)
      requires Valid()
      modifies this`finishDelivered, this`trace
      ensures Valid() && trace == Extended(old(trace), DoDeliverFinish(reservation, connection), maxBytes)
      ensures Value() == DeliverFinish(old(Value()), reservation, connection).next
      ensures var o := DeliverFinish(old(Value()), reservation, connection);
              r == if o.refusal.Some? then Err(o.refusal.value) else Ok(())
    {
      Note(DoDeliverFinish(reservation, connection));
      if epoch != reservation || !finished || finishConnection != Some(connection) || finishDelivered {
        return Err(WrongConnection);
      }
      finishDelivered := true;
      if !voice { return Err(VoiceMissing); }
      r := Ok(());
    }
  }

  /** The position of a frame in the queue, or the queue's length when it is not there. */
  method PositionOf(waiting: seq<Request>, k: nat) returns (index: nat)
    ensures index <= |waiting|
    ensures index < |waiting| ==>
              && Without(waiting, k) == waiting[..index] + waiting[index + 1..]
              && SizeOf(waiting, k) == |waiting[index].frame.payload|
    ensures index == |waiting| ==> Without(waiting, k) == waiting && SizeOf(waiting, k) == 0
  {
    index := 0;
    while index < |waiting| && waiting[index].sequence != k
      invariant index <= |waiting|
      invariant Without(waiting, k) == waiting[..index] + Without(waiting[index..], k)
      invariant SizeOf(waiting, k) == SizeOf(waiting[index..], k)
    {
      SkipOne(waiting, index, k);
      index := index + 1;
    }
    if index == |waiting| {
      assert waiting[index..] == [] && waiting[..index] + [] == waiting;
    } else {
      assert waiting[index..][1..] == waiting[index + 1..];
    }
  }

  lemma SkipOne(waiting: seq<Request>, i: nat, k: nat)
    requires i < |waiting| && waiting[i].sequence != k
    ensures waiting[..i] + Without(waiting[i..], k) == waiting[..i + 1] + Without(waiting[i + 1..], k)
    ensures SizeOf(waiting[i..], k) == SizeOf(waiting[i + 1..], k)
  {
    assert waiting[i..][1..] == waiting[i + 1..];
    assert waiting[..i] + [waiting[i]] == waiting[..i + 1];
  }

  lemma WaitingIsDrainable(t: Trace, s: Session, epoch: nat, maxBytes: nat)
    requires Tracks(t, s, epoch, maxBytes)
    ensures |s.pending| <= QUEUE_CAPACITY && Ascending(s.waiting) && s.waitingBytes == Bytes(s.waiting)
    ensures s.playback.None? ==> Sequences(s.waiting) <= s.pending.Keys
  {
    ReachableIsOwned(t, |t.actions|, epoch, maxBytes);
  }

  lemma NoneLeft(table: map<nat, Pending>)
    ensures table - table.Keys == map[]
  {
  }

  lemma TagNone(table: map<nat, Pending>, connection: nat)
    ensures Tagged(table, Sequences([]), connection) == table
  {
    assert Sequences([]) == {};
  }

  lemma DrainOne(before: seq<Request>, table: map<nat, Pending>, n: nat, connection: nat)
    requires n < |before| && Sequences(before) <= table.Keys
    ensures before[n..][1..] == before[n + 1..] && before[..n] + [before[n]] == before[..n + 1]
    ensures Bytes(before[n..]) == |before[n].frame.payload| + Bytes(before[n + 1..])
    ensures before[n].sequence in table
    ensures var tagged := Tagged(table, Sequences(before[..n]), connection);
            Tagged(table, Sequences(before[..n + 1]), connection) ==
            tagged[before[n].sequence := tagged[before[n].sequence].(connection := Some(connection))]
  {
    assert before[n].sequence in Sequences(before);
    assert before[n..][1..] == before[n + 1..];
    assert before[..n] + [before[n]] == before[..n + 1];
    assert Sequences(before[..n] + [before[n]]) == Sequences(before[..n]) + {before[n].sequence};
  }

  lemma QueueFits(waiting: seq<Request>, pending: map<nat, Pending>)
    requires Ascending(waiting) && Sequences(waiting) <= pending.Keys && |pending| <= QUEUE_CAPACITY
    ensures |waiting| <= QUEUE_CAPACITY
  {
    WaitingLength(waiting);
    assert pending.Keys == Sequences(waiting) + (pending.Keys - Sequences(waiting));
  }

  /** The frames in `done` are out of the table, and their waiters and written generations are collected. */
  ghost predicate Settled(table: map<nat, Pending>, done: set<nat>, left: map<nat, Pending>, failed: set<Event>,
                          flushed: set<nat>) {
    left == table - done && failed == Failed(table, done) && flushed == WrittenGenerations(table, done)
  }

  function WithFailure(failed: set<Event>, left: map<nat, Pending>, k: nat): set<Event> {
    if k in left && left[k].open then failed + {Resolved(k, false)} else failed
  }

  function WithGeneration(flushed: set<nat>, left: map<nat, Pending>, k: nat): set<nat> {
    if k in left && left[k].written then flushed + {left[k].generation} else flushed
  }

  lemma SettleOne(table: map<nat, Pending>, done: set<nat>, k: nat, left: map<nat, Pending>, failed: set<Event>,
                  flushed: set<nat>)
    requires k !in done && Settled(table, done, left, failed, flushed)
    ensures Settled(table, done + {k}, left - {k}, WithFailure(failed, left, k), WithGeneration(flushed, left, k))
  {
    assert k in left <==> k in table;
    assert WithFailure(failed, left, k) == Failed(table, done + {k});
    assert WithGeneration(flushed, left, k) == WrittenGenerations(table, done + {k});
  }

  /** Takes frames out of the table one at a time. */
  method SettleEach(table: map<nat, Pending>, drop: set<nat>)
    returns (left: map<nat, Pending>, failed: set<Event>, flushed: set<nat>)
    ensures Settled(table, drop, left, failed, flushed)
  {
    var todo := drop;
    left, failed, flushed := table, {}, {};
    ghost var done: set<nat> := {};
    assert Settled(table, done, left, failed, flushed);
    while todo != {}
      invariant done !! todo && done + todo == drop
      invariant Settled(table, done, left, failed, flushed)
      decreases |todo|
    {
      var k :| k in todo;
      SettleOne(table, done, k, left, failed, flushed);
      failed := WithFailure(failed, left, k);
      flushed := WithGeneration(flushed, left, k);
      left := left - {k};
      todo, done := todo - {k}, done + {k};
    }
    assert done == drop;
  }
}
