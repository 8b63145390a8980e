/**
 The playback half of one network media reservation: the frames that await an acknowledgement,
 the frames that wait for a reconnect, the pending flushes and the finish barrier.

 Every lock-held section of the hub is one step, and so is every hand-over to a transport queue that
 happens outside the lock. `Session` is the value of the locked record, the functions below are the steps
 on values. Module `NetworkSessions` holds the mutable record whose
 methods perform them in place, module `PlaybackRuns` what every run of them keeps.
 */
module Playback {
  import opened Wrappers

  const QUEUE_CAPACITY: nat := 16

  datatype Frame = Frame(generation: nat, payload: bytes)

  datatype Request = Request(sequence: nat, frame: Frame)

  /** `open`: the caller's completion has not been taken yet. */
  datatype Pending = Pending(
    connection: Option<nat>,
    generation: nat,
    open: bool,
    accepted: bool,
    deadline: Option<nat>,
    written: bool)

  datatype Session = Session(
    epoch: nat,
    voice: bool,
    playback: Option<nat>,
    nextSequence: nat,
    pending: map<nat, Pending>,
    flushes: map<nat, nat>,
    reconnect: Option<nat>,
    finished: bool,
    finishConnection: Option<nat>,
    finishDelivered: bool,
    waiting: seq<Request>,
    waitingBytes: nat)

  datatype Refusal =
    | Finishing | QueueFull | NotConnected | ByteBound | Overflow | AlreadyAttached
    | WrongReservation | WrongConnection | Unknown | Duplicated | NotAccepted
    | VoiceMissing | OwnedElsewhere | QueueUnavailable

  /** What an observer of the reservation sees happen to one playback sequence number. */
  datatype Event =
    | Issued(sequence: nat)
    | Sent(sequence: nat)
    | Undelivered(sequence: nat)
    | Accepted(sequence: nat)
    | Rendered(sequence: nat)
    | Resolved(sequence: nat, ok: bool)
    | Barrier

  datatype Outcome = Outcome(
    next: Session,
    refusal: Option<Refusal>,
    events: set<Event>,
    sent: seq<Request>,
    flushed: set<nat>)

  // ---------------------------------------------------------------- the steps, on values

  function New(epoch: nat): Session {
    Session(epoch, false, None, 1, map[], map[], None, false, None, false, [], 0)
  }

  function Refuse(s: Session, why: Refusal): Outcome {
    Outcome(s, Some(why), {}, [], {})
  }

  function Done(s: Session, events: set<Event>): Outcome {
    Outcome(s, None, events, [], {})
  }

  function Bytes(waiting: seq<Request>): nat {
    if waiting == [] then 0 else |waiting[0].frame.payload| + Bytes(waiting[1..])
  }

  function Sequences(waiting: seq<Request>): set<nat> {
    set r | r in waiting :: r.sequence
  }

  function Without(waiting: seq<Request>, k: nat): seq<Request> {
    if waiting == [] then []
    else if waiting[0].sequence == k then waiting[1..]
    else [waiting[0]] + Without(waiting[1..], k)
  }

  function SizeOf(waiting: seq<Request>, k: nat): nat {
    if waiting == [] then 0
    else if waiting[0].sequence == k then |waiting[0].frame.payload|
    else SizeOf(waiting[1..], k)
  }

  function SaturatingSub(a: nat, b: nat): nat {
    if b <= a then a - b else 0
  }

  /** The completions that are answered with an error when the frames in `drop` are removed. */
  function Failed(pending: map<nat, Pending>, drop: set<nat>): set<Event> {
    set k | k in drop && k in pending && pending[k].open :: Resolved(k, false)
  }

  function WrittenGenerations(pending: map<nat, Pending>, drop: set<nat>): set<nat> {
    set k | k in drop && k in pending && pending[k].written :: pending[k].generation
  }

  /**
   Issues a number. With a transport attached the frame is handed to its queue only after the lock is
   released, by `Send`; without one the frame waits in the session.
   */
  function Enqueue(s: Session, frame: Frame, now: nat, maxBytes: nat): Outcome {
    if s.finished then Refuse(s, Finishing)
    else if |s.pending| >= QUEUE_CAPACITY then Refuse(s, QueueFull)
    else if s.playback.None? && (s.reconnect.None? || now > s.reconnect.value) then Refuse(s, NotConnected)
    else if s.playback.None? && s.waitingBytes + |frame.payload| > maxBytes then Refuse(s, ByteBound)
    else if s.nextSequence >= U64_MAX then Refuse(s, Overflow)
    else
      var k := s.nextSequence;
      var request := Request(k, frame);
      var issued := s.(
        nextSequence := k + 1,
        pending := s.pending[k := Pending(s.playback, frame.generation, true, false, None, false)]);
      if s.playback.Some? then Done(issued, {Issued(k)})
      else
        Done(issued.(waiting := s.waiting + [request], waitingBytes := s.waitingBytes + |frame.payload|),
             {Issued(k)})
  }

  /**
   Hands a frame that is in flight, between its issue and its hand-over, to the transport queue it was
   issued for. The queue is shared with flushes and may be full or closed; a frame it refuses is cancelled
   by a later step.
   */
  function Send(s: Session, flight: map<nat, Frame>, k: nat, taken: bool): Outcome {
    if k !in flight then Refuse(s, Unknown)
    else if taken then Outcome(s, None, {Sent(k)}, [Request(k, flight[k])], {})
    else Outcome(s, Some(QueueUnavailable), {Undelivered(k)}, [], {})
  }

  /** The pending frames named in `drained` now belong to `connection`. */
  function Tagged(pending: map<nat, Pending>, drained: set<nat>, connection: nat): map<nat, Pending> {
    map k | k in pending :: if k in drained then pending[k].(connection := Some(connection)) else pending[k]
  }

  function Attach(s: Session, epoch: Option<nat>, connection: nat): Outcome {
    if epoch.Some? && epoch.value != s.epoch then Refuse(s, WrongReservation)
    else if s.finished then Refuse(s, Finishing)
    else if s.playback.Some? then Refuse(s, AlreadyAttached)
    else
      var drained := Sequences(s.waiting);
      Outcome(
        s.(playback := Some(connection), reconnect := None, waiting := [], waitingBytes := 0,
           pending := Tagged(s.pending, drained, connection)),
        None, set k | k in drained :: Sent(k), s.waiting, {})
  }

  function Disconnect(s: Session, epoch: Option<nat>, connection: nat, deadline: nat): Outcome {
    if epoch.Some? && epoch.value != s.epoch then Done(s, {})
    else if s.playback != Some(connection) then Done(s, {})
    else
      var drop := set k | k in s.pending && s.pending[k].connection == Some(connection);
      var flushed := WrittenGenerations(s.pending, drop);
      Outcome(
        s.(playback := None, reconnect := Some(deadline), pending := s.pending - drop,
           flushes := map g | g in s.flushes && s.flushes[g] != connection :: s.flushes[g]),
        if flushed != {} && !s.voice then Some(VoiceMissing) else None,
        Failed(s.pending, drop), [], flushed)
  }

  predicate OtherOwner(pending: map<nat, Pending>, flushes: map<nat, nat>, connection: nat) {
    || (exists k :: k in pending && pending[k].connection != Some(connection))
    || (exists g :: g in flushes && flushes[g] != connection)
  }

  function PlannedDetach(s: Session, epoch: nat, connection: nat): Outcome {
    if epoch != s.epoch then Refuse(s, WrongReservation)
    else if s.finished || s.playback != Some(connection) then Refuse(s, WrongConnection)
    else if s.waiting != [] || s.waitingBytes != 0
            || OtherOwner(s.pending, s.flushes, connection) then Refuse(s, OwnedElsewhere)
    else
      var flushed := WrittenGenerations(s.pending, s.pending.Keys);
      Outcome(
        s.(playback := None, reconnect := None, finished := true, finishConnection := Some(connection),
           finishDelivered := false, pending := map[], flushes := map[]),
        if flushed != {} && !s.voice then Some(VoiceMissing) else None,
        Failed(s.pending, s.pending.Keys), [], flushed)
  }

  function ExpireWaiting(s: Session, deadline: nat): Outcome {
    if s.reconnect != Some(deadline) then Done(s, {})
    else
      var drop := Sequences(s.waiting);
      Done(s.(reconnect := None, waiting := [], waitingBytes := 0, pending := s.pending - drop),
           Failed(s.pending, drop))
  }

  function Overdue(s: Session, now: nat): set<nat> {
    set k | k in s.pending && s.pending[k].deadline.Some? && s.pending[k].deadline.value <= now ::
      s.pending[k].generation
  }

  /** Every pending frame of a generation with an overdue rendering goes, not only the overdue one. */
  function ExpireAccepted(s: Session, epoch: nat, now: nat): Outcome {
    var generations := Overdue(s, now);
    if epoch != s.epoch || generations == {} then Done(s, {})
    else
      var drop := set k | k in s.pending && s.pending[k].generation in generations;
      Outcome(s.(pending := s.pending - drop), None, Failed(s.pending, drop), [],
              if s.voice then generations else {})
  }

  function Acknowledge(s: Session, connection: nat, k: nat, rendered: bool, deadline: nat): Outcome {
    if s.playback != Some(connection) then Refuse(s, WrongConnection)
    else if k !in s.pending then Refuse(s, Unknown)
    else
      var p := s.pending[k];
      if p.connection != Some(connection) then Refuse(s, WrongConnection)
      else if !rendered && p.accepted then Refuse(s, Duplicated)
      else if !rendered then
        Done(s.(pending := s.pending[k := p.(accepted := true, deadline := Some(deadline), open := false)]),
             if p.open then {Accepted(k), Resolved(k, true)} else {Accepted(k)})
      else if !p.accepted then Refuse(s, NotAccepted)
      else
        Outcome(s.(pending := s.pending - {k}), if s.voice then None else Some(VoiceMissing),
                {Rendered(k)}, [], {})
  }

  function MarkWritten(s: Session, connection: nat, k: nat): Outcome {
    if k !in s.pending then Refuse(s, Unknown)
    else if s.pending[k].connection != Some(connection) then Refuse(s, WrongConnection)
    else Done(s.(pending := s.pending[k := s.pending[k].(written := true)]), {})
  }

  /** Removes one waiting frame wherever it stands in the queue, and its bytes with it. */
  function CancelPlayback(s: Session, k: nat): Outcome {
    Done(s.(pending := s.pending - {k}, waiting := Without(s.waiting, k),
            waitingBytes := SaturatingSub(s.waitingBytes, SizeOf(s.waiting, k))), {})
  }

  function RequestFlush(s: Session, generation: nat): Outcome {
    if s.finished then Refuse(s, Finishing)
    else if s.playback.None? then Refuse(s, NotConnected)
    else if |s.flushes| >= QUEUE_CAPACITY then Refuse(s, QueueFull)
    else if generation in s.flushes then Refuse(s, Duplicated)
    else Done(s.(flushes := s.flushes[generation := s.playback.value]), {})
  }

  /** The entry is removed before its connection is compared, as the source does. */
  function AcknowledgeFlush(s: Session, connection: nat, generation: nat): Outcome {
    if s.playback != Some(connection) then Refuse(s, WrongConnection)
    else if generation !in s.flushes then Refuse(s, Unknown)
    else
      var next := s.(flushes := s.flushes - {generation});
      Outcome(next, if s.flushes[generation] != connection then Some(WrongConnection) else None, {}, [], {})
  }

  function CancelFlush(s: Session, generation: nat): Outcome {
    Done(s.(flushes := s.flushes - {generation}), {})
  }

  function AttachVoice(s: Session): Outcome {
    Outcome(s.(voice := true), if s.voice then Some(AlreadyAttached) else None, {}, [], {})
  }

  function DeliverFinish(s: Session, epoch: nat, connection: nat): Outcome {
    if s.epoch != epoch || !s.finished || s.finishConnection != Some(connection) || s.finishDelivered
    then Refuse(s, WrongConnection)
    else
      Outcome(s.(finishDelivered := true), if s.voice then None else Some(VoiceMissing),
              if s.voice then {Barrier} else {}, [], {})
  }
}
