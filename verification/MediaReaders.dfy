/** Reading media packets incrementally, from reads of any size and with interruptions anywhere. */
module MediaReaders {
  import opened Wrappers
  import opened MediaLeases
  import opened Incremental
  import opened MediaPackets

  lemma TargetOfPrefix(b: bytes, n: nat, version: Version, max: nat)
    requires TargetOf(b, version, max) == Packet(n) && n <= |b|
    ensures Exact(b[..n], version, max)
  {
    TargetIsAhead(b, version, max);
    var p := b[..n];
    assert p[..5] == b[..5];
    if IsTimed(b, version) {
      assert p[6..10] == b[6..10];
    } else if b[5] == FRAME_KIND {
      assert p[38..42] == b[38..42];
    }
  }

  datatype Limits = Limits(version: Version, max: nat)

  /** The message of the packet whose length the bytes announce. */
  function Parsed(b: bytes, n: nat, l: Limits): Option<Message>
    requires TargetOf(b, l.version, l.max) == Packet(n) && n <= |b|
  {
    TargetOfPrefix(b, n, l.version, l.max);
    ParsePacket(b[..n], l.version, l.max)
  }

  function StepOf(m: Option<Message>, n: nat): Step<(), Message> {
    if m.None? then Fail else Go((), n, [m.value])
  }

  function TakePacket(b: bytes, l: Limits): Step<(), Message> {
    match TargetOf(b, l.version, l.max)
    case Rejected => Fail
    case Header(_) => Wait
    case Packet(n) => if |b| < n then Wait else StepOf(Parsed(b, n, l), n)
  }

  function Taker(l: Limits): ((), bytes) -> Step<(), Message> {
    (s: (), b: bytes) => TakePacket(b, l)
  }

  lemma PacketStands(b: bytes, x: bytes, l: Limits)
    requires !TakePacket(b, l).Wait?
    ensures TakePacket(b + x, l) == TakePacket(b, l)
  {
    TargetStands(b, x, l.version, l.max);
    var t := TargetOf(b, l.version, l.max);
    if t.Packet? {
      assert (b + x)[..t.length] == b[..t.length];
    }
  }

  lemma PacketConsumes(b: bytes, l: Limits)
    ensures TakePacket(b, l).Go? ==> 1 <= TakePacket(b, l).length <= |b|
  {
    TargetIsAhead(b, l.version, l.max);
  }

  lemma TakerIsStable(l: Limits)
    ensures Consuming(Taker(l)) && Stable(Taker(l))
  {
    var take := Taker(l);
    forall s, b, x | !take(s, b).Wait? ensures take(s, b + x) == take(s, b) {
      PacketStands(b, x, l);
    }
    forall s, b ensures take(s, b).Go? ==> 1 <= take(s, b).length <= |b| {
      PacketConsumes(b, l);
    }
  }

  datatype Event = Got(message: Message) | Finished | Broken | Interrupted | Dropped

  /** How reading a stream ended: between packets, on a malformed packet or truncation, or with the connection. */
  datatype Ending = Clean | Malformed | Lost

  class MediaPacketReader {
    const limits: Limits
    /** Bytes the peer has sent and will send before it closes, not yet read. */
    var stream: bytes
    var buffer: bytes

    /** An unfinished packet, shorter than its own target and within the packet bound. */
    ghost predicate Valid()
      reads this
    {
      TakePacket(buffer, limits).Wait? && |buffer| <= PacketBound(limits.max)
    }

    constructor (stream: bytes, limits: Limits)
      ensures Valid() && buffer == [] && this.stream == stream && this.limits == limits
    {
      this.stream, this.limits, buffer := stream, limits, [];
    }

    /** One read: between one byte and as many as asked for, or nothing when the peer has closed. */
    method Read(wanted: nat) returns (chunk: bytes)
      requires 1 <= wanted
      modifies this`stream
      ensures |chunk| <= wanted && chunk + stream == old(stream)
      ensures chunk == [] <==> old(stream) == []
    {
      if stream == [] { return []; }
      var count :| 1 <= count <= wanted && count <= |stream|;
      chunk := stream[..count];
      stream := stream[count..];
    }

    /**
     The next message. A read may give any part of what was asked for, and the call may be interrupted
     before any read; the bytes collected so far then stay for the next call. On a faulty connection a read
     may also fail or miss the packet's deadline.
     */
    method NextMessage(interruptible: bool, faulty: bool) returns (e: Event)
      requires Valid()
      modifies this`stream, this`buffer
      ensures !e.Broken? ==> Valid()
      ensures e.Dropped? ==> faulty && buffer + stream == old(buffer) + old(stream)
      ensures e.Interrupted? ==> interruptible && buffer + stream == old(buffer) + old(stream)
      ensures e.Got? ==> buffer == [] && |stream| < |old(buffer) + old(stream)|
      ensures e.Got? ==> Messages(old(buffer) + old(stream), limits) == Prefixed([e.message], Messages(stream, limits))
      ensures e.Finished? ==> Messages(old(buffer) + old(stream), limits) == Progress([], Waiting((), []))
      ensures e.Broken? ==> Messages(old(buffer) + old(stream), limits).out == []
      ensures e.Broken? ==> Messages(old(buffer) + old(stream), limits).status != Waiting((), [])
    {
      ghost var whole := buffer + stream;
      while true
        invariant buffer + stream == whole
        invariant |buffer| <= PacketBound(limits.max)
        invariant TakePacket(buffer, limits).Wait? || Decided(buffer, limits)
        decreases |stream|
      {
        var target := TargetOf(buffer, limits.version, limits.max);
        TargetIsAhead(buffer, limits.version, limits.max);
        if target.Rejected? {
          PacketStands(buffer, stream, limits);
          MessagesStop(whole, limits);
          return Broken;
        }
        var goal := target.length;
        if target.Packet? && |buffer| >= goal {
          PacketStands(buffer, stream, limits);
          var packet := buffer;
          buffer := [];
          assert packet[..goal] == packet && whole[goal..] == stream;
          var m := Parsed(packet, goal, limits);
          if m.None? {
            MessagesStop(whole, limits);
            return Broken;
          }
          MessagesGo(whole, goal, m.value, limits);
          return Got(m.value);
        }
        if interruptible {
          if * { return Interrupted; }
        }
        if faulty {
          if * { return Dropped; }
        }
        var wanted := if goal - |buffer| < READ_CHUNK_BYTES then goal - |buffer| else READ_CHUNK_BYTES;
        var chunk := Read(wanted);
        if chunk == [] {
          assert whole == buffer;
          MessagesStop(whole, limits);
          return if buffer == [] then Finished else Broken;
        }
        ReadStaysWithin(buffer, chunk, limits);
        buffer := buffer + chunk;
      }
    }
  }

  /** The messages of a whole stream up to its first error, and what is left unfinished. */
  ghost function Messages(b: bytes, l: Limits): Progress<(), Message> {
    TakerIsStable(l);
    Drain(Taker(l), (), b)
  }

  lemma MessagesGo(b: bytes, n: nat, m: Message, l: Limits)
    requires TakePacket(b, l) == Go((), n, [m]) && n <= |b|
    ensures Messages(b, l) == Prefixed([m], Messages(b[n..], l))
  {
    TakerIsStable(l);
    assert Taker(l)((), b) == TakePacket(b, l);
    DrainGoes(Taker(l), (), b, (), n, [m]);
  }

  lemma MessagesStop(b: bytes, l: Limits)
    requires !TakePacket(b, l).Go?
    ensures Messages(b, l) == Progress([], if TakePacket(b, l).Wait? then Waiting((), b) else Failed)
  {
    TakerIsStable(l);
    assert Taker(l)((), b) == TakePacket(b, l);
    DrainStops(Taker(l), (), b);
  }

  /** Every way of cutting the stream into fragments gives these same messages. */
  lemma FragmentationIsIrrelevant(fragments: seq<bytes>, l: Limits)
    ensures Consuming(Taker(l)) && Fed(Taker(l), (), fragments) == Messages(Joined(fragments), l)
  {
    TakerIsStable(l);
    ChunkingIsIrrelevant(Taker(l), (), fragments);
  }

  /**
   Reads to the end of the stream, resuming after every interruption. What was read is a beginning of the
   whole stream's messages; unless the connection is lost it is all of them up to the first error, and the
   end is clean exactly when the stream ends between packets.
   */
  method ReadAll(reader: MediaPacketReader, interruptions: nat, faulty: bool)
    returns (messages: seq<Message>, end: Ending)
    requires reader.Valid()
    modifies reader`stream, reader`buffer
    ensures messages <= Messages(old(reader.buffer) + old(reader.stream), reader.limits).out
    ensures end.Lost? ==> faulty
    ensures !end.Lost? ==> messages == Messages(old(reader.buffer) + old(reader.stream), reader.limits).out
    ensures !end.Lost? ==>
              (end.Clean? <==>
               Messages(old(reader.buffer) + old(reader.stream), reader.limits).status == Waiting((), []))
  {
    ghost var l := reader.limits;
    ghost var all := Messages(reader.buffer + reader.stream, l);
    messages := [];
    PrefixedNone(all);
    var left := interruptions;
    while true
      invariant reader.Valid()
      invariant all == Prefixed(messages, Messages(reader.buffer + reader.stream, l))
      decreases |reader.buffer + reader.stream|, left
    {
      var e := reader.NextMessage(left > 0, faulty);
      match e
      case Interrupted =>
        left := left - 1;
      case Got(m) =>
        assert reader.buffer + reader.stream == reader.stream;
        PrefixedTwice(messages, [m], Messages(reader.stream, l));
        messages := messages + [m];
      case Finished =>
        return messages, Clean;
      case Broken =>
        return messages, Malformed;
      case Dropped =>
        return messages, Lost;
    }
  }

  /** Bytes that are already no packet, or a packet up to at most its own end. */
  ghost predicate Decided(b: bytes, l: Limits) {
    var t := TargetOf(b, l.version, l.max);
    t.Rejected? || (t.Packet? && |b| <= t.length)
  }

  /** Reading no more than the target asks for never runs past the end of the packet. */
  lemma ReadStaysWithin(b: bytes, chunk: bytes, l: Limits)
    requires TakePacket(b, l).Wait? && |b + chunk| <= TargetOf(b, l.version, l.max).length
    ensures TakePacket(b + chunk, l).Wait? || Decided(b + chunk, l)
    ensures |b + chunk| <= PacketBound(l.max)
  {
    TargetIsAhead(b, l.version, l.max);
    TargetIsAhead(b + chunk, l.version, l.max);
    if TargetOf(b, l.version, l.max).Packet? {
      TargetStands(b, chunk, l.version, l.max);
    } else {
      HeaderThenPacket(b, chunk, l);
    }
  }

  /** A header read to its target leaves at least a whole header still to come before the packet ends. */
  lemma HeaderThenPacket(b: bytes, chunk: bytes, l: Limits)
    requires TargetOf(b, l.version, l.max).Header? && |b + chunk| <= TargetOf(b, l.version, l.max).length
    ensures TargetOf(b + chunk, l.version, l.max).Packet? ==>
            |b + chunk| <= TargetOf(b + chunk, l.version, l.max).length
  {
    if |b| >= PREFIX_BYTES {
      assert (b + chunk)[..5] == b[..5] && (b + chunk)[5] == b[5];
    }
  }
}
