/** Media packets at the front of a byte stream: how long the packet there is, and what it says. */
module MediaPackets {
  import opened Wrappers
  import opened BigEndian
  import opened CaptureTiming
  import opened MediaLeases

  const PREFIX_BYTES: nat := 6
  const TIMED_HEADER_BYTES: nat := 10
  const FRAME_HEADER_BYTES: nat := 42
  const FINISH_BODY_BYTES: nat := 41
  const TIMED_FRAME_OVERHEAD: nat := 107
  const MAX_METADATA_BYTES: nat := 256
  const READ_CHUNK_BYTES: nat := 4096

  const FRAME_KIND: nat := 2
  const PLAYBACK_ACK_KIND: nat := 3
  const FLUSH_ACK_KIND: nat := 5
  const CAPTURE_FINISH_KIND: nat := 10

  const LEGACY_PREFIX: bytes := [0x4D, 0x45, 0x44, 0x31, 1]

  function TimedPrefix(version: Version): Option<bytes> {
    match version
    case Legacy => None
    case Timed => Some([0x4D, 0x45, 0x44, 0x32, 2])
    case DrainableTimed => Some([0x4D, 0x45, 0x44, 0x33, 3])
  }

  /** Either the bytes so far are no packet, more header is needed up to a length, or the packet's length is known. */
  datatype Target = Rejected | Header(length: nat) | Packet(length: nat)

  predicate IsTimed(b: bytes, version: Version)
    requires |b| >= PREFIX_BYTES
  {
    TimedPrefix(version) == Some(b[..5])
  }

  function TimedTarget(b: bytes, version: Version, max: nat): Target
    requires |b| >= PREFIX_BYTES
  {
    if |b| < TIMED_HEADER_BYTES then Header(TIMED_HEADER_BYTES)
    else
      var kind, length := b[5], Decode(b[6..10]);
      if kind == CAPTURE_FINISH_KIND then
        if !version.DrainableTimed? || length != FINISH_BODY_BYTES then Rejected
        else Packet(TIMED_HEADER_BYTES + length)
      else if kind !in {2, 6, 7, 8} || length < 8
              || length > (if kind == 2 then max + TIMED_FRAME_OVERHEAD else MAX_METADATA_BYTES)
      then Rejected
      else Packet(TIMED_HEADER_BYTES + length)
  }

  function LegacyTarget(b: bytes, max: nat): Target
    requires |b| >= PREFIX_BYTES
  {
    if b[..5] != LEGACY_PREFIX then Rejected
    else if b[5] == FRAME_KIND then
      if |b| < FRAME_HEADER_BYTES then Header(FRAME_HEADER_BYTES)
      else if b[6] !in {1, 2} || b[31] !in {1, 2} then Rejected
      else
        var length := Decode(b[38..42]);
        if length == 0 || length > max then Rejected else Packet(FRAME_HEADER_BYTES + length)
    else if b[5] == PLAYBACK_ACK_KIND then Packet(PREFIX_BYTES + 17)
    else if b[5] == FLUSH_ACK_KIND then Packet(PREFIX_BYTES + 16)
    else Rejected
  }

  function TargetOf(b: bytes, version: Version, max: nat): Target {
    if |b| < PREFIX_BYTES then Header(PREFIX_BYTES)
    else if IsTimed(b, version) then TimedTarget(b, version, max)
    else LegacyTarget(b, max)
  }

  /** No packet is longer than this, and no header. */
  function PacketBound(max: nat): nat {
    TIMED_HEADER_BYTES
    + if max + TIMED_FRAME_OVERHEAD > MAX_METADATA_BYTES then max + TIMED_FRAME_OVERHEAD else MAX_METADATA_BYTES
  }

  /** A header target is always ahead of the bytes at hand, and every target is within the packet bound. */
  lemma TargetIsAhead(b: bytes, version: Version, max: nat)
    ensures TargetOf(b, version, max).Header? ==> |b| < TargetOf(b, version, max).length
    ensures !TargetOf(b, version, max).Rejected? ==>
            PREFIX_BYTES <= TargetOf(b, version, max).length <= PacketBound(max)
  {
  }

  lemma TargetStands(b: bytes, x: bytes, version: Version, max: nat)
    requires !TargetOf(b, version, max).Header?
    ensures TargetOf(b + x, version, max) == TargetOf(b, version, max)
  {
    assert (b + x)[..5] == b[..5];
    if IsTimed(b, version) {
      assert (b + x)[6..10] == b[6..10];
    } else if b[5] == FRAME_KIND && |b| >= FRAME_HEADER_BYTES {
      assert (b + x)[38..42] == b[38..42];
    }
  }

  // ---------------------------------------------------------------- what a packet says

  datatype Record =
    | FrameRecord(format: PcmFormat, timing: FrameProvenance, payload: bytes)
    | EpochRecord(epoch: CaptureEpoch)
    | PairRecord(pair: ClockPair)
    | GapRecord(captureEpoch: nat, reason: nat)
    | FinishRecord(boundary: FinishBoundary)

  datatype Message =
    | TimedMessage(session: nat, record: Record)
    | FrameMessage(direction: nat, session: nat, sequence: nat, capturedAt: nat, format: PcmFormat, payload: bytes)
    | PlaybackAck(session: nat, sequence: nat, rendered: bool)
    | FlushAck(session: nat, generation: nat)

  function FormatOf(codec: nat, rate: nat, channels: nat): Option<PcmFormat> {
    if codec !in {1, 2} || rate == 0 || rate > U32_MAX || channels == 0 then None
    else Some(PcmFormat(rate, channels, if codec == 1 then Signed16 else Float32))
  }

  function ParseTimedFrame(body: bytes, max: nat): Option<Record> {
    if |body| < TIMED_FRAME_OVERHEAD then None
    else
      var format := FormatOf(body[8], Decode(body[9..13]), Decode(body[13..15]));
      var timing := DecodeFrame(body[15..103]);
      var size := Decode(body[103..107]);
      if format.None? || timing.None? || size == 0 || size > max || |body| != TIMED_FRAME_OVERHEAD + size
         || !ValidPcm(timing.value, format.value, size) then None
      else Some(FrameRecord(format.value, timing.value, body[107..]))
  }

  function ParseMetadata(kind: nat, body: bytes): Option<Record>
    requires |body| >= 8
  {
    if kind == 6 then
      var e := DecodeEpoch(body[8..]);
      if e.Some? then Some(EpochRecord(e.value)) else None
    else if kind == 7 then
      var p := DecodePair(body[8..]);
      if p.Some? then Some(PairRecord(p.value)) else None
    else if kind == 8 && |body| == 17 && Decode(body[8..16]) != 0 && 1 <= body[16] <= 9 then
      Some(GapRecord(Decode(body[8..16]), body[16]))
    else None
  }

  function ParseTimed(kind: nat, body: bytes, max: nat): Option<Message>
    requires |body| >= 8
  {
    if kind == CAPTURE_FINISH_KIND then
      var b := DecodeFinish(body);
      if b.Some? then Some(TimedMessage(b.value.session, FinishRecord(b.value))) else None
    else
      var record := if kind == FRAME_KIND then ParseTimedFrame(body, max) else ParseMetadata(kind, body);
      if record.Some? then Some(TimedMessage(Decode(body[..8]), record.value)) else None
  }

  function ParseLegacyFrame(p: bytes): Option<Message>
    requires |p| >= FRAME_HEADER_BYTES
  {
    var format := FormatOf(p[31], Decode(p[32..36]), Decode(p[36..38]));
    if format.None? then None
    else Some(FrameMessage(p[6], Decode(p[7..15]), Decode(p[15..23]), Decode(p[23..31]), format.value, p[42..]))
  }

  /** A packet of exactly the length its own header announces. */
  predicate Exact(p: bytes, version: Version, max: nat) {
    TargetOf(p, version, max) == Packet(|p|)
  }

  function ParsePacket(p: bytes, version: Version, max: nat): Option<Message>
    requires Exact(p, version, max)
  {
    if IsTimed(p, version) then ParseTimed(p[5], p[10..], max)
    else if p[5] == FRAME_KIND then ParseLegacyFrame(p)
    else if p[5] == PLAYBACK_ACK_KIND then
      if p[22] !in {1, 2} then None else Some(PlaybackAck(Decode(p[6..14]), Decode(p[14..22]), p[22] == 2))
    else Some(FlushAck(Decode(p[6..14]), Decode(p[14..22])))
  }
}
