/**
 The packets a producer builds, and that the parsers accept nothing else: an accepted packet is, byte for
 byte, the one built from its message, so no byte is ignored and no two packets say the same.
 */
module MediaEncodings {
  import opened Wrappers
  import opened BigEndian
  import opened CaptureTiming
  import opened MediaLeases
  import opened MediaPackets

  function CodecOf(f: PcmFormat): byte {
    if f.samples.Signed16? then 1 else 2
  }

  function FormatBytes(f: PcmFormat): bytes {
    [CodecOf(f)] + Encode(f.rate, 4) + Encode(f.channels, 2)
  }

  function KindOf(r: Record): byte {
    match r
    case FrameRecord(_, _, _) => 2
    case EpochRecord(_) => 6
    case PairRecord(_) => 7
    case GapRecord(_, _) => 8
    case FinishRecord(_) => 10
  }

  function Or(b: Option<bytes>): bytes {
    if b.Some? then b.value else []
  }

  function BodyOf(session: nat, r: Record): bytes {
    match r
    case FrameRecord(format, timing, payload) =>
      Encode(session, 8) + FormatBytes(format) + Or(EncodeFrame(timing)) + Encode(|payload|, 4) + payload
    case EpochRecord(epoch) => Encode(session, 8) + Or(EncodeEpoch(epoch))
    case PairRecord(pair) => Encode(session, 8) + Or(EncodePair(pair))
    case GapRecord(epoch, reason) => Encode(session, 8) + Encode(epoch, 8) + Encode(reason, 1)
    case FinishRecord(boundary) => EncodeFinish(boundary)
  }

  function LegacyFrame(direction: bytes, session: bytes, sequence: bytes, at: bytes, format: bytes, size: bytes,
                       payload: bytes): bytes {
    LEGACY_PREFIX + [2] + direction + session + sequence + at + format + size + payload
  }

  function Envelope(prefix: bytes, kind: byte, body: bytes): bytes {
    prefix + [kind] + Encode(|body|, 4) + body
  }

  function Built(m: Message, version: Version): bytes {
    match m
    case TimedMessage(session, record) =>
      Envelope(Or(TimedPrefix(version)), KindOf(record), BodyOf(session, record))
    case FrameMessage(direction, session, sequence, at, format, payload) =>
      LegacyFrame(Encode(direction, 1), Encode(session, 8), Encode(sequence, 8), Encode(at, 8), FormatBytes(format),
                  Encode(|payload|, 4), payload)
    case PlaybackAck(session, sequence, rendered) =>
      LEGACY_PREFIX + [3] + Encode(session, 8) + Encode(sequence, 8) + [if rendered then 2 else 1]
    case FlushAck(session, generation) =>
      LEGACY_PREFIX + [5] + Encode(session, 8) + Encode(generation, 8)
  }

  lemma FormatIsBuilt(codec: byte, rate: bytes, channels: bytes)
    requires |rate| == 4 && |channels| == 2 && FormatOf(codec, Decode(rate), Decode(channels)).Some?
    ensures FormatBytes(FormatOf(codec, Decode(rate), Decode(channels)).value) == [codec] + rate + channels
  {
    EncodeDecode(rate);
    EncodeDecode(channels);
  }

  lemma OneByte(b: byte)
    ensures Encode(b, 1) == [b]
  {
    assert Encode(b / 256, 0) == [];
  }

  lemma FrameCuts(p: bytes)
    requires |p| >= FRAME_HEADER_BYTES && p[..5] == LEGACY_PREFIX && p[5] == 2
    ensures LegacyFrame(p[6..7], p[7..15], p[15..23], p[23..31], p[31..38], p[38..42], p[42..]) == p
  {
    assert p[..5] + [2] + p[6..7] == p[..7];
    assert p[..7] + p[7..15] == p[..15];
    assert p[..15] + p[15..23] == p[..23];
    assert p[..23] + p[23..31] == p[..31];
    assert p[..31] + p[31..38] == p[..38];
    assert p[..38] + p[38..42] == p[..42];
  }

  /** The parts of a frame message whose fields were read from these bytes. */
  lemma FrameParts(p: bytes)
    requires |p| >= FRAME_HEADER_BYTES && Decode(p[38..42]) == |p| - FRAME_HEADER_BYTES
    requires FormatOf(p[31], Decode(p[32..36]), Decode(p[36..38])).Some?
    ensures Encode(p[6], 1) == p[6..7] && Encode(Decode(p[7..15]), 8) == p[7..15]
    ensures Encode(Decode(p[15..23]), 8) == p[15..23] && Encode(Decode(p[23..31]), 8) == p[23..31]
    ensures FormatBytes(FormatOf(p[31], Decode(p[32..36]), Decode(p[36..38])).value) == p[31..38]
    ensures Encode(|p[42..]|, 4) == p[38..42]
  {
    OneByte(p[6]);
    EncodeDecode(p[7..15]);
    EncodeDecode(p[15..23]);
    EncodeDecode(p[23..31]);
    EncodeDecode(p[38..42]);
    FormatIsBuilt(p[31], p[32..36], p[36..38]);
    assert [p[31]] + p[32..36] + p[36..38] == p[31..38];
  }

  lemma FrameIsBuilt(p: bytes, version: Version)
    requires |p| >= FRAME_HEADER_BYTES && p[..5] == LEGACY_PREFIX && p[5] == 2
             && Decode(p[38..42]) == |p| - FRAME_HEADER_BYTES
    requires ParseLegacyFrame(p).Some?
    ensures Built(ParseLegacyFrame(p).value, version) == p
  {
    FrameParts(p);
    FrameCuts(p);
  }

  lemma AckIsBuilt(p: bytes, version: Version, max: nat)
    requires Exact(p, version, max) && !IsTimed(p, version) && p[5] != FRAME_KIND && ParsePacket(p, version, max).Some?
    ensures Built(ParsePacket(p, version, max).value, version) == p
  {
    EncodeDecode(p[6..14]);
    EncodeDecode(p[14..22]);
    if p[5] == PLAYBACK_ACK_KIND {
      assert p == p[..5] + [p[5]] + p[6..14] + p[14..22] + [p[22]];
    } else {
      assert p == p[..5] + [p[5]] + p[6..14] + p[14..22];
    }
  }

  lemma TimedFrameCuts(body: bytes)
    requires |body| >= TIMED_FRAME_OVERHEAD
    ensures body == body[..8] + ([body[8]] + body[9..13] + body[13..15]) + body[15..103] + body[103..107] + body[107..]
  {
    assert [body[8]] + body[9..13] + body[13..15] == body[8..15];
    assert body[..8] + body[8..15] == body[..15];
    assert body[..15] + body[15..103] == body[..103];
    assert body[..103] + body[103..107] == body[..107];
  }

  lemma TimedFrameParts(session: bytes, codec: byte, rate: bytes, channels: bytes, timing: bytes, size: bytes,
                        payload: bytes)
    requires |session| == 8 && |rate| == |size| == 4 && |channels| == 2 && DecodeFrame(timing).Some?
    requires FormatOf(codec, Decode(rate), Decode(channels)).Some? && Decode(size) == |payload|
    ensures
      var format := FormatOf(codec, Decode(rate), Decode(channels)).value;
      BodyOf(Decode(session), FrameRecord(format, DecodeFrame(timing).value, payload)) ==
        session + ([codec] + rate + channels) + timing + size + payload
  {
    EncodeDecode(session);
    FormatIsBuilt(codec, rate, channels);
    FrameEncodesDecoded(timing);
    EncodeDecode(size);
  }

  lemma TimedFrameIsBuilt(body: bytes, max: nat)
    requires |body| >= 8 && ParseTimedFrame(body, max).Some?
    ensures BodyOf(Decode(body[..8]), ParseTimedFrame(body, max).value) == body
  {
    TimedFrameCuts(body);
    TimedFrameParts(body[..8], body[8], body[9..13], body[13..15], body[15..103], body[103..107], body[107..]);
  }

  lemma MetadataIsBuilt(kind: byte, body: bytes)
    requires |body| >= 8 && ParseMetadata(kind, body).Some?
    ensures BodyOf(Decode(body[..8]), ParseMetadata(kind, body).value) == body
    ensures KindOf(ParseMetadata(kind, body).value) == kind
  {
    EncodeDecode(body[..8]);
    assert body == body[..8] + body[8..];
    if kind == 6 {
      EpochEncodesDecoded(body[8..]);
    } else if kind == 7 {
      PairEncodesDecoded(body[8..]);
    } else {
      EncodeDecode(body[8..16]);
      OneByte(body[16]);
      assert body == body[..8] + body[8..16] + [body[16]];
    }
  }

  lemma BodyIsBuilt(kind: byte, body: bytes, max: nat)
    requires |body| >= 8 && ParseTimed(kind, body, max).Some?
    ensures ParseTimed(kind, body, max).value.TimedMessage?
    ensures
      var m := ParseTimed(kind, body, max).value;
      KindOf(m.record) == kind && BodyOf(m.session, m.record) == body
  {
    if kind == CAPTURE_FINISH_KIND {
      FinishEncodesDecoded(body);
    } else if kind == FRAME_KIND {
      TimedFrameIsBuilt(body, max);
    } else {
      MetadataIsBuilt(kind, body);
    }
  }

  lemma EnvelopeCuts(p: bytes)
    requires |p| >= TIMED_HEADER_BYTES && Decode(p[6..10]) == |p| - TIMED_HEADER_BYTES
    ensures Envelope(p[..5], p[5], p[10..]) == p
  {
    EncodeDecode(p[6..10]);
    assert p[..5] + [p[5]] == p[..6];
    assert p[..6] + p[6..10] == p[..10];
  }

  lemma TimedIsBuilt(p: bytes, version: Version, max: nat)
    requires Exact(p, version, max) && IsTimed(p, version) && ParseTimed(p[5], p[10..], max).Some?
    ensures Built(ParseTimed(p[5], p[10..], max).value, version) == p
  {
    EnvelopeCuts(p);
    BodyIsBuilt(p[5], p[10..], max);
  }

  /** Every accepted packet is the packet built from the message it parses to. */
  lemma AcceptedPacketIsBuilt(p: bytes, version: Version, max: nat)
    requires Exact(p, version, max) && ParsePacket(p, version, max).Some?
    ensures Built(ParsePacket(p, version, max).value, version) == p
  {
    if IsTimed(p, version) {
      TimedIsBuilt(p, version, max);
    } else if p[5] == FRAME_KIND {
      FrameIsBuilt(p, version);
    } else {
      AckIsBuilt(p, version, max);
    }
  }
}
