/**
 The media packets byte by byte: which bytes are a packet of which message. A packet is accepted as a message
 exactly when it is laid out so and the message is one a producer may send.
 */
module PacketForms {
  import opened Wrappers
  import opened BigEndian
  import opened CaptureTiming
  import opened MediaLeases
  import opened MediaPackets
  import opened MediaProducers

  /** The bytes `i..j` are this number, the highest byte first. */
  predicate Holds(p: bytes, i: nat, j: nat, n: nat) {
    i <= j <= |p| && Decode(p[i..j]) == n
  }

  /** Untimed packets: the mark, the kind, and their fields at fixed places. */
  predicate LegacyBytes(p: bytes, m: Message) {
    && |p| >= 6 && p[..5] == [0x4D, 0x45, 0x44, 0x31, 1]
    && match m
       case FrameMessage(direction, session, sequence, at, format, payload) =>
         && p[5] == 2 && |p| == 42 + |payload| && p[6] == direction && Holds(p, 7, 15, session)
         && Holds(p, 15, 23, sequence) && Holds(p, 23, 31, at)
         && p[31] == (if format.samples == Signed16 then 1 else 2) && Holds(p, 32, 36, format.rate)
         && Holds(p, 36, 38, format.channels) && Holds(p, 38, 42, |payload|) && p[42..] == payload
       case PlaybackAck(session, sequence, rendered) =>
         && p[5] == 3 && |p| == 23 && Holds(p, 6, 14, session) && Holds(p, 14, 22, sequence)
         && p[22] == if rendered then 2 else 1
       case FlushAck(session, generation) =>
         p[5] == 5 && |p| == 22 && Holds(p, 6, 14, session) && Holds(p, 14, 22, generation)
       case TimedMessage(_, _) => false
  }

  /** The kind of a timed record. */
  predicate KindByte(kind: nat, r: Record) {
    match r
    case FrameRecord(_, _, _) => kind == 2
    case EpochRecord(_) => kind == 6
    case PairRecord(_) => kind == 7
    case GapRecord(_, _) => kind == 8
    case FinishRecord(_) => kind == 10
  }

  /** The body of a timed record: the session, and the fields of the record at fixed places. */
  predicate BodyBytes(b: bytes, session: nat, r: Record) {
    && Holds(b, 0, 8, session)
    && match r
       case FrameRecord(format, timing, payload) =>
         && |b| == 107 + |payload| && b[8] == (if format.samples == Signed16 then 1 else 2)
         && Holds(b, 9, 13, format.rate) && Holds(b, 13, 15, format.channels)
         && DecodeFrame(b[15..103]) == Some(timing) && Holds(b, 103, 107, |payload|) && b[107..] == payload
       case EpochRecord(epoch) => DecodeEpoch(b[8..]) == Some(epoch)
       case PairRecord(pair) => DecodePair(b[8..]) == Some(pair)
       case GapRecord(epoch, reason) => |b| == 17 && Holds(b, 8, 16, epoch) && b[16] == reason
       case FinishRecord(boundary) => DecodeFinish(b) == Some(boundary)
  }

  /** The head of a timed packet: the mark of its version, a kind, and the length of the body. */
  predicate HeadBytes(p: bytes, version: Version) {
    && |p| >= 10 && Holds(p, 6, 10, |p| - 10)
    && match version
       case Legacy => false
       case Timed => p[..5] == [0x4D, 0x45, 0x44, 0x32, 2]
       case DrainableTimed => p[..5] == [0x4D, 0x45, 0x44, 0x33, 3]
  }

  predicate TimedBytes(p: bytes, m: Message, version: Version) {
    m.TimedMessage? && HeadBytes(p, version) && KindByte(p[5], m.record) && BodyBytes(p[10..], m.session, m.record)
  }

  /** The packet is laid out as the message says. */
  predicate Laid(p: bytes, m: Message, version: Version) {
    LegacyBytes(p, m) || TimedBytes(p, m, version)
  }

  // ---------------------------------------------------------------- accepted packets are laid out so

  lemma ParsedFrameIsLaid(p: bytes, version: Version, max: nat, m: Message)
    requires Exact(p, version, max) && !IsTimed(p, version) && p[5] == 2 && ParsePacket(p, version, max) == Some(m)
    ensures LegacyBytes(p, m)
  {
  }

  lemma ParsedAckIsLaid(p: bytes, version: Version, max: nat, m: Message)
    requires Exact(p, version, max) && !IsTimed(p, version) && p[5] != 2 && ParsePacket(p, version, max) == Some(m)
    ensures LegacyBytes(p, m)
  {
  }

  lemma ParsedBodyIsLaid(kind: nat, b: bytes, max: nat, m: Message)
    requires |b| >= 8 && kind in {2, 6, 7, 8, 10} && ParseTimed(kind, b, max) == Some(m)
    ensures m.TimedMessage? && KindByte(kind, m.record) && BodyBytes(b, m.session, m.record)
  {
    assert b[..8] == b[0..8];
    if kind == 10 {
      FinishSession(b);
    } else if kind == 2 {
      ParsedTimedFrameIsLaid(b, max);
    } else {
      ParsedMetadataIsLaid(kind, b);
    }
  }

  lemma ParsedTimedFrameIsLaid(b: bytes, max: nat)
    requires ParseTimedFrame(b, max).Some?
    ensures |b| >= 8 && BodyBytes(b, Decode(b[0..8]), ParseTimedFrame(b, max).value)
    ensures ParseTimedFrame(b, max).value.FrameRecord?
  {
  }

  lemma ParsedMetadataIsLaid(kind: nat, b: bytes)
    requires |b| >= 8 && ParseMetadata(kind, b).Some?
    ensures KindByte(kind, ParseMetadata(kind, b).value) && BodyBytes(b, Decode(b[0..8]), ParseMetadata(kind, b).value)
  {
  }

  lemma HeadIs(p: bytes, version: Version, max: nat)
    requires Exact(p, version, max) && IsTimed(p, version)
    ensures HeadBytes(p, version) && p[5] in {2, 6, 7, 8, 10} && |p| >= 18
  {
  }

  lemma ParsedTimedIsLaid(p: bytes, version: Version, max: nat, m: Message)
    requires Exact(p, version, max) && IsTimed(p, version) && ParsePacket(p, version, max) == Some(m)
    ensures TimedBytes(p, m, version)
  {
    HeadIs(p, version, max);
    ParsedBodyIsLaid(p[5], p[10..], max, m);
  }

  lemma FinishSession(b: bytes)
    requires DecodeFinish(b).Some?
    ensures |b| == 41 && Decode(b[..8]) == DecodeFinish(b).value.session
  {
    FinishEncodesDecoded(b);
    FinishLayout(DecodeFinish(b).value);
    assert b[..8] == b[0..8];
  }

  // ---------------------------------------------------------------- and packets laid out so are accepted

  lemma LegacyIsNotTimed(p: bytes, version: Version)
    requires |p| >= 6 && p[..5] == [0x4D, 0x45, 0x44, 0x31, 1]
    ensures !IsTimed(p, version) && p[..5] == LEGACY_PREFIX
  {
    assert p[..5][3] == 0x31;
  }

  lemma LaidFrameParses(p: bytes, version: Version, max: nat, m: Message)
    requires Sendable(m, version, max) && m.FrameMessage? && LegacyBytes(p, m)
    ensures Exact(p, version, max) && ParsePacket(p, version, max) == Some(m)
  {
    LegacyIsNotTimed(p, version);
  }

  lemma LaidAckParses(p: bytes, version: Version, max: nat, m: Message)
    requires Sendable(m, version, max) && (m.PlaybackAck? || m.FlushAck?) && LegacyBytes(p, m)
    ensures Exact(p, version, max) && ParsePacket(p, version, max) == Some(m)
  {
    LegacyIsNotTimed(p, version);
  }

  /** A laid out record of a sendable message has a length its kind may have. */
  lemma LaidBodyFits(b: bytes, session: nat, r: Record, version: Version, max: nat)
    requires BodyBytes(b, session, r) && FitsRecord(r, version, max)
    ensures 8 <= |b| && (r.FrameRecord? ==> |b| <= max + 107)
    ensures r.FinishRecord? ==> |b| == 41 && version.DrainableTimed?
    ensures r.EpochRecord? || r.PairRecord? || r.GapRecord? ==> |b| <= 256
  {
    match r
    case EpochRecord(_) => EpochLength(b[8..]);
    case PairRecord(_) => PairLength(b[8..]);
    case FinishRecord(_) => FinishSession(b);
    case _ =>
  }

  lemma LaidTimedIsExact(p: bytes, version: Version, max: nat, m: Message)
    requires Sendable(m, version, max) && TimedBytes(p, m, version)
    ensures Exact(p, version, max) && IsTimed(p, version)
  {
    LaidBodyFits(p[10..], m.session, m.record, version, max);
    HeadIsExact(p, version, max);
  }

  lemma HeadIsExact(p: bytes, version: Version, max: nat)
    requires HeadBytes(p, version) && p[5] in {2, 6, 7, 8, 10} && |p| >= 18
    requires p[5] == 2 ==> |p| <= max + 117
    requires p[5] in {6, 7, 8} ==> |p| <= 266
    requires p[5] == 10 ==> |p| == 51 && version.DrainableTimed?
    ensures Exact(p, version, max) && IsTimed(p, version)
  {
  }

  lemma EpochLength(b: bytes)
    requires DecodeEpoch(b).Some?
    ensures |b| <= 140
  {
  }

  lemma PairLength(b: bytes)
    requires DecodePair(b).Some?
    ensures |b| <= 140
  {
    PairSize();
  }

  lemma PairSize()
    ensures Total(PAIR_WIDTHS) == 57
  {
    assert Total([8]) == 8 && Total([1, 8]) == 9 && Total([8, 1, 8]) == 17 && Total([8, 8, 1, 8]) == 25;
    assert Total([8, 8, 8, 1, 8]) == 33 && Total([8, 8, 8, 8, 1, 8]) == 41 && Total([8, 8, 8, 8, 8, 1, 8]) == 49;
    assert PAIR_WIDTHS == [8, 8, 8, 8, 8, 8, 1, 8];
  }

  lemma LaidFrameBodyParses(b: bytes, session: nat, r: Record, version: Version, max: nat)
    requires BodyBytes(b, session, r) && FitsRecord(r, version, max) && r.FrameRecord?
    ensures ParseTimedFrame(b, max) == Some(r)
  {
    FormatReads(r.format, b[8]);
    assert |b| >= 107 && FormatOf(b[8], Decode(b[9..13]), Decode(b[13..15])) == Some(r.format);
    FrameReads(b, r.format, r.timing, r.payload, max);
  }

  lemma FormatReads(f: PcmFormat, codec: nat)
    requires FitsFormat(f) && codec == (if f.samples == Signed16 then 1 else 2)
    ensures FormatOf(codec, f.rate, f.channels) == Some(f)
  {
  }

  lemma FrameReads(b: bytes, format: PcmFormat, timing: FrameProvenance, payload: bytes, max: nat)
    requires |b| == 107 + |payload| && FormatOf(b[8], Decode(b[9..13]), Decode(b[13..15])) == Some(format)
    requires DecodeFrame(b[15..103]) == Some(timing) && Decode(b[103..107]) == |payload| && b[107..] == payload
    requires 0 < |payload| <= max && ValidPcm(timing, format, |payload|)
    ensures ParseTimedFrame(b, max) == Some(FrameRecord(format, timing, payload))
  {
  }

  lemma LaidMetadataParses(kind: nat, b: bytes, session: nat, r: Record, version: Version, max: nat)
    requires BodyBytes(b, session, r) && FitsRecord(r, version, max) && KindByte(kind, r)
    requires r.EpochRecord? || r.PairRecord? || r.GapRecord?
    ensures |b| >= 8 && ParseMetadata(kind, b) == Some(r)
  {
  }

  lemma LaidTimedParses(p: bytes, version: Version, max: nat, m: Message)
    requires Sendable(m, version, max) && TimedBytes(p, m, version) && Exact(p, version, max) && IsTimed(p, version)
    ensures ParsePacket(p, version, max) == Some(m)
  {
    var b := p[10..];
    assert b[..8] == b[0..8];
    if m.record.FrameRecord? {
      LaidFrameBodyParses(b, m.session, m.record, version, max);
    } else if m.record.FinishRecord? {
      FinishSession(b);
    } else {
      LaidMetadataParses(p[5], b, m.session, m.record, version, max);
    }
  }

  /** A packet is accepted as a message if and only if it is laid out so and the message may be sent. */
  lemma PacketExactly(p: bytes, version: Version, max: nat, m: Message)
    ensures Exact(p, version, max) && ParsePacket(p, version, max) == Some(m) <==>
              Laid(p, m, version) && Sendable(m, version, max)
  {
    if Exact(p, version, max) && ParsePacket(p, version, max) == Some(m) {
      AcceptedIsSendable(p, version, max);
      if IsTimed(p, version) {
        ParsedTimedIsLaid(p, version, max, m);
      } else if p[5] == 2 {
        ParsedFrameIsLaid(p, version, max, m);
      } else {
        ParsedAckIsLaid(p, version, max, m);
      }
    }
    if Laid(p, m, version) && Sendable(m, version, max) {
      if m.FrameMessage? {
        LaidFrameParses(p, version, max, m);
      } else if m.TimedMessage? {
        LaidTimedIsExact(p, version, max, m);
        LaidTimedParses(p, version, max, m);
      } else {
        LaidAckParses(p, version, max, m);
      }
    }
  }
}
