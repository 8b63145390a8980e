/** A producer's packets: every message it may send is accepted and parses to that message, and nothing else is. */
module MediaProducers {
  import opened Wrappers
  import opened BigEndian
  import opened CaptureTiming
  import opened MediaLeases
  import opened MediaPackets
  import opened MediaEncodings

  const U16_MAX: nat := 0xFFFF

  predicate FitsFormat(f: PcmFormat) {
    f.rate != 0 && 0 < f.channels <= U16_MAX
  }

  predicate FitsRecord(r: Record, version: Version, max: nat) {
    match r
    case FrameRecord(format, timing, payload) =>
      && FitsFormat(format) && ValidPcm(timing, format, |payload|)
      && 0 < |payload| <= max && TIMED_FRAME_OVERHEAD + |payload| <= U32_MAX
    case EpochRecord(epoch) => ValidEpoch(epoch)
    case PairRecord(pair) => ValidPair(pair)
    case GapRecord(epoch, reason) => 0 < epoch <= U64_MAX && 1 <= reason <= 9
    case FinishRecord(boundary) => version.DrainableTimed? && ValidBoundary(boundary) && boundary.session != 0
  }

  /** What a producer may send on a connection of this version. */
  predicate Sendable(m: Message, version: Version, max: nat) {
    match m
    case TimedMessage(session, record) =>
      && !version.Legacy? && session <= U64_MAX && FitsRecord(record, version, max)
      && (record.FinishRecord? ==> session == record.boundary.session)
    case FrameMessage(direction, session, sequence, at, format, payload) =>
      && direction in {1, 2} && session <= U64_MAX && sequence <= U64_MAX && at <= U64_MAX
      && FitsFormat(format) && 0 < |payload| <= max && |payload| <= U32_MAX
    case PlaybackAck(session, sequence, _) => session <= U64_MAX && sequence <= U64_MAX
    case FlushAck(session, generation) => session <= U64_MAX && generation <= U64_MAX
  }

  lemma Decoded(n: nat, width: nat)
    requires width in {2, 4, 8}
    requires width == 2 ==> n <= U16_MAX
    requires width == 4 ==> n <= U32_MAX
    requires width == 8 ==> n <= U64_MAX
    ensures Decode(Encode(n, width)) == n
  {
    Widths();
    assert Span(2) == 0x1_0000;
    DecodeEncode(n, width);
  }

  lemma FrameSlices(d: bytes, se: bytes, sq: bytes, at: bytes, f: bytes, sz: bytes, payload: bytes)
    requires |d| == 1 && |se| == |sq| == |at| == 8 && |f| == 7 && |sz| == 4
    ensures
      var p := LegacyFrame(d, se, sq, at, f, sz, payload);
      && |p| == FRAME_HEADER_BYTES + |payload| && p[..5] == LEGACY_PREFIX && p[5] == 2 && p[6] == d[0]
      && p[7..15] == se && p[15..23] == sq && p[23..31] == at && p[31..38] == f && p[38..42] == sz && p[42..] == payload
  {
  }

  lemma SliceOfSlice(p: bytes, at: nat, width: nat, i: nat, j: nat)
    requires at + width <= |p| && i <= j <= width
    ensures p[at..at + width][i..j] == p[at + i..at + j]
  {
    var inner, outer := p[at..at + width][i..j], p[at + i..at + j];
    assert |inner| == |outer| && forall k :: 0 <= k < |inner| ==> inner[k] == outer[k];
  }

  lemma FormatSlices(f: PcmFormat, p: bytes, at: nat)
    requires FitsFormat(f) && at + 7 <= |p| && p[at..at + 7] == FormatBytes(f)
    ensures FormatOf(p[at], Decode(p[at + 1..at + 5]), Decode(p[at + 5..at + 7])) == Some(f)
  {
    var b := FormatBytes(f);
    assert p[at] == p[at..at + 7][0];
    SliceOfSlice(p, at, 7, 1, 5);
    SliceOfSlice(p, at, 7, 5, 7);
    assert b[1..5] == Encode(f.rate, 4) && b[5..7] == Encode(f.channels, 2);
    Decoded(f.rate, 4);
    Decoded(f.channels, 2);
  }

  lemma FrameIsAccepted(m: Message, version: Version, max: nat)
    requires Sendable(m, version, max) && m.FrameMessage?
    ensures Exact(Built(m, version), version, max) && ParsePacket(Built(m, version), version, max) == Some(m)
  {
    var p := Built(m, version);
    OneByte(m.direction);
    FrameSlices(Encode(m.direction, 1), Encode(m.session, 8), Encode(m.sequence, 8), Encode(m.capturedAt, 8),
                FormatBytes(m.format), Encode(|m.payload|, 4), m.payload);
    FormatSlices(m.format, p, 31);
    Decoded(m.session, 8);
    Decoded(m.sequence, 8);
    Decoded(m.capturedAt, 8);
    Decoded(|m.payload|, 4);
  }

  lemma AckSlices(kind: byte, a: bytes, b: bytes, last: bytes)
    requires |a| == |b| == 8
    ensures
      var p := LEGACY_PREFIX + [kind] + a + b + last;
      && |p| == 22 + |last| && p[..5] == LEGACY_PREFIX && p[5] == kind
      && p[6..14] == a && p[14..22] == b && p[22..] == last
  {
  }

  lemma PlaybackAckIsAccepted(m: Message, version: Version, max: nat)
    requires Sendable(m, version, max) && m.PlaybackAck?
    ensures Exact(Built(m, version), version, max) && ParsePacket(Built(m, version), version, max) == Some(m)
  {
    Decoded(m.session, 8);
    Decoded(m.sequence, 8);
    AckSlices(3, Encode(m.session, 8), Encode(m.sequence, 8), [if m.rendered then 2 else 1]);
    assert Built(m, version)[22] == Built(m, version)[22..][0];
  }

  lemma FlushAckIsAccepted(m: Message, version: Version, max: nat)
    requires Sendable(m, version, max) && m.FlushAck?
    ensures Exact(Built(m, version), version, max) && ParsePacket(Built(m, version), version, max) == Some(m)
  {
    Decoded(m.session, 8);
    Decoded(m.generation, 8);
    AckSlices(5, Encode(m.session, 8), Encode(m.generation, 8), []);
    assert Built(m, version) == LEGACY_PREFIX + [5] + Encode(m.session, 8) + Encode(m.generation, 8) + [];
  }

  lemma TimedFrameSlices(session: bytes, format: bytes, timing: bytes, size: bytes, payload: bytes)
    requires |session| == 8 && |format| == 7 && |timing| == 88 && |size| == 4
    ensures
      var b := session + format + timing + size + payload;
      && |b| == TIMED_FRAME_OVERHEAD + |payload| && b[..8] == session && b[8..15] == format && b[15..103] == timing
      && b[103..107] == size && b[107..] == payload
  {
  }

  lemma TimedFrameParses(session: nat, r: Record, version: Version, max: nat)
    requires session <= U64_MAX && r.FrameRecord? && FitsRecord(r, version, max)
    ensures
      var b := BodyOf(session, r);
      && |b| == TIMED_FRAME_OVERHEAD + |r.payload| && Decode(b[..8]) == session && ParseTimedFrame(b, max) == Some(r)
  {
    FrameDecodesEncoded(r.timing);
    TimedFrameSlices(Encode(session, 8), FormatBytes(r.format), Or(EncodeFrame(r.timing)), Encode(|r.payload|, 4),
                     r.payload);
    FormatSlices(r.format, BodyOf(session, r), 8);
    Decoded(session, 8);
    Decoded(|r.payload|, 4);
  }

  lemma Behind(session: bytes, rest: bytes)
    requires |session| == 8
    ensures (session + rest)[..8] == session && (session + rest)[8..] == rest
  {
  }

  const PAIR_STARTS: seq<nat> := [0, 8, 16, 24, 32, 40, 48, 49, 57]

  lemma PairSize(p: ClockPair)
    requires ValidPair(p)
    ensures |Or(EncodePair(p))| <= 139
  {
    PairFieldsAgree(p);
    PlacesTotal(PAIR_WIDTHS, PAIR_STARTS, 8);
    assert PAIR_WIDTHS[..8] == PAIR_WIDTHS;
  }

  lemma MetadataSizes(r: Record)
    requires (r.EpochRecord? && ValidEpoch(r.epoch)) || (r.PairRecord? && ValidPair(r.pair))
    ensures r.EpochRecord? ==> |Or(EncodeEpoch(r.epoch))| <= 139
    ensures r.PairRecord? ==> |Or(EncodePair(r.pair))| <= 139
  {
    if r.PairRecord? {
      PairSize(r.pair);
    }
  }

  lemma GapParses(session: nat, r: Record, version: Version, max: nat)
    requires session <= U64_MAX && FitsRecord(r, version, max) && r.GapRecord?
    ensures
      var b := BodyOf(session, r);
      8 <= |b| <= MAX_METADATA_BYTES && Decode(b[..8]) == session && ParseMetadata(KindOf(r), b) == Some(r)
  {
    var b := BodyOf(session, r);
    Decoded(session, 8);
    Decoded(r.captureEpoch, 8);
    OneByte(r.reason);
    assert b[..8] == Encode(session, 8) && b[8..16] == Encode(r.captureEpoch, 8) && b[16] == r.reason;
  }

  lemma MetadataParses(session: nat, r: Record, version: Version, max: nat)
    requires session <= U64_MAX && FitsRecord(r, version, max) && (r.EpochRecord? || r.PairRecord? || r.GapRecord?)
    ensures
      var b := BodyOf(session, r);
      8 <= |b| <= MAX_METADATA_BYTES && Decode(b[..8]) == session && ParseMetadata(KindOf(r), b) == Some(r)
  {
    Decoded(session, 8);
    match r
    case EpochRecord(epoch) =>
      EpochDecodesEncoded(epoch);
      MetadataSizes(r);
      Behind(Encode(session, 8), Or(EncodeEpoch(epoch)));
    case PairRecord(pair) =>
      PairDecodesEncoded(pair);
      MetadataSizes(r);
      Behind(Encode(session, 8), Or(EncodePair(pair)));
    case GapRecord(_, _) =>
      GapParses(session, r, version, max);
  }

  /** The length a timed record of a kind may have. */
  predicate FitsKind(kind: byte, length: nat, version: Version, max: nat) {
    && 8 <= length <= U32_MAX && kind in {2, 6, 7, 8, 10}
    && (kind == 10 ==> version.DrainableTimed? && length == FINISH_BODY_BYTES)
    && (kind == 2 ==> length <= max + TIMED_FRAME_OVERHEAD)
    && (kind in {6, 7, 8} ==> length <= MAX_METADATA_BYTES)
  }

  lemma FinishParses(r: Record, version: Version, max: nat)
    requires r.FinishRecord? && FitsRecord(r, version, max)
    ensures
      var b := EncodeFinish(r.boundary);
      FitsKind(10, |b|, version, max) && ParseTimed(10, b, max) == Some(TimedMessage(r.boundary.session, r))
  {
    FinishDecodesEncoded(r.boundary);
    FinishLayout(r.boundary);
  }

  lemma BodyParses(session: nat, r: Record, version: Version, max: nat)
    requires session <= U64_MAX && FitsRecord(r, version, max) && (r.FinishRecord? ==> session == r.boundary.session)
    ensures
      var b := BodyOf(session, r);
      FitsKind(KindOf(r), |b|, version, max) && ParseTimed(KindOf(r), b, max) == Some(TimedMessage(session, r))
  {
    if r.FrameRecord? {
      TimedFrameParses(session, r, version, max);
    } else if r.FinishRecord? {
      FinishParses(r, version, max);
    } else {
      MetadataParses(session, r, version, max);
    }
  }

  lemma EnvelopeSlices(prefix: bytes, kind: byte, body: bytes)
    requires |prefix| == 5 && |body| <= U32_MAX
    ensures
      var p := Envelope(prefix, kind, body);
      && |p| == TIMED_HEADER_BYTES + |body| && p[..5] == prefix && p[5] == kind && p[10..] == body
      && Decode(p[6..10]) == |body|
  {
    var p := Envelope(prefix, kind, body);
    assert p[6..10] == Encode(|body|, 4);
    Decoded(|body|, 4);
  }

  lemma EnvelopeIsExact(version: Version, kind: byte, body: bytes, max: nat, p: bytes)
    requires !version.Legacy? && FitsKind(kind, |body|, version, max)
             && p == Envelope(TimedPrefix(version).value, kind, body)
    ensures Exact(p, version, max) && IsTimed(p, version) && p[5] == kind && p[10..] == body
  {
    EnvelopeSlices(TimedPrefix(version).value, kind, body);
  }

  lemma TimedIsAccepted(m: Message, version: Version, max: nat, p: bytes)
    requires Sendable(m, version, max) && m.TimedMessage? && p == Built(m, version)
    ensures Exact(p, version, max) && ParsePacket(p, version, max) == Some(m)
  {
    BodyParses(m.session, m.record, version, max);
    EnvelopeIsExact(version, KindOf(m.record), BodyOf(m.session, m.record), max, p);
  }

  /** The packet built from any message a producer may send is accepted, and parses to that message. */
  lemma SendableIsAccepted(m: Message, version: Version, max: nat)
    requires Sendable(m, version, max)
    ensures Exact(Built(m, version), version, max) && ParsePacket(Built(m, version), version, max) == Some(m)
  {
    match m
    case TimedMessage(_, _) => TimedIsAccepted(m, version, max, Built(m, version));
    case FrameMessage(_, _, _, _, _, _) => FrameIsAccepted(m, version, max);
    case PlaybackAck(_, _, _) => PlaybackAckIsAccepted(m, version, max);
    case FlushAck(_, _) => FlushAckIsAccepted(m, version, max);
  }

  // ---------------------------------------------------------------- nothing else is accepted

  lemma Within(b: bytes)
    ensures |b| == 2 ==> Decode(b) <= U16_MAX
    ensures |b| == 4 ==> Decode(b) <= U32_MAX
    ensures |b| == 8 ==> Decode(b) <= U64_MAX
  {
    Widths();
    assert Span(2) == 0x1_0000;
  }

  lemma ParsedFrameFits(body: bytes, version: Version, max: nat)
    requires TIMED_FRAME_OVERHEAD <= |body| <= U32_MAX && ParseTimedFrame(body, max).Some?
    ensures FitsRecord(ParseTimedFrame(body, max).value, version, max)
  {
    Within(body[13..15]);
  }

  lemma ParsedMetadataFits(kind: nat, body: bytes, version: Version, max: nat)
    requires |body| >= 8 && ParseMetadata(kind, body).Some?
    ensures FitsRecord(ParseMetadata(kind, body).value, version, max)
  {
    if kind == 6 {
      EpochEncodesDecoded(body[8..]);
    } else if kind == 7 {
      PairEncodesDecoded(body[8..]);
    } else {
      Within(body[8..16]);
    }
  }

  lemma ParsedTimedFits(kind: nat, body: bytes, version: Version, max: nat)
    requires 8 <= |body| <= U32_MAX && !version.Legacy? && (kind == CAPTURE_FINISH_KIND ==> version.DrainableTimed?)
    requires ParseTimed(kind, body, max).Some?
    ensures Sendable(ParseTimed(kind, body, max).value, version, max)
  {
    Within(body[..8]);
    if kind == CAPTURE_FINISH_KIND {
      FinishEncodesDecoded(body);
    } else if kind == FRAME_KIND {
      ParsedFrameFits(body, version, max);
    } else {
      ParsedMetadataFits(kind, body, version, max);
    }
  }

  lemma ParsedLegacyFrameFits(p: bytes, version: Version, max: nat)
    requires |p| >= FRAME_HEADER_BYTES && p[6] in {1, 2} && ParseLegacyFrame(p).Some?
    requires 0 < |p| - FRAME_HEADER_BYTES <= max && |p| - FRAME_HEADER_BYTES <= U32_MAX
    ensures Sendable(ParseLegacyFrame(p).value, version, max)
  {
    Within(p[7..15]);
    Within(p[15..23]);
    Within(p[23..31]);
    Within(p[36..38]);
  }

  lemma TimedFits(p: bytes, version: Version, max: nat)
    requires Exact(p, version, max) && IsTimed(p, version) && ParseTimed(p[5], p[10..], max).Some?
    ensures Sendable(ParseTimed(p[5], p[10..], max).value, version, max)
  {
    Within(p[6..10]);
    ParsedTimedFits(p[5], p[10..], version, max);
  }

  lemma LegacyFrameFits(p: bytes, version: Version, max: nat)
    requires Exact(p, version, max) && !IsTimed(p, version) && p[5] == FRAME_KIND && ParseLegacyFrame(p).Some?
    ensures Sendable(ParseLegacyFrame(p).value, version, max)
  {
    Within(p[38..42]);
    ParsedLegacyFrameFits(p, version, max);
  }

  lemma AckFits(p: bytes, version: Version, max: nat)
    requires Exact(p, version, max) && !IsTimed(p, version) && p[5] != FRAME_KIND
    requires ParsePacket(p, version, max).Some?
    ensures Sendable(ParsePacket(p, version, max).value, version, max)
  {
    Within(p[6..14]);
    Within(p[14..22]);
  }

  /**
   The converse: a packet is accepted only if it is the one built from a message a producer may send. So
   the accepted packets are exactly the built packets of the sendable messages.
   */
  lemma AcceptedIsSendable(p: bytes, version: Version, max: nat)
    requires Exact(p, version, max) && ParsePacket(p, version, max).Some?
    ensures Sendable(ParsePacket(p, version, max).value, version, max)
    ensures Built(ParsePacket(p, version, max).value, version) == p
  {
    AcceptedPacketIsBuilt(p, version, max);
    if IsTimed(p, version) {
      TimedFits(p, version, max);
    } else if p[5] == FRAME_KIND {
      LegacyFrameFits(p, version, max);
    } else {
      AckFits(p, version, max);
    }
  }
}
