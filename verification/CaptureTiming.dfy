/**
 Producer-derived capture coordinates and their wire forms: frame provenance, capture epochs, clock
 pairs and the finish boundary.
 */
module CaptureTiming {
  import opened Wrappers
  import opened BigEndian

  const MAX_IDENTIFIER_BYTES: nat := 64
  const MAX_CLOCK_DOMAINS: nat := 256

  // ---------------------------------------------------------------- identifiers

  predicate Continuation(b: byte) {
    0x80 <= b <= 0xBF
  }

  /** Well-formed UTF-8 without a control character (U+0000..U+001F and U+007F..U+009F). */
  predicate PlainText(b: bytes) {
    if b == [] then true
    else if b[0] < 0x80 then 0x20 <= b[0] != 0x7F && PlainText(b[1..])
    else if 0xC2 <= b[0] <= 0xDF then
      |b| >= 2 && Continuation(b[1]) && (b[0] == 0xC2 ==> b[1] >= 0xA0) && PlainText(b[2..])
    else if 0xE0 <= b[0] <= 0xEF then
      |b| >= 3 && Continuation(b[1]) && Continuation(b[2]) &&
      (b[0] == 0xE0 ==> b[1] >= 0xA0) && (b[0] == 0xED ==> b[1] <= 0x9F) && PlainText(b[3..])
    else if 0xF0 <= b[0] <= 0xF4 then
      |b| >= 4 && Continuation(b[1]) && Continuation(b[2]) && Continuation(b[3]) &&
      (b[0] == 0xF0 ==> b[1] >= 0x90) && (b[0] == 0xF4 ==> b[1] <= 0x8F) && PlainText(b[4..])
    else false
  }

  predicate ValidIdentifier(id: bytes) {
    0 < |id| <= MAX_IDENTIFIER_BYTES && PlainText(id)
  }

  // ---------------------------------------------------------------- records

  datatype SampleFormat = Signed16 | Float32

  datatype PcmFormat = PcmFormat(rate: u32, channels: nat, samples: SampleFormat)

  function Alignment(f: PcmFormat): nat {
    f.channels * if f.samples.Signed16? then 2 else 4
  }

  datatype Quality = Nominal | UnknownClock | UnknownPriming | FilterEdge | IncompleteSource

  datatype HostSpan = HostSpan(start: u64, end: u64, rounding: u64, uncertainty: Option<u64>)

  datatype FrameProvenance = FrameProvenance(
    epoch: u64,
    sequence: u64,
    outputStart: u64,
    sampleCount: u32,
    sourceStart: u64,
    sourceEnd: u64,
    denominator: u32,
    rate: u32,
    quality: Quality,
    span: Option<HostSpan>)

  predicate ValidFrame(p: FrameProvenance) {
    var end := p.outputStart + p.sampleCount;
    && end <= U64_MAX
    && p.epoch != 0 && p.sequence != 0 && p.sampleCount != 0 && p.denominator != 0 && p.rate != 0
    && p.outputStart * p.rate == p.sourceStart
    && end * p.rate == p.sourceEnd
    && p.span.Some? == p.quality.Nominal?
    && (p.span.Some? ==> p.span.value.start != 0 && p.span.value.start < p.span.value.end)
  }

  predicate ValidPcm(p: FrameProvenance, format: PcmFormat, length: nat) {
    ValidFrame(p) && p.denominator == format.rate && p.sampleCount * Alignment(format) == length
  }

  datatype CaptureEpoch = CaptureEpoch(bridge: bytes, domain: bytes, epoch: u64)

  predicate ValidEpoch(e: CaptureEpoch) {
    ValidIdentifier(e.bridge) && ValidIdentifier(e.domain) && e.epoch != 0
  }

  datatype ClockPair = ClockPair(
    domain: bytes,
    wallEpoch: u64,
    sequence: u64,
    hostBefore: u64,
    localUnix: i64,
    hostAfter: u64,
    resolution: u64,
    accuracy: Option<u64>)

  predicate ValidPair(p: ClockPair) {
    ValidIdentifier(p.domain) && p.wallEpoch != 0 && p.sequence != 0 && p.hostBefore != 0 && p.hostBefore <= p.hostAfter
  }

  /** Twice the midpoint of the host bracket; a 128-bit sum in the source, so it never wraps. */
  function MidpointTwice(p: ClockPair): nat {
    p.hostBefore + p.hostAfter
  }

  datatype FinishBoundary = FinishBoundary(session: u64, epoch: u64, frame: Option<(u64, u64)>, pair: u64)

  /** The values the constructor of a finish boundary accepts. */
  predicate ValidBoundary(b: FinishBoundary) {
    b.epoch != 0 && b.pair != 0 && (b.frame.Some? ==> b.frame.value.0 != 0 && b.frame.value.1 != 0)
  }

  // ---------------------------------------------------------------- frame provenance

  const FRAME_WIDTHS: seq<nat> := [1, 1, 1, 1, 8, 8, 8, 4, 8, 8, 4, 4, 8, 8, 8, 8]

  function QualityCode(q: Quality): nat {
    match q
    case Nominal => 1
    case UnknownClock => 2
    case UnknownPriming => 3
    case FilterEdge => 4
    case IncompleteSource => 5
  }

  function QualityOf(code: nat): Option<Quality> {
    if code == 1 then Some(Nominal)
    else if code == 2 then Some(UnknownClock)
    else if code == 3 then Some(UnknownPriming)
    else if code == 4 then Some(FilterEdge)
    else if code == 5 then Some(IncompleteSource)
    else None
  }

  function FrameFields(p: FrameProvenance): seq<nat> {
    var flags := if p.span.None? then 0 else if p.span.value.uncertainty.None? then 1 else 3;
    var s := if p.span.Some? then p.span.value else HostSpan(0, 0, 0, None);
    [1, flags, QualityCode(p.quality), 0, p.epoch, p.sequence, p.outputStart, p.sampleCount,
     p.sourceStart, p.sourceEnd, p.denominator, p.rate, s.start, s.end, s.rounding,
     if s.uncertainty.Some? then s.uncertainty.value else 0]
  }

  lemma FrameWidths(values: seq<nat>)
    requires Fits(values, FRAME_WIDTHS)
    ensures forall i :: 0 <= i < 4 ==> values[i] <= 255
    ensures values[4] <= U64_MAX && values[5] <= U64_MAX && values[6] <= U64_MAX && values[7] <= U32_MAX
    ensures values[8] <= U64_MAX && values[9] <= U64_MAX && values[10] <= U32_MAX && values[11] <= U32_MAX
    ensures forall i :: 12 <= i < 16 ==> values[i] <= U64_MAX
  {
    Widths();
  }

  function FrameOf(f: seq<nat>): Option<FrameProvenance>
    requires Fits(f, FRAME_WIDTHS)
  {
    FrameWidths(f);
    if f[0] != 1 || f[1] !in {0, 1, 3} || f[3] != 0 then None
    else if f[1] == 0 && (f[12] != 0 || f[13] != 0 || f[14] != 0 || f[15] != 0) then None
    else if f[1] != 3 && f[15] != 0 then None
    else if QualityOf(f[2]).None? then None
    else
      var p := FrameProvenance(f[4], f[5], f[6], f[7], f[8], f[9], f[10], f[11], QualityOf(f[2]).value,
        if f[1] == 0 then None else Some(HostSpan(f[12], f[13], f[14], if f[1] == 3 then Some(f[15]) else None)));
      if ValidFrame(p) then Some(p) else None
  }

  function EncodeFrame(p: FrameProvenance): Option<bytes> {
    if ValidFrame(p) then Some(Pack(FrameFields(p), FRAME_WIDTHS)) else None
  }

  function DecodeFrame(b: bytes): Option<FrameProvenance> {
    if |b| != Total(FRAME_WIDTHS) then None
    else
      UnpackFits(b, FRAME_WIDTHS);
      FrameOf(Unpack(b, FRAME_WIDTHS))
  }

  lemma FrameFieldsFit(p: FrameProvenance)
    ensures Fits(FrameFields(p), FRAME_WIDTHS)
  {
    Widths();
  }

  lemma FieldsThenFrame(p: FrameProvenance)
    requires ValidFrame(p)
    ensures Fits(FrameFields(p), FRAME_WIDTHS) && FrameOf(FrameFields(p)) == Some(p)
  {
    FrameFieldsFit(p);
  }

  lemma FrameThenFields(f: seq<nat>)
    requires Fits(f, FRAME_WIDTHS) && FrameOf(f).Some?
    ensures FrameFields(FrameOf(f).value) == f && ValidFrame(FrameOf(f).value)
  {
    FrameWidths(f);
  }

  const FRAME_STARTS: seq<nat> := [0, 1, 2, 3, 4, 12, 20, 28, 32, 40, 48, 52, 56, 64, 72, 80, 88]

  lemma FrameExtent()
    ensures Total(FRAME_WIDTHS) == 88 && Places(FRAME_WIDTHS, FRAME_STARTS)
  {
    assert Places(FRAME_WIDTHS, FRAME_STARTS);
    PlacesTotal(FRAME_WIDTHS, FRAME_STARTS, 16);
    assert FRAME_WIDTHS[..16] == FRAME_WIDTHS;
  }

  /** The byte layout of an encoded frame: field `k` stands at bytes `FRAME_STARTS[k]..FRAME_STARTS[k + 1]`. */
  lemma FrameLayout(p: FrameProvenance, b: bytes, k: nat)
    requires EncodeFrame(p) == Some(b) && k < 16
    ensures |b| == 88 && FRAME_STARTS[k] <= FRAME_STARTS[k + 1] <= 88
    ensures Decode(b[FRAME_STARTS[k]..FRAME_STARTS[k + 1]]) == FrameFields(p)[k]
  {
    FrameExtent();
    FrameFieldsFit(p);
    Placed(FrameFields(p), FRAME_WIDTHS, FRAME_STARTS, k);
  }

  /** Decoding undoes encoding on every valid frame, and only valid frames are encoded. */
  lemma FrameDecodesEncoded(p: FrameProvenance)
    ensures EncodeFrame(p).Some? <==> ValidFrame(p)
    ensures ValidFrame(p) ==> |EncodeFrame(p).value| == 88 && DecodeFrame(EncodeFrame(p).value) == Some(p)
  {
    if ValidFrame(p) {
      FrameExtent();
      FieldsThenFrame(p);
      UnpackPack(FrameFields(p), FRAME_WIDTHS);
    }
  }

  /** Encoding undoes decoding on every accepted byte string: the wire form is canonical. */
  lemma FrameEncodesDecoded(b: bytes)
    requires DecodeFrame(b).Some?
    ensures EncodeFrame(DecodeFrame(b).value) == Some(b)
  {
    var f := Unpack(b, FRAME_WIDTHS);
    UnpackFits(b, FRAME_WIDTHS);
    PackUnpack(b, FRAME_WIDTHS);
    FrameThenFields(f);
  }

  // ---------------------------------------------------------------- identifiers on the wire

  function PutId(id: bytes): bytes
    requires |id| <= 255
  {
    [|id|] + id
  }

  /** Splits a length-prefixed identifier off the front. */
  function TakeId(b: bytes): Option<(bytes, bytes)> {
    if b == [] || b[0] == 0 || b[0] > MAX_IDENTIFIER_BYTES || 1 + b[0] > |b| || !PlainText(b[1..1 + b[0]]) then None
    else Some((b[1..1 + b[0]], b[1 + b[0]..]))
  }

  lemma TakePut(id: bytes, rest: bytes)
    requires ValidIdentifier(id)
    ensures TakeId(PutId(id) + rest) == Some((id, rest))
  {
    var b := PutId(id) + rest;
    assert b[1..1 + |id|] == id && b[1 + |id|..] == rest;
  }

  lemma PutTake(b: bytes)
    requires TakeId(b).Some?
    ensures ValidIdentifier(TakeId(b).value.0) && b == PutId(TakeId(b).value.0) + TakeId(b).value.1
  {
    assert b == [b[0]] + b[1..1 + b[0]] + b[1 + b[0]..];
  }

  // ---------------------------------------------------------------- capture epochs

  function EncodeEpoch(e: CaptureEpoch): Option<bytes> {
    if ValidEpoch(e) then Some(PutId(e.bridge) + (PutId(e.domain) + (Encode(e.epoch, 8) + [1]))) else None
  }

  function DecodeEpoch(b: bytes): Option<CaptureEpoch> {
    var first := TakeId(b);
    if first.None? then None
    else
      var second := TakeId(first.value.1);
      if second.None? then None
      else
        var rest := second.value.1;
        if |rest| != 9 || rest[8] != 1 || Decode(rest[..8]) == 0 then None
        else
          Widths();
          Some(CaptureEpoch(first.value.0, second.value.0, Decode(rest[..8])))
  }

  lemma EpochDecodesEncoded(e: CaptureEpoch)
    requires ValidEpoch(e)
    ensures DecodeEpoch(EncodeEpoch(e).value) == Some(e)
  {
    Widths();
    var tail := Encode(e.epoch, 8) + [1];
    TakePut(e.bridge, PutId(e.domain) + tail);
    TakePut(e.domain, tail);
    DecodeEncode(e.epoch, 8);
    assert tail[..8] == Encode(e.epoch, 8);
  }

  lemma EpochEncodesDecoded(b: bytes)
    requires DecodeEpoch(b).Some?
    ensures ValidEpoch(DecodeEpoch(b).value) && EncodeEpoch(DecodeEpoch(b).value) == Some(b)
  {
    PutTake(b);
    var after := TakeId(b).value.1;
    PutTake(after);
    var rest := TakeId(after).value.1;
    EncodeDecode(rest[..8]);
    assert rest == rest[..8] + [rest[8]];
  }

  // ---------------------------------------------------------------- clock pairs

  const PAIR_WIDTHS: seq<nat> := [8, 8, 8, 8, 8, 8, 1, 8]

  function Unsigned(n: i64): u64 {
    if n < 0 then n + 0x1_0000_0000_0000_0000 else n
  }

  function Signed(n: u64): i64 {
    if n < 0x8000_0000_0000_0000 then n else n - 0x1_0000_0000_0000_0000
  }

  function PairFields(p: ClockPair): seq<nat> {
    [p.wallEpoch, p.sequence, p.hostBefore, Unsigned(p.localUnix), p.hostAfter, p.resolution,
     if p.accuracy.Some? then 1 else 0, if p.accuracy.Some? then p.accuracy.value else 0]
  }

  lemma PairWidths(f: seq<nat>)
    requires Fits(f, PAIR_WIDTHS)
    ensures forall i :: 0 <= i < 8 ==> f[i] <= U64_MAX
  {
    Widths();
  }

  function PairOf(domain: bytes, f: seq<nat>): Option<ClockPair>
    requires Fits(f, PAIR_WIDTHS)
  {
    PairWidths(f);
    if f[6] > 1 || (f[6] == 0 && f[7] != 0) then None
    else
      var p := ClockPair(domain, f[0], f[1], f[2], Signed(f[3]), f[4], f[5], if f[6] == 1 then Some(f[7]) else None);
      if ValidPair(p) then Some(p) else None
  }

  function EncodePair(p: ClockPair): Option<bytes> {
    if ValidPair(p) then Some(PutId(p.domain) + Pack(PairFields(p), PAIR_WIDTHS)) else None
  }

  function DecodePair(b: bytes): Option<ClockPair> {
    var id := TakeId(b);
    if id.None? || |id.value.1| != Total(PAIR_WIDTHS) then None
    else
      UnpackFits(id.value.1, PAIR_WIDTHS);
      PairOf(id.value.0, Unpack(id.value.1, PAIR_WIDTHS))
  }

  lemma PairFieldsAgree(p: ClockPair)
    requires ValidPair(p)
    ensures Fits(PairFields(p), PAIR_WIDTHS) && PairOf(p.domain, PairFields(p)) == Some(p)
  {
    Widths();
  }

  lemma PairDecodesEncoded(p: ClockPair)
    requires ValidPair(p)
    ensures DecodePair(EncodePair(p).value) == Some(p)
  {
    PairFieldsAgree(p);
    TakePut(p.domain, Pack(PairFields(p), PAIR_WIDTHS));
    UnpackPack(PairFields(p), PAIR_WIDTHS);
  }

  lemma PairThenFields(domain: bytes, f: seq<nat>)
    requires Fits(f, PAIR_WIDTHS) && PairOf(domain, f).Some?
    ensures PairFields(PairOf(domain, f).value) == f
  {
    PairWidths(f);
  }

  lemma PairEncodesDecoded(b: bytes)
    requires DecodePair(b).Some?
    ensures EncodePair(DecodePair(b).value) == Some(b)
  {
    PutTake(b);
    var rest := TakeId(b).value.1;
    UnpackFits(rest, PAIR_WIDTHS);
    PackUnpack(rest, PAIR_WIDTHS);
    PairThenFields(TakeId(b).value.0, Unpack(rest, PAIR_WIDTHS));
  }

  // ---------------------------------------------------------------- the finish boundary

  const FINISH_WIDTHS: seq<nat> := [8, 8, 1, 8, 8, 8]

  function FinishFields(b: FinishBoundary): seq<nat> {
    [b.session, b.epoch, if b.frame.Some? then 1 else 0,
     if b.frame.Some? then b.frame.value.0 else 0, if b.frame.Some? then b.frame.value.1 else 0, b.pair]
  }

  lemma FinishFits(f: seq<nat>)
    requires Fits(f, FINISH_WIDTHS)
    ensures forall i :: 0 <= i < 6 ==> f[i] <= U64_MAX
  {
    Widths();
  }

  /** The wire body is refused for session zero, which the constructor itself would accept. */
  function BoundaryOf(f: seq<nat>): Option<FinishBoundary>
    requires Fits(f, FINISH_WIDTHS)
  {
    FinishFits(f);
    if f[2] > 1 || f[0] == 0 then None
    else if f[2] == 1 && (f[3] == 0 || f[4] == 0) then None
    else if f[2] == 0 && (f[3] != 0 || f[4] != 0) then None
    else if f[1] == 0 || f[5] == 0 then None
    else Some(FinishBoundary(f[0], f[1], if f[2] == 1 then Some((f[3], f[4])) else None, f[5]))
  }

  function EncodeFinish(b: FinishBoundary): bytes {
    Pack(FinishFields(b), FINISH_WIDTHS)
  }

  function DecodeFinish(b: bytes): Option<FinishBoundary> {
    if |b| != Total(FINISH_WIDTHS) then None
    else
      UnpackFits(b, FINISH_WIDTHS);
      BoundaryOf(Unpack(b, FINISH_WIDTHS))
  }

  lemma FinishFieldsAgree(b: FinishBoundary)
    requires ValidBoundary(b)
    ensures Fits(FinishFields(b), FINISH_WIDTHS)
    ensures BoundaryOf(FinishFields(b)) == if b.session != 0 then Some(b) else None
  {
    Widths();
  }

  /** An encoded boundary decodes to itself exactly when its session is not zero; otherwise it is refused. */
  lemma FinishDecodesEncoded(b: FinishBoundary)
    requires ValidBoundary(b)
    ensures DecodeFinish(EncodeFinish(b)) == Some(b) <==> b.session != 0
    ensures b.session == 0 ==> DecodeFinish(EncodeFinish(b)) == None
  {
    FinishFieldsAgree(b);
    UnpackPack(FinishFields(b), FINISH_WIDTHS);
  }

  const FINISH_STARTS: seq<nat> := [0, 8, 16, 17, 25, 33, 41]

  /** The byte layout of an encoded finish body. */
  lemma FinishLayout(b: FinishBoundary)
    requires ValidBoundary(b)
    ensures var w := EncodeFinish(b);
            && |w| == 41 && Decode(w[0..8]) == b.session && Decode(w[8..16]) == b.epoch
            && (b.frame.Some? ==> Decode(w[17..25]) == b.frame.value.0 && Decode(w[25..33]) == b.frame.value.1)
            && Decode(w[33..41]) == b.pair
  {
    FinishFieldsAgree(b);
    PlacesTotal(FINISH_WIDTHS, FINISH_STARTS, 6);
    assert FINISH_WIDTHS[..6] == FINISH_WIDTHS;
    Placed(FinishFields(b), FINISH_WIDTHS, FINISH_STARTS, 0);
    Placed(FinishFields(b), FINISH_WIDTHS, FINISH_STARTS, 1);
    Placed(FinishFields(b), FINISH_WIDTHS, FINISH_STARTS, 3);
    Placed(FinishFields(b), FINISH_WIDTHS, FINISH_STARTS, 4);
    Placed(FinishFields(b), FINISH_WIDTHS, FINISH_STARTS, 5);
  }

  lemma FinishEncodesDecoded(b: bytes)
    requires DecodeFinish(b).Some?
    ensures ValidBoundary(DecodeFinish(b).value) && EncodeFinish(DecodeFinish(b).value) == b
  {
    UnpackFits(b, FINISH_WIDTHS);
    PackUnpack(b, FINISH_WIDTHS);
    FinishFits(Unpack(b, FINISH_WIDTHS));
    assert FinishFields(DecodeFinish(b).value) == Unpack(b, FINISH_WIDTHS);
  }
}
