/**
 The wire forms of the capture-timing records, byte by byte: which bytes each decoder accepts, and which value
 they give. Together with the round trips this fixes both directions.
 */
module WireForms {
  import opened Wrappers
  import opened BigEndian
  import opened CaptureTiming

  // ---------------------------------------------------------------- fields of a row

  /** The big-endian number in bytes `i..j`. */
  function Field(b: bytes, i: nat, j: nat): nat
    requires i <= j <= |b|
  {
    Decode(b[i..j])
  }

  lemma FieldAt(b: bytes, widths: seq<nat>, starts: seq<nat>, k: nat)
    requires |b| == Total(widths) && Places(widths, starts) && k < |widths|
    ensures starts[k] <= starts[k + 1] <= |b| && Unpack(b, widths)[k] == Field(b, starts[k], starts[k + 1])
  {
    UnpackFits(b, widths);
    PackUnpack(b, widths);
    Placed(Unpack(b, widths), widths, starts, k);
  }

  lemma OneByte(b: bytes, i: nat)
    requires i < |b|
    ensures Field(b, i, i + 1) == b[i]
  {
    assert b[i..i + 1] == [b[i]];
    assert [b[i]][..0] == [];
    assert Decode([b[i]]) == Decode([]) * 256 + b[i];
  }

  // ---------------------------------------------------------------- frame provenance

  /** Its source ticks are its samples at the source rate, and a nominal frame, and no other, has a span. */
  predicate Plausible(p: FrameProvenance) {
    && 0 < p.epoch && 0 < p.sequence && 0 < p.sampleCount && 0 < p.denominator && 0 < p.rate
    && p.outputStart + p.sampleCount <= 0xFFFF_FFFF_FFFF_FFFF
    && p.sourceStart == p.outputStart * p.rate && p.sourceEnd == (p.outputStart + p.sampleCount) * p.rate
    && (p.quality == Nominal <==> p.span.Some?)
    && (p.span.Some? ==> 0 < p.span.value.start < p.span.value.end)
  }

  predicate QualityByte(code: nat, q: Quality) {
    match q
    case Nominal => code == 1
    case UnknownClock => code == 2
    case UnknownPriming => code == 3
    case FilterEdge => code == 4
    case IncompleteSource => code == 5
  }

  /** The fields of the 88 bytes of a frame, in order. */
  function FrameRow(b: bytes): (f: seq<nat>)
    requires |b| == 88
    ensures |f| == 16
  {
    [b[0], b[1], b[2], b[3], Field(b, 4, 12), Field(b, 12, 20), Field(b, 20, 28), Field(b, 28, 32),
     Field(b, 32, 40), Field(b, 40, 48), Field(b, 48, 52), Field(b, 52, 56), Field(b, 56, 64), Field(b, 64, 72),
     Field(b, 72, 80), Field(b, 80, 88)]
  }

  /**
   A version, flags, the quality, a zero, then the numbers of the frame; the last four are the span, and
   what the flags leave out of it is zero.
   */
  predicate RowIs(f: seq<nat>, p: FrameProvenance)
    requires |f| == 16
  {
    && f[0] == 1 && QualityByte(f[2], p.quality) && f[3] == 0
    && f[4] == p.epoch && f[5] == p.sequence && f[6] == p.outputStart && f[7] == p.sampleCount
    && f[8] == p.sourceStart && f[9] == p.sourceEnd && f[10] == p.denominator && f[11] == p.rate
    && match p.span
       case None => f[1] == 0 && f[12] == 0 && f[13] == 0 && f[14] == 0 && f[15] == 0
       case Some(s) =>
         && f[12] == s.start && f[13] == s.end && f[14] == s.rounding
         && (match s.uncertainty
             case None => f[1] == 1 && f[15] == 0
             case Some(u) => f[1] == 3 && f[15] == u)
  }

  lemma FrameField(b: bytes, k: nat)
    requires |b| == 88 && k < 16
    ensures FRAME_STARTS[k] <= FRAME_STARTS[k + 1] <= 88
    ensures FrameRow(b)[k] == Field(b, FRAME_STARTS[k], FRAME_STARTS[k + 1])
  {
    if k < 4 { OneByte(b, k); }
  }

  lemma FrameUnpacks(b: bytes)
    requires |b| == 88
    ensures Total(FRAME_WIDTHS) == 88 && Unpack(b, FRAME_WIDTHS) == FrameRow(b)
  {
    FrameExtent();
    var f, g := Unpack(b, FRAME_WIDTHS), FrameRow(b);
    forall k | 0 <= k < 16 ensures f[k] == g[k] {
      FieldAt(b, FRAME_WIDTHS, FRAME_STARTS, k);
      FrameField(b, k);
    }
    SameRow(f, g);
  }

  lemma SameRow(f: seq<nat>, g: seq<nat>)
    requires |f| == |g| && forall k :: 0 <= k < |f| ==> f[k] == g[k]
    ensures f == g
  {
  }

  lemma QualitiesAgree(code: nat, q: Quality)
    ensures QualityOf(code) == Some(q) <==> QualityByte(code, q)
  {
  }

  lemma PlausibleIsValid(p: FrameProvenance)
    ensures ValidFrame(p) <==> Plausible(p)
  {
  }

  lemma FrameOfRow(f: seq<nat>, p: FrameProvenance)
    requires Fits(f, FRAME_WIDTHS)
    ensures FrameOf(f) == Some(p) <==> RowIs(f, p) && Plausible(p)
  {
    QualitiesAgree(f[2], p.quality);
    PlausibleIsValid(p);
    if QualityOf(f[2]).Some? { QualitiesAgree(f[2], QualityOf(f[2]).value); }
  }

  /** Bytes decode to a frame if and only if they are its 88 bytes, and the frame is plausible. */
  lemma FrameExactly(b: bytes, p: FrameProvenance)
    ensures DecodeFrame(b) == Some(p) <==> |b| == 88 && RowIs(FrameRow(b), p) && Plausible(p)
  {
    FrameExtent();
    if |b| == 88 {
      FrameUnpacks(b);
      UnpackFits(b, FRAME_WIDTHS);
      FrameOfRow(Unpack(b, FRAME_WIDTHS), p);
    }
  }

  /** A frame goes with PCM of its own rate, of so many bytes as its samples take on every channel. */
  lemma PcmExactly(p: FrameProvenance, f: PcmFormat, length: nat)
    ensures ValidPcm(p, f, length) <==>
              && Plausible(p) && p.denominator == f.rate
              && length == p.sampleCount * (f.channels * if f.samples == Signed16 then 2 else 4)
  {
    PlausibleIsValid(p);
  }

  // ---------------------------------------------------------------- text

  /** A Unicode scalar value that is not a control character. */
  predicate Printable(c: nat) {
    0x20 <= c < 0x7F || 0xA0 <= c < 0xD800 || 0xE000 <= c <= 0x10FFFF
  }

  /** The UTF-8 form of a scalar value. */
  function Utf8(c: nat): bytes
    requires c <= 0x10FFFF
  {
    if c < 0x80 then [c]
    else if c < 0x800 then [0xC0 + c / 0x40, 0x80 + c % 0x40]
    else if c < 0x10000 then [0xE0 + c / 0x40 / 0x40, 0x80 + c / 0x40 % 0x40, 0x80 + c % 0x40]
    else [0xF0 + c / 0x40 / 0x40 / 0x40, 0x80 + c / 0x40 / 0x40 % 0x40, 0x80 + c / 0x40 % 0x40, 0x80 + c % 0x40]
  }

  lemma SixBits(high: nat, low: nat)
    requires low < 0x40
    ensures (high * 0x40 + low) / 0x40 == high && (high * 0x40 + low) % 0x40 == low
  {
  }

  ghost predicate AllPrintable(text: seq<nat>) {
    forall i :: 0 <= i < |text| ==> Printable(text[i])
  }

  ghost function Text(text: seq<nat>): bytes
    requires AllPrintable(text)
  {
    if text == [] then [] else Utf8(text[0]) + Text(text[1..])
  }

  /** The character at the front of plain text, and what is behind it. */
  lemma FirstCharacter(b: bytes) returns (c: nat, n: nat)
    requires b != [] && PlainText(b)
    ensures Printable(c) && n == |Utf8(c)| <= |b| && b[..n] == Utf8(c) && PlainText(b[n..])
  {
    if b[0] < 0x80 {
      c, n := b[0], 1;
    } else if b[0] <= 0xDF {
      c, n := TwoBytes(b[0], b[1]), 2;
      assert b[..2] == [b[0], b[1]];
    } else if b[0] <= 0xEF {
      c, n := ThreeBytes(b[0], b[1], b[2]), 3;
      assert b[..3] == [b[0], b[1], b[2]];
    } else {
      c, n := FourBytes(b[0], b[1], b[2], b[3]), 4;
      assert b[..4] == [b[0], b[1], b[2], b[3]];
    }
  }

  function TwoBytes(x: byte, y: byte): (c: nat)
    requires 0xC2 <= x <= 0xDF && Continuation(y) && (x == 0xC2 ==> y >= 0xA0)
    ensures Printable(c) && Utf8(c) == [x, y]
  {
    SixBits(x - 0xC0, y - 0x80);
    (x - 0xC0) * 0x40 + (y - 0x80)
  }

  function ThreeBytes(x: byte, y: byte, z: byte): (c: nat)
    requires 0xE0 <= x <= 0xEF && Continuation(y) && Continuation(z)
    requires (x == 0xE0 ==> y >= 0xA0) && (x == 0xED ==> y <= 0x9F)
    ensures Printable(c) && Utf8(c) == [x, y, z]
  {
    var high := (x - 0xE0) * 0x40 + (y - 0x80);
    SixBits(x - 0xE0, y - 0x80);
    SixBits(high, z - 0x80);
    high * 0x40 + (z - 0x80)
  }

  function FourBytes(x: byte, y: byte, z: byte, w: byte): (c: nat)
    requires 0xF0 <= x <= 0xF4 && Continuation(y) && Continuation(z) && Continuation(w)
    requires (x == 0xF0 ==> y >= 0x90) && (x == 0xF4 ==> y <= 0x8F)
    ensures Printable(c) && Utf8(c) == [x, y, z, w]
  {
    var high := HighBits(x, y);
    var middle := high * 0x40 + (z - 0x80);
    SixBits(high, z - 0x80);
    SixBits(middle, w - 0x80);
    middle * 0x40 + (w - 0x80)
  }

  /** The upper bits of a character of four bytes. */
  function HighBits(x: byte, y: byte): (high: nat)
    requires 0xF0 <= x <= 0xF4 && Continuation(y) && (x == 0xF0 ==> y >= 0x90) && (x == 0xF4 ==> y <= 0x8F)
    ensures 0x10 <= high < 0x110 && high / 0x40 == x - 0xF0 && high % 0x40 == y - 0x80
  {
    SixBits(x - 0xF0, y - 0x80);
    (x - 0xF0) * 0x40 + (y - 0x80)
  }

  lemma CharacterIsPlain(c: nat, rest: bytes)
    requires Printable(c) && PlainText(rest)
    ensures PlainText(Utf8(c) + rest)
  {
    var b := Utf8(c) + rest;
    var n := |Utf8(c)|;
    assert b[n..] == rest;
    Leading(c);
  }

  /** The leading bytes of characters, by length. */
  lemma Leading(c: nat)
    requires Printable(c)
    ensures c < 0x80 ==> Utf8(c) == [c]
    ensures 0x80 <= c < 0x800 ==> 0xC2 <= Utf8(c)[0] <= 0xDF && (Utf8(c)[0] == 0xC2 ==> Utf8(c)[1] >= 0xA0)
    ensures 0x800 <= c < 0x10000 ==>
              0xE0 <= Utf8(c)[0] <= 0xEF && (Utf8(c)[0] == 0xE0 ==> Utf8(c)[1] >= 0xA0)
              && (Utf8(c)[0] == 0xED ==> Utf8(c)[1] <= 0x9F)
    ensures 0x10000 <= c ==>
              0xF0 <= Utf8(c)[0] <= 0xF4 && (Utf8(c)[0] == 0xF0 ==> Utf8(c)[1] >= 0x90)
              && (Utf8(c)[0] == 0xF4 ==> Utf8(c)[1] <= 0x8F)
  {
  }

  lemma {:induction false} TextIsPlain(text: seq<nat>)
    requires AllPrintable(text)
    ensures PlainText(Text(text))
  {
    if text != [] {
      TextIsPlain(text[1..]);
      CharacterIsPlain(text[0], Text(text[1..]));
    }
  }

  lemma {:induction false} PlainIsText(b: bytes) returns (text: seq<nat>)
    requires PlainText(b)
    ensures AllPrintable(text) && Text(text) == b
    decreases |b|
  {
    if b == [] {
      text := [];
    } else {
      var c, n := FirstCharacter(b);
      var rest := PlainIsText(b[n..]);
      text := [c] + rest;
      assert text[1..] == rest;
      assert b == b[..n] + b[n..];
    }
  }

  /** Identifiers are exactly the UTF-8 forms, of 1 to 64 bytes, of texts without control characters. */
  lemma IdentifierExactly(id: bytes)
    ensures ValidIdentifier(id) <==> 1 <= |id| <= 64 && exists text :: AllPrintable(text) && Text(text) == id
  {
    if ValidIdentifier(id) {
      var text := PlainIsText(id);
    }
    if text :| AllPrintable(text) && Text(text) == id {
      TextIsPlain(text);
    }
  }

  // ---------------------------------------------------------------- capture epochs and clock pairs

  /** Bytes decode to a capture epoch if and only if they are its two identifiers, its number and a one. */
  lemma EpochExactly(b: bytes, e: CaptureEpoch)
    ensures DecodeEpoch(b) == Some(e) <==>
              && ValidIdentifier(e.bridge) && ValidIdentifier(e.domain) && 0 < e.epoch
              && b == [|e.bridge|] + e.bridge + ([|e.domain|] + e.domain + (Encode(e.epoch, 8) + [1]))
  {
    if DecodeEpoch(b) == Some(e) {
      EpochEncodesDecoded(b);
    }
    if ValidEpoch(e) {
      EpochDecodesEncoded(e);
    }
  }

  const PAIR_STARTS: seq<nat> := [0, 8, 16, 24, 32, 40, 48, 49, 57]

  /** The fields of the 57 bytes behind the domain of a clock pair, in order. */
  function PairRow(b: bytes): (f: seq<nat>)
    requires |b| == 57
    ensures |f| == 8
  {
    [Field(b, 0, 8), Field(b, 8, 16), Field(b, 16, 24), Field(b, 24, 32), Field(b, 32, 40), Field(b, 40, 48), b[48],
     Field(b, 49, 57)]
  }

  /** The wall clock may be before 1970: it is a two's complement number. */
  predicate PairRowIs(f: seq<nat>, p: ClockPair)
    requires |f| == 8
  {
    && f[0] == p.wallEpoch && f[1] == p.sequence && f[2] == p.hostBefore
    && (p.localUnix >= 0 ==> f[3] == p.localUnix) && (p.localUnix < 0 ==> f[3] == p.localUnix + 0x1_0000_0000_0000_0000)
    && f[4] == p.hostAfter && f[5] == p.resolution
    && match p.accuracy
       case None => f[6] == 0 && f[7] == 0
       case Some(u) => f[6] == 1 && f[7] == u
  }

  predicate PairPlausible(p: ClockPair) {
    ValidIdentifier(p.domain) && 0 < p.wallEpoch && 0 < p.sequence && 0 < p.hostBefore <= p.hostAfter
  }

  lemma PairExtent()
    ensures Total(PAIR_WIDTHS) == 57 && Places(PAIR_WIDTHS, PAIR_STARTS)
  {
    assert Places(PAIR_WIDTHS, PAIR_STARTS);
    PlacesTotal(PAIR_WIDTHS, PAIR_STARTS, 8);
    assert PAIR_WIDTHS[..8] == PAIR_WIDTHS;
  }

  lemma PairField(b: bytes, k: nat)
    requires |b| == 57 && k < 8
    ensures PAIR_STARTS[k] <= PAIR_STARTS[k + 1] <= 57
    ensures PairRow(b)[k] == Field(b, PAIR_STARTS[k], PAIR_STARTS[k + 1])
  {
    if k == 6 { OneByte(b, 48); }
  }

  lemma PairUnpacks(b: bytes)
    requires |b| == 57
    ensures Total(PAIR_WIDTHS) == 57 && Unpack(b, PAIR_WIDTHS) == PairRow(b)
  {
    PairExtent();
    var f, g := Unpack(b, PAIR_WIDTHS), PairRow(b);
    forall k | 0 <= k < 8 ensures f[k] == g[k] {
      FieldAt(b, PAIR_WIDTHS, PAIR_STARTS, k);
      PairField(b, k);
    }
    SameRow(f, g);
  }

  lemma PairOfRow(domain: bytes, f: seq<nat>, p: ClockPair)
    requires Fits(f, PAIR_WIDTHS)
    ensures PairOf(domain, f) == Some(p) <==> p.domain == domain && PairRowIs(f, p) && PairPlausible(p)
  {
    PairWidths(f);
  }

  lemma IdentifierAtFront(b: bytes, id: bytes, rest: bytes)
    ensures TakeId(b) == Some((id, rest)) <==> ValidIdentifier(id) && b == [|id|] + id + rest
  {
    if TakeId(b) == Some((id, rest)) {
      PutTake(b);
    }
    if ValidIdentifier(id) && b == [|id|] + id + rest {
      TakePut(id, rest);
      assert b == PutId(id) + rest;
    }
  }

  /** Bytes decode to a clock pair if and only if they are its domain and its 57 bytes, and the pair is plausible. */
  lemma PairExactly(b: bytes, p: ClockPair)
    ensures DecodePair(b) == Some(p) <==>
              && PairPlausible(p)
              && exists rest :: |rest| == 57 && b == [|p.domain|] + p.domain + rest && PairRowIs(PairRow(rest), p)
  {
    PairExtent();
    if TakeId(b).Some? && |TakeId(b).value.1| == 57 {
      var domain, rest := TakeId(b).value.0, TakeId(b).value.1;
      IdentifierAtFront(b, domain, rest);
      PairUnpacks(rest);
      UnpackFits(rest, PAIR_WIDTHS);
      PairOfRow(domain, Unpack(rest, PAIR_WIDTHS), p);
      if DecodePair(b) == Some(p) {
        assert |rest| == 57 && b == [|p.domain|] + p.domain + rest && PairRowIs(PairRow(rest), p);
      }
    }
    if PairPlausible(p) {
      forall rest | |rest| == 57 && b == [|p.domain|] + p.domain + rest && PairRowIs(PairRow(rest), p)
        ensures DecodePair(b) == Some(p)
      {
        IdentifierAtFront(b, p.domain, rest);
        PairUnpacks(rest);
        UnpackFits(rest, PAIR_WIDTHS);
        PairOfRow(p.domain, Unpack(rest, PAIR_WIDTHS), p);
      }
    }
  }

  // ---------------------------------------------------------------- the finish boundary

  function FinishRow(b: bytes): (f: seq<nat>)
    requires |b| == 41
    ensures |f| == 6
  {
    [Field(b, 0, 8), Field(b, 8, 16), b[16], Field(b, 17, 25), Field(b, 25, 33), Field(b, 33, 41)]
  }

  /** The session, the epoch, whether there is a frame, its sequence and end, and the clock pair. */
  predicate FinishRowIs(f: seq<nat>, x: FinishBoundary)
    requires |f| == 6
  {
    && f[0] == x.session && f[1] == x.epoch && f[5] == x.pair
    && match x.frame
       case None => f[2] == 0 && f[3] == 0 && f[4] == 0
       case Some((sequence, end)) => f[2] == 1 && f[3] == sequence && f[4] == end
  }

  predicate FinishPlausible(x: FinishBoundary) {
    && 0 < x.session && 0 < x.epoch && 0 < x.pair
    && (x.frame.Some? ==> 0 < x.frame.value.0 && 0 < x.frame.value.1)
  }

  lemma FinishField(b: bytes, k: nat)
    requires |b| == 41 && k < 6
    ensures FINISH_STARTS[k] <= FINISH_STARTS[k + 1] <= 41
    ensures FinishRow(b)[k] == Field(b, FINISH_STARTS[k], FINISH_STARTS[k + 1])
  {
    if k == 2 { OneByte(b, 16); }
  }

  lemma FinishExtent()
    ensures Total(FINISH_WIDTHS) == 41 && Places(FINISH_WIDTHS, FINISH_STARTS)
  {
    assert Places(FINISH_WIDTHS, FINISH_STARTS);
    PlacesTotal(FINISH_WIDTHS, FINISH_STARTS, 6);
    assert FINISH_WIDTHS[..6] == FINISH_WIDTHS;
  }

  lemma FinishUnpacks(b: bytes)
    requires |b| == 41
    ensures Total(FINISH_WIDTHS) == 41 && Unpack(b, FINISH_WIDTHS) == FinishRow(b)
  {
    FinishExtent();
    var f, g := Unpack(b, FINISH_WIDTHS), FinishRow(b);
    forall k | 0 <= k < 6 ensures f[k] == g[k] {
      FieldAt(b, FINISH_WIDTHS, FINISH_STARTS, k);
      FinishField(b, k);
    }
    SameRow(f, g);
  }

  lemma FinishOfRow(f: seq<nat>, x: FinishBoundary)
    requires Fits(f, FINISH_WIDTHS)
    ensures BoundaryOf(f) == Some(x) <==> FinishRowIs(f, x) && FinishPlausible(x)
  {
    FinishFits(f);
  }

  /** Bytes decode to a finish boundary if and only if they are its 41 bytes, and the boundary is plausible. */
  lemma FinishExactly(b: bytes, x: FinishBoundary)
    ensures DecodeFinish(b) == Some(x) <==> |b| == 41 && FinishRowIs(FinishRow(b), x) && FinishPlausible(x)
  {
    FinishExtent();
    if |b| == 41 {
      FinishUnpacks(b);
      UnpackFits(b, FINISH_WIDTHS);
      FinishOfRow(Unpack(b, FINISH_WIDTHS), x);
    }
  }
}
