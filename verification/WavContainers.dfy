/**
 The RIFF/WAVE containers of a speech body, told by how they are laid out: which bytes are a container of a
 stated size, which are a header whose PCM runs on to the end of the body, and which are neither.
 */
module WavContainers {
  import opened Wrappers
  import opened CaptureTiming
  import opened WavStreams

  // ---------------------------------------------------------------- the layout

  /** A chunk: its tag, its body, and a byte of padding behind a body of odd length. */
  datatype Part = Part(tag: bytes, body: bytes, pad: bytes)

  predicate Proper(p: Part) {
    |p.tag| == 4 && |p.body| < 0x1_0000_0000 && |p.pad| == |p.body| % 2
  }

  /** A number in so many bytes, the lowest first. */
  function Lowest(n: nat, width: nat): (b: bytes)
    ensures |b| == width
  {
    if width == 0 then [] else [n % 256] + Lowest(n / 256, width - 1)
  }

  function Little(n: nat): (b: bytes)
    ensures |b| == 4
  {
    Lowest(n, 4)
  }

  function PartBytes(p: Part): bytes {
    p.tag + Little(|p.body|) + p.body + p.pad
  }

  function Laid(parts: seq<Part>): bytes {
    if parts == [] then [] else PartBytes(parts[0]) + Laid(parts[1..])
  }

  /** The four characters of a tag. */
  function Tag(s: string): (b: bytes)
    requires |s| == 4 && forall i :: 0 <= i < 4 ==> s[i] as int < 128
    ensures |b| == 4
  {
    [s[0] as int, s[1] as int, s[2] as int, s[3] as int]
  }

  lemma Tags()
    ensures Tag("RIFF") == RIFF && Tag("WAVE") == WAVE && Tag("data") == DATA && Tag("fmt ") == FMT
  {
  }

  /** A chunk before the samples: it is not the data, and a format chunk can be read. */
  predicate Leads(p: Part, parse: bytes -> Option<PcmFormat>) {
    Proper(p) && p.tag != Tag("data") && (p.tag == Tag("fmt ") ==> parse(p.body).Some?)
  }

  ghost predicate Leading(parts: seq<Part>, parse: bytes -> Option<PcmFormat>) {
    forall i :: 0 <= i < |parts| ==> Leads(parts[i], parse)
  }

  /** The format the last format chunk gives, or the one known before. */
  ghost function FormatOf(parts: seq<Part>, parse: bytes -> Option<PcmFormat>, before: Option<PcmFormat>)
    : Option<PcmFormat>
  {
    if parts == [] then before
    else FormatOf(parts[1..], parse, if parts[0].tag == Tag("fmt ") then parse(parts[0].body) else before)
  }

  function DataHead(size: nat): bytes {
    Tag("data") + Little(size)
  }

  function FormatChunk(body: bytes): bytes {
    Tag("fmt ") + Little(|body|) + body
  }

  /** The bytes from `at` on begin with these leading chunks and the head of a data chunk of this size. */
  ghost predicate Headed(b: bytes, at: nat, parts: seq<Part>, size: nat, parse: bytes -> Option<PcmFormat>) {
    && at <= |b| && size < 0x1_0000_0000 && Leading(parts, parse)
    && Laid(parts) + DataHead(size) <= b[at..]
  }

  /** The bytes from `at` on begin with these leading chunks and a format chunk that cannot be read. */
  ghost predicate Spoiled(b: bytes, at: nat, parts: seq<Part>, body: bytes, parse: bytes -> Option<PcmFormat>) {
    && at <= |b| && |body| < 0x1_0000_0000 && Leading(parts, parse) && parse(body).None?
    && Laid(parts) + FormatChunk(body) <= b[at..]
  }

  // ---------------------------------------------------------------- one number

  /** The number that bytes give, the lowest first. */
  function Number(b: bytes): nat {
    if b == [] then 0 else b[0] + 256 * Number(b[1..])
  }

  function Power(width: nat): nat {
    if width == 0 then 1 else 256 * Power(width - 1)
  }

  lemma {:induction false} NumberOfLowest(n: nat, width: nat)
    requires n < Power(width)
    ensures Number(Lowest(n, width)) == n
  {
    if width > 0 {
      NumberOfLowest(n / 256, width - 1);
      assert Lowest(n, width)[1..] == Lowest(n / 256, width - 1);
    }
  }

  lemma {:induction false} LowestOfNumber(b: bytes)
    ensures Number(b) < Power(|b|) && Lowest(Number(b), |b|) == b
  {
    if b != [] {
      LowestOfNumber(b[1..]);
      assert (b[0] + 256 * Number(b[1..])) % 256 == b[0] && (b[0] + 256 * Number(b[1..])) / 256 == Number(b[1..]);
      assert b == [b[0]] + b[1..];
    }
  }

  lemma LittleIsNumber(b: bytes, at: nat)
    requires at + 4 <= |b|
    ensures LittleEndian(b, at) == Number(b[at..at + 4])
  {
    var x := b[at..at + 4];
    assert x[1..][1..] == x[2..] && x[2..][1..] == x[3..] && x[3..][1..] == [];
    assert Number(x[3..]) == x[3] && Number(x[2..]) == x[2] + 256 * Number(x[3..]);
    assert Number(x[1..]) == x[1] + 256 * Number(x[2..]);
  }

  lemma LittleReads(b: bytes, at: nat, n: nat)
    requires at + 4 <= |b| && n < 0x1_0000_0000
    ensures LittleEndian(b, at) == n <==> b[at..at + 4] == Little(n)
  {
    assert Power(4) == 0x1_0000_0000;
    LittleIsNumber(b, at);
    NumberOfLowest(n, 4);
    LowestOfNumber(b[at..at + 4]);
  }

  // ---------------------------------------------------------------- one chunk

  /** What stands at the front when it is a leading chunk. */
  lemma PartIsRead(b: bytes, at: nat, p: Part, before: Option<PcmFormat>, parse: bytes -> Option<PcmFormat>)
    requires at <= |b| && Leads(p, parse) && PartBytes(p) <= b[at..]
    ensures ReadChunk(b, at, before, parse)
            == Skip(at + |PartBytes(p)|, if p.tag == Tag("fmt ") then parse(p.body) else before)
  {
    Tags();
    var bs, n := PartBytes(p), |p.body|;
    PartPieces(p.tag, Little(n), p.body, p.pad);
    Slice(b, at, bs, 0, 4);
    Slice(b, at, bs, 4, 8);
    Slice(b, at, bs, 8, 8 + n);
    LittleReads(b, at + 4, n);
  }

  lemma PartPieces(tag: bytes, size: bytes, body: bytes, pad: bytes)
    requires |tag| == 4 && |size| == 4
    ensures
      var bs := tag + size + body + pad;
      bs[0..4] == tag && bs[4..8] == size && bs[8..8 + |body|] == body
  {
  }

  lemma Slice(b: bytes, at: nat, bs: bytes, i: nat, j: nat)
    requires at <= |b| && bs <= b[at..] && i <= j <= |bs|
    ensures b[at + i..at + j] == bs[i..j]
  {
  }

  lemma DataIsRead(b: bytes, at: nat, size: nat, before: Option<PcmFormat>, parse: bytes -> Option<PcmFormat>)
    requires at <= |b| && size < 0x1_0000_0000 && DataHead(size) <= b[at..]
    ensures ReadChunk(b, at, before, parse) == Data(at + 8, size)
  {
    Tags();
    var bs := DataHead(size);
    assert b[at..at + 8] == bs;
    assert b[at..at + 4] == bs[..4] && b[at + 4..at + 8] == bs[4..8];
    LittleReads(b, at + 4, size);
  }

  lemma BadFormatIsRead(b: bytes, at: nat, body: bytes, before: Option<PcmFormat>, parse: bytes -> Option<PcmFormat>)
    requires at <= |b| && |body| < 0x1_0000_0000 && parse(body).None?
    requires FormatChunk(body) <= b[at..]
    ensures ReadChunk(b, at, before, parse) == Damaged
  {
    Tags();
    var bs := FormatChunk(body);
    assert b[at..at + |bs|] == bs;
    assert b[at..at + 4] == bs[..4] && b[at + 4..at + 8] == bs[4..8];
    LittleReads(b, at + 4, |body|);
    assert b[at + 8..at + 8 + |body|] == bs[8..] == body;
    assert FMT[0] != DATA[0];
  }

  // ---------------------------------------------------------------- the walk

  lemma WalkSkips(b: bytes, at: nat, before: Option<PcmFormat>, next: nat, known: Option<PcmFormat>,
                  parse: bytes -> Option<PcmFormat>)
    requires ReadChunk(b, at, before, parse) == Skip(next, known)
    ensures Walk(b, at, before, parse) == Walk(b, next, known, parse)
  {
  }

  lemma LaidFirst(parts: seq<Part>, tail: bytes)
    requires parts != []
    ensures |Laid(parts)| == |PartBytes(parts[0])| + |Laid(parts[1..])|
    ensures Laid(parts) + tail == PartBytes(parts[0]) + (Laid(parts[1..]) + tail)
  {
    Grouped(PartBytes(parts[0]), Laid(parts[1..]), tail);
  }

  lemma Grouped(x: bytes, y: bytes, z: bytes)
    ensures (x + y) + z == x + (y + z)
  {
  }

  function FormatBehind(p: Part, before: Option<PcmFormat>, parse: bytes -> Option<PcmFormat>): Option<PcmFormat> {
    if p.tag == Tag("fmt ") then parse(p.body) else before
  }

  /** The first leading chunk is walked over. */
  lemma PartIsSkipped(b: bytes, at: nat, p: Part, before: Option<PcmFormat>, parse: bytes -> Option<PcmFormat>)
    requires at <= |b| && Leads(p, parse) && PartBytes(p) <= b[at..]
    ensures Walk(b, at, before, parse) == Walk(b, at + |PartBytes(p)|, FormatBehind(p, before, parse), parse)
  {
    var next, known := at + |PartBytes(p)|, FormatBehind(p, before, parse);
    calc {
      Walk(b, at, before, parse);
      { PartIsRead(b, at, p, before, parse); WalkSkips(b, at, before, next, known, parse); }
      Walk(b, next, known, parse);
    }
  }

  lemma FirstOfLaid(b: bytes, at: nat, parts: seq<Part>, tail: bytes)
    requires at <= |b| && parts != [] && Laid(parts) + tail <= b[at..]
    ensures
      var next := at + |PartBytes(parts[0])|;
      && PartBytes(parts[0]) <= b[at..] && next <= |b| && Laid(parts[1..]) + tail <= b[next..]
      && next + |Laid(parts[1..])| == at + |Laid(parts)|
  {
    LaidFirst(parts, tail);
    Behind(b, at, PartBytes(parts[0]), Laid(parts[1..]) + tail);
  }

  /** Leading chunks are walked over. */
  lemma {:induction false} PartsAreSkipped(b: bytes, at: nat, parts: seq<Part>, tail: bytes, end: nat, h: Header,
                                           before: Option<PcmFormat>, format: Option<PcmFormat>,
                                           parse: bytes -> Option<PcmFormat>)
    requires at <= |b| && Leading(parts, parse) && Laid(parts) + tail <= b[at..]
    requires end == at + |Laid(parts)| && format == FormatOf(parts, parse, before)
    requires end <= |b| && tail <= b[end..] ==> Walk(b, end, format, parse) == h
    ensures Walk(b, at, before, parse) == h
    decreases |parts|
  {
    if parts == [] {
      assert Laid(parts) + tail == tail;
    } else {
      var p := parts[0];
      FirstOfLaid(b, at, parts, tail);
      LeadingRest(parts, parse);
      PartIsSkipped(b, at, p, before, parse);
      PartsAreSkipped(b, at + |PartBytes(p)|, parts[1..], tail, end, h, FormatBehind(p, before, parse), format, parse);
    }
  }

  lemma LeadingRest(parts: seq<Part>, parse: bytes -> Option<PcmFormat>)
    requires parts != [] && Leading(parts, parse)
    ensures Leads(parts[0], parse) && Leading(parts[1..], parse)
  {
  }

  lemma Behind(b: bytes, at: nat, x: bytes, y: bytes)
    requires at <= |b| && x + y <= b[at..]
    ensures x <= b[at..] && at + |x| <= |b| && y <= b[at + |x|..]
  {
    assert b[at + |x|..] == b[at..][|x|..];
    assert (x + y)[|x|..] == y;
  }

  lemma HeadIsWalked(b: bytes, at: nat, parts: seq<Part>, size: nat, parse: bytes -> Option<PcmFormat>)
    requires Headed(b, at, parts, size, parse)
    ensures Walk(b, at, None, parse) == Header(FormatOf(parts, parse, None), at + |Laid(parts)| + 8, size)
  {
    var tail, end := DataHead(size), at + |Laid(parts)|;
    var format := FormatOf(parts, parse, None);
    if end <= |b| && tail <= b[end..] { DataIsRead(b, end, size, format, parse); }
    PartsAreSkipped(b, at, parts, tail, end, Header(format, end + 8, size), None, format, parse);
  }

  lemma SpoiltIsWalked(b: bytes, at: nat, parts: seq<Part>, body: bytes, parse: bytes -> Option<PcmFormat>)
    requires Spoiled(b, at, parts, body, parse)
    ensures Walk(b, at, None, parse) == Corrupt
  {
    var tail, end := FormatChunk(body), at + |Laid(parts)|;
    if end <= |b| && tail <= b[end..] { BadFormatIsRead(b, end, body, FormatOf(parts, parse, None), parse); }
    PartsAreSkipped(b, at, parts, tail, end, Corrupt, None, FormatOf(parts, parse, None), parse);
  }

  // ---------------------------------------------------------------- and back

  /** A chunk that is skipped is a leading one. */
  lemma SkippedIsPart(b: bytes, at: nat, before: Option<PcmFormat>, parse: bytes -> Option<PcmFormat>) returns (p: Part)
    requires at <= |b| && ReadChunk(b, at, before, parse).Skip? && ReadChunk(b, at, before, parse).next <= |b|
    ensures Leads(p, parse)
    ensures
      var c := ReadChunk(b, at, before, parse);
      c.next == at + |PartBytes(p)| && b[at..c.next] == PartBytes(p)
      && c.format == if p.tag == Tag("fmt ") then parse(p.body) else before
  {
    Tags();
    var n := LittleEndian(b, at + 4);
    var end, next := at + 8 + n, ReadChunk(b, at, before, parse).next;
    SmallNumber(b, at + 4);
    LittleReads(b, at + 4, n);
    p := Part(b[at..at + 4], b[at + 8..end], b[end..next]);
    Pieces(b, at, end, next);
  }

  lemma SmallNumber(b: bytes, at: nat)
    requires at + 4 <= |b|
    ensures LittleEndian(b, at) < 0x1_0000_0000
  {
  }

  lemma Pieces(b: bytes, at: nat, end: nat, next: nat)
    requires at + 8 <= end <= next <= |b|
    ensures b[at..next] == b[at..at + 4] + b[at + 4..at + 8] + b[at + 8..end] + b[end..next]
  {
    Adjoining(b, at, at + 4, at + 8);
    Adjoining(b, at, at + 8, end);
    Adjoining(b, at, end, next);
  }

  lemma Adjoining(b: bytes, i: nat, j: nat, k: nat)
    requires i <= j <= k <= |b|
    ensures b[i..j] + b[j..k] == b[i..k]
  {
  }

  lemma DataIsHead(b: bytes, at: nat, before: Option<PcmFormat>, parse: bytes -> Option<PcmFormat>)
    requires at <= |b| && ReadChunk(b, at, before, parse).Data?
    ensures
      var c := ReadChunk(b, at, before, parse);
      c.size < 0x1_0000_0000 && c.start == at + 8 && DataHead(c.size) <= b[at..]
  {
    Tags();
    SmallNumber(b, at + 4);
    LittleReads(b, at + 4, LittleEndian(b, at + 4));
    assert b[at..at + 8] == b[at..at + 4] + b[at + 4..at + 8];
    assert b[at..][..8] == b[at..at + 8];
  }

  lemma DamagedIsFormat(b: bytes, at: nat, before: Option<PcmFormat>, parse: bytes -> Option<PcmFormat>)
    returns (body: bytes)
    requires at <= |b| && ReadChunk(b, at, before, parse).Damaged?
    ensures |body| < 0x1_0000_0000 && parse(body).None? && FormatChunk(body) <= b[at..]
  {
    Tags();
    var n := LittleEndian(b, at + 4);
    SmallNumber(b, at + 4);
    LittleReads(b, at + 4, n);
    body := b[at + 8..at + 8 + n];
    assert b[at..at + 8 + n] == b[at..at + 4] + b[at + 4..at + 8] + body;
  }

  lemma Prefixed(b: bytes, at: nat, next: nat, x: bytes, laid: bytes, tail: bytes)
    requires at <= next <= |b| && b[at..next] == x && laid + tail <= b[next..]
    ensures x + laid + tail <= b[at..]
  {
    assert b[at..] == x + b[next..];
    Grouped(x, laid, tail);
    assert x + (laid + tail) <= x + b[next..];
  }

  lemma {:induction false} WalkHasParts(b: bytes, at: nat, before: Option<PcmFormat>, parse: bytes -> Option<PcmFormat>)
    returns (parts: seq<Part>, tail: bytes)
    requires at <= |b| && !Walk(b, at, before, parse).Short?
    ensures Leading(parts, parse) && Laid(parts) + tail <= b[at..]
    ensures
      var h := Walk(b, at, before, parse);
      && (h.Header? ==>
            && h.size < 0x1_0000_0000 && tail == DataHead(h.size)
            && h.start == at + |Laid(parts)| + 8 && h.format == FormatOf(parts, parse, before))
      && (h.Corrupt? ==>
            exists body :: |body| < 0x1_0000_0000 && parse(body).None? && tail == FormatChunk(body))
    decreases if at <= |b| + 1 then |b| + 1 - at else 0
  {
    var c := ReadChunk(b, at, before, parse);
    if c.Data? {
      DataIsHead(b, at, before, parse);
      parts, tail := [], DataHead(c.size);
      assert Laid(parts) + tail == tail;
    } else if c.Damaged? {
      var body := DamagedIsFormat(b, at, before, parse);
      parts, tail := [], FormatChunk(body);
      assert Laid(parts) + tail == tail;
    } else {
      WalkSkips(b, at, before, c.next, c.format, parse);
      var p := SkippedIsPart(b, at, before, parse);
      var rest;
      rest, tail := WalkHasParts(b, c.next, c.format, parse);
      parts := [p] + rest;
      assert parts[1..] == rest;
      Prefixed(b, at, c.next, PartBytes(p), Laid(rest), tail);
    }
  }

  /** The walk finds the head of the data exactly where leading chunks end before it. */
  lemma HeadExactly(b: bytes, h: Header, parse: bytes -> Option<PcmFormat>)
    requires |b| >= 12 && h.Header?
    ensures Walk(b, 12, None, parse) == h <==>
              exists parts :: Headed(b, 12, parts, h.size, parse) && h.start == 20 + |Laid(parts)|
                              && h.format == FormatOf(parts, parse, None)
  {
    if Walk(b, 12, None, parse) == h {
      var parts, tail := WalkHasParts(b, 12, None, parse);
      assert Headed(b, 12, parts, h.size, parse);
    }
    if parts :| Headed(b, 12, parts, h.size, parse) && h.start == 20 + |Laid(parts)|
                && h.format == FormatOf(parts, parse, None) {
      HeadIsWalked(b, 12, parts, h.size, parse);
    }
  }

  /** It breaks off exactly at a format chunk that cannot be read. */
  lemma SpoiltExactly(b: bytes, parse: bytes -> Option<PcmFormat>)
    requires |b| >= 12
    ensures Walk(b, 12, None, parse) == Corrupt <==> exists parts, body :: Spoiled(b, 12, parts, body, parse)
  {
    if Walk(b, 12, None, parse) == Corrupt {
      var parts, tail := WalkHasParts(b, 12, None, parse);
      var body :| |body| < 0x1_0000_0000 && parse(body).None? && tail == FormatChunk(body);
      assert Spoiled(b, 12, parts, body, parse);
    }
    if parts, body :| Spoiled(b, 12, parts, body, parse) {
      SpoiltIsWalked(b, 12, parts, body, parse);
    }
  }

  // ---------------------------------------------------------------- containers

  /** The marks of a RIFF/WAVE container. */
  predicate Marked(b: bytes) {
    |b| >= 12 && b[..4] == Tag("RIFF") && b[8..12] == Tag("WAVE")
  }

  /** The size its head states. */
  function Stated(b: bytes): nat
    requires Marked(b)
  {
    Number(b[4..8])
  }

  /** A size that is left open. */
  predicate LeftOpen(size: nat) {
    size == 0 || size == 0xFFFF_FFFF
  }

  /** The head of the data stands behind leading chunks that give this format. */
  ghost predicate DataAt(b: bytes, format: Option<PcmFormat>, start: nat, size: nat,
                         parse: bytes -> Option<PcmFormat>) {
    exists parts :: Headed(b, 12, parts, size, parse) && start == 20 + |Laid(parts)|
                    && format == FormatOf(parts, parse, None)
  }

  ghost predicate Unreadable(b: bytes, parse: bytes -> Option<PcmFormat>) {
    exists parts, body :: Spoiled(b, 12, parts, body, parse)
  }

  lemma DataIsWalked(b: bytes, format: Option<PcmFormat>, start: nat, size: nat, parse: bytes -> Option<PcmFormat>)
    requires |b| >= 12
    ensures DataAt(b, format, start, size, parse) <==> Walk(b, 12, None, parse) == Header(format, start, size)
  {
    HeadExactly(b, Header(format, start, size), parse);
  }

  lemma StatedIsRead(b: bytes)
    requires |b| >= 12
    ensures Marked(b) <==> b[..4] == RIFF && b[8..12] == WAVE
    ensures Marked(b) ==> Stated(b) == LittleEndian(b, 4) && Unknown(LittleEndian(b, 4)) == LeftOpen(Stated(b))
  {
    Tags();
    LittleIsNumber(b, 4);
  }

  /** What the head of a container says that states its size. */
  ghost predicate Closed(b: bytes, length: nat, codec: Codec) {
    Marked(b) && !LeftOpen(Stated(b)) && length == Stated(b) + 8 && 12 <= length <= codec.limit
  }

  /**
   A container is complete if and only if its marks are there, it states its size, which is within the limit,
   all its bytes are there, and no chunk before its data is unreadable or leaves the size of the data open.
   */
  lemma CompleteExactly(b: bytes, length: nat, codec: Codec)
    ensures TakeContainer(b, codec) == Complete(length) <==>
              && Closed(b, length, codec) && length <= |b| && !Unreadable(b[..length], codec.parse)
              && forall format, start, size ::
                   DataAt(b[..length], format, start, size, codec.parse) ==> !LeftOpen(size)
  {
    if |b| >= 12 {
      StatedIsRead(b);
      if Closed(b, length, codec) && length <= |b| {
        var whole := b[..length];
        assert Upto(b, length) == whole;
        SpoiltExactly(whole, codec.parse);
        forall format, start: nat, size: nat
          ensures DataAt(whole, format, start, size, codec.parse) <==>
                  Walk(whole, 12, None, codec.parse) == Header(format, start, size)
        {
          DataIsWalked(whole, format, start, size, codec.parse);
        }
        KnownIs(b, length, codec);
      }
    }
  }

  lemma KnownIs(b: bytes, length: nat, codec: Codec)
    requires Closed(b, length, codec)
    ensures TakeContainer(b, codec) == TakeKnown(b, length, codec)
  {
    StatedIsRead(b);
  }

  /**
   The PCM of a body runs on from a header if and only if its marks are there, leading chunks give its format,
   and either the container or, within the stated size, the data leaves its size open.
   */
  lemma OpenExactly(b: bytes, format: PcmFormat, start: nat, codec: Codec)
    ensures TakeContainer(b, codec) == OpenEnded(format, start) <==>
              && Marked(b)
              && if LeftOpen(Stated(b)) then exists size :: DataAt(b, Some(format), start, size, codec.parse)
                 else && 12 <= Stated(b) + 8 <= codec.limit
                      && exists size :: LeftOpen(size)
                                        && DataAt(Upto(b, Stated(b) + 8), Some(format), start, size, codec.parse)
  {
    if |b| >= 12 {
      StatedIsRead(b);
      if Marked(b) {
        forall size: nat
          ensures DataAt(b, Some(format), start, size, codec.parse) <==>
                  Walk(b, 12, None, codec.parse) == Header(Some(format), start, size)
        {
          DataIsWalked(b, Some(format), start, size, codec.parse);
        }
        var length := Stated(b) + 8;
        if !LeftOpen(Stated(b)) && 12 <= length <= codec.limit {
          KnownIs(b, length, codec);
          OpenWithin(b, format, start, length, codec);
        }
      }
    }
  }

  lemma KnownOpen(b: bytes, format: PcmFormat, start: nat, length: nat, codec: Codec)
    requires length >= 12
    ensures
      var h := Walk(Upto(b, length), 12, None, codec.parse);
      TakeKnown(b, length, codec) == OpenEnded(format, start) <==>
        h.Header? && LeftOpen(h.size) && h.format == Some(format) && h.start == start
  {
    var front := Upto(b, length);
    if Walk(front, 12, None, codec.parse).Header? {
      assert b == front + b[|front|..];
      WalkStands(front, b[|front|..], 12, None, codec.parse);
    }
  }

  lemma OpenWithin(b: bytes, format: PcmFormat, start: nat, length: nat, codec: Codec)
    requires |b| >= 12 && length >= 12
    ensures TakeKnown(b, length, codec) == OpenEnded(format, start) <==>
              exists size :: LeftOpen(size) && DataAt(Upto(b, length), Some(format), start, size, codec.parse)
  {
    var front := Upto(b, length);
    var h := Walk(front, 12, None, codec.parse);
    KnownOpen(b, format, start, length, codec);
    if h.Header? {
      DataIsWalked(front, Some(format), start, h.size, codec.parse);
    }
    forall size: nat | DataAt(front, Some(format), start, size, codec.parse)
      ensures h == Header(Some(format), start, size)
    {
      DataIsWalked(front, Some(format), start, size, codec.parse);
    }
  }

  /**
   A body is refused at a container if and only if its marks are wrong, it states a size that cannot be, a
   format chunk is unreadable, or the size is left open and no format was given.
   */
  lemma InvalidExactly(b: bytes, codec: Codec)
    ensures TakeContainer(b, codec) == Invalid <==>
              && |b| >= 12
              && (|| !Marked(b)
                  || (LeftOpen(Stated(b)) && Hopeless(b, codec.parse, false))
                  || (!LeftOpen(Stated(b)) && (Stated(b) + 8 < 12 || Stated(b) + 8 > codec.limit))
                  || (!LeftOpen(Stated(b)) && Hopeless(Upto(b, Stated(b) + 8), codec.parse, true)))
  {
    if |b| >= 12 {
      StatedIsRead(b);
      if Marked(b) {
        HopelessIs(b, codec.parse, false);
        var length := Stated(b) + 8;
        if !LeftOpen(Stated(b)) && 12 <= length <= codec.limit {
          KnownIs(b, length, codec);
          HopelessWithin(b, length, codec);
        }
      }
    }
  }

  /** A format chunk cannot be read, or the data comes, leaving its size open where that matters, without a format. */
  ghost predicate Hopeless(b: bytes, parse: bytes -> Option<PcmFormat>, closed: bool) {
    || Unreadable(b, parse)
    || exists start, size :: (closed ==> LeftOpen(size)) && DataAt(b, None, start, size, parse)
  }

  lemma HopelessIs(b: bytes, parse: bytes -> Option<PcmFormat>, closed: bool)
    requires |b| >= 12
    ensures
      var h := Walk(b, 12, None, parse);
      Hopeless(b, parse, closed) <==> h.Corrupt? || (h.Header? && h.format.None? && (closed ==> LeftOpen(h.size)))
  {
    SpoiltExactly(b, parse);
    forall start: nat, size: nat
      ensures DataAt(b, None, start, size, parse) <==> Walk(b, 12, None, parse) == Header(None, start, size)
    {
      DataIsWalked(b, None, start, size, parse);
    }
  }

  lemma HopelessWithin(b: bytes, length: nat, codec: Codec)
    requires |b| >= 12 && length >= 12
    ensures TakeKnown(b, length, codec) == Invalid <==> Hopeless(Upto(b, length), codec.parse, true)
  {
    var front := Upto(b, length);
    HopelessIs(front, codec.parse, true);
    if Walk(front, 12, None, codec.parse).Header? {
      assert b == front + b[|front|..];
      WalkStands(front, b[|front|..], 12, None, codec.parse);
    }
  }
}
