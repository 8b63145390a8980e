/**
 Speech audio off a chunked body: back-to-back complete RIFF/WAVE containers, or one WAV of unknown length
 whose PCM runs to the end of the body. Decoding a complete container and parsing a `fmt ` chunk are parameters.
 */
module WavStreams {
  import opened Wrappers
  import opened CaptureTiming
  import opened Incremental

  const RIFF_HEADER_BYTES: nat := 12
  const CHUNK_HEADER_BYTES: nat := 8
  const MAX_PCM_FRAME_BYTES: nat := 65536
  const RIFF: bytes := [0x52, 0x49, 0x46, 0x46]
  const WAVE: bytes := [0x57, 0x41, 0x56, 0x45]
  const DATA: bytes := [0x64, 0x61, 0x74, 0x61]
  const FMT: bytes := [0x66, 0x6D, 0x74, 0x20]

  datatype Frame = Frame(sequence: nat, format: PcmFormat, payload: bytes)

  /** How a `fmt ` chunk parses, what a complete container decodes to from a sequence on, and the body limit. */
  datatype Codec = Codec(parse: bytes -> Option<PcmFormat>, decode: (nat, bytes) -> Option<seq<Frame>>, limit: nat)

  function LittleEndian(b: bytes, at: nat): nat
    requires at + 4 <= |b|
  {
    (b[at] as nat) + 256 * (b[at + 1] as nat) + 65536 * (b[at + 2] as nat) + 16777216 * (b[at + 3] as nat)
  }

  predicate Unknown(size: nat) {
    size == 0 || size == 0xFFFF_FFFF
  }

  // ---------------------------------------------------------------- the header walk

  datatype Header = Short | Corrupt | Header(format: Option<PcmFormat>, start: nat, size: nat)

  /** What stands at one place of the walk. */
  datatype Chunk = Incomplete | Damaged | Data(start: nat, size: nat) | Skip(next: nat, format: Option<PcmFormat>)

  function ReadChunk(b: bytes, at: nat, format: Option<PcmFormat>, parse: bytes -> Option<PcmFormat>): (c: Chunk)
    ensures c.Data? ==> at + CHUNK_HEADER_BYTES == c.start <= |b|
    ensures c.Skip? ==> at + CHUNK_HEADER_BYTES <= c.next <= |b| + 1
  {
    if |b| < at + CHUNK_HEADER_BYTES then Incomplete
    else
      var declared := LittleEndian(b, at + 4);
      var body, end := at + CHUNK_HEADER_BYTES, at + CHUNK_HEADER_BYTES + declared;
      if b[at..at + 4] == DATA then Data(body, declared)
      else if |b| < end then Incomplete
      else if b[at..at + 4] != FMT then Skip(end + declared % 2, format)
      else
        var parsed := parse(b[body..end]);
        if parsed.None? then Damaged else Skip(end + declared % 2, parsed)
  }

  /** Walks the chunks from `at` up to the `data` chunk; `Short` while it, or a chunk before it, is incomplete. */
  function Walk(b: bytes, at: nat, format: Option<PcmFormat>, parse: bytes -> Option<PcmFormat>): (h: Header)
    ensures h.Header? ==> at + CHUNK_HEADER_BYTES <= h.start <= |b|
    decreases if at <= |b| + 1 then |b| + 1 - at else 0
  {
    match ReadChunk(b, at, format, parse)
    case Incomplete => Short
    case Damaged => Corrupt
    case Data(start, size) => Header(format, start, size)
    case Skip(next, known) => Walk(b, next, known, parse)
  }

  lemma SliceStands(b: bytes, x: bytes, i: nat, j: nat)
    requires i <= j <= |b|
    ensures (b + x)[i..j] == b[i..j]
  {
  }

  lemma LittleEndianStands(b: bytes, x: bytes, at: nat)
    requires at + 4 <= |b|
    ensures LittleEndian(b + x, at) == LittleEndian(b, at)
  {
  }

  lemma ChunkStands(b: bytes, x: bytes, at: nat, format: Option<PcmFormat>, parse: bytes -> Option<PcmFormat>)
    requires !ReadChunk(b, at, format, parse).Incomplete?
    ensures ReadChunk(b + x, at, format, parse) == ReadChunk(b, at, format, parse)
  {
    var declared := LittleEndian(b, at + 4);
    var body, end := at + CHUNK_HEADER_BYTES, at + CHUNK_HEADER_BYTES + declared;
    LittleEndianStands(b, x, at + 4);
    SliceStands(b, x, at, at + 4);
    if end <= |b| { SliceStands(b, x, body, end); }
  }

  lemma {:induction false} WalkStands(b: bytes, x: bytes, at: nat, format: Option<PcmFormat>,
                                      parse: bytes -> Option<PcmFormat>)
    requires !Walk(b, at, format, parse).Short?
    ensures Walk(b + x, at, format, parse) == Walk(b, at, format, parse)
    decreases if at <= |b| + 1 then |b| + 1 - at else 0
  {
    ChunkStands(b, x, at, format, parse);
    var c := ReadChunk(b, at, format, parse);
    if c.Skip? { WalkStands(b, x, c.next, c.format, parse); }
  }

  // ---------------------------------------------------------------- one container

  datatype Container = NeedMore | Invalid | Complete(length: nat) | OpenEnded(format: PcmFormat, length: nat)

  function Upto(b: bytes, n: nat): bytes {
    if |b| <= n then b else b[..n]
  }

  /** A header whose size is unknown: its PCM runs to the end of the body. */
  function TakeOpenEnded(b: bytes, codec: Codec): (c: Container)
    ensures c.OpenEnded? ==> 1 <= c.length <= |b|
    ensures !c.Complete?
  {
    match Walk(b, RIFF_HEADER_BYTES, None, codec.parse)
    case Short => NeedMore
    case Corrupt => Invalid
    case Header(format, start, _) => if format.None? then Invalid else OpenEnded(format.value, start)
  }

  /** A container of a stated length, unless the header within it leaves the data size unknown. */
  function TakeKnown(b: bytes, length: nat, codec: Codec): (c: Container)
    ensures c.OpenEnded? || (length > 0 && c.Complete?) ==> 1 <= c.length <= |b|
  {
    var header := Walk(Upto(b, length), RIFF_HEADER_BYTES, None, codec.parse);
    if header.Corrupt? then Invalid
    else if header.Header? && Unknown(header.size) then TakeOpenEnded(b, codec)
    else if |b| < length then NeedMore
    else Complete(length)
  }

  function TakeContainer(b: bytes, codec: Codec): (c: Container)
    ensures c.OpenEnded? || c.Complete? ==> 1 <= c.length <= |b|
  {
    if |b| < RIFF_HEADER_BYTES then NeedMore
    else if b[..4] != RIFF || b[8..12] != WAVE then Invalid
    else
      var size := LittleEndian(b, 4);
      if Unknown(size) then TakeOpenEnded(b, codec)
      else
        var length := size + 8;
        if length < RIFF_HEADER_BYTES || length > codec.limit then Invalid else TakeKnown(b, length, codec)
  }

  lemma OpenEndedStands(b: bytes, x: bytes, codec: Codec)
    ensures !TakeOpenEnded(b, codec).NeedMore? ==> TakeOpenEnded(b + x, codec) == TakeOpenEnded(b, codec)
  {
    if !Walk(b, RIFF_HEADER_BYTES, None, codec.parse).Short? { WalkStands(b, x, RIFF_HEADER_BYTES, None, codec.parse); }
  }

  lemma UptoStands(b: bytes, x: bytes, n: nat) returns (y: bytes)
    ensures Upto(b + x, n) == Upto(b, n) + y
    ensures |b| >= n ==> Upto(b + x, n) == Upto(b, n)
  {
    if |b| >= n {
      y := [];
      assert Upto(b + x, n) == Upto(b, n) + y;
    } else {
      y := Upto(x, n - |b|);
      assert Upto(b + x, n) == Upto(b, n) + y;
    }
  }

  lemma KnownStands(b: bytes, x: bytes, length: nat, codec: Codec)
    requires !TakeKnown(b, length, codec).NeedMore?
    ensures TakeKnown(b + x, length, codec) == TakeKnown(b, length, codec)
  {
    OpenEndedStands(b, x, codec);
    var y := UptoStands(b, x, length);
    if !Walk(Upto(b, length), RIFF_HEADER_BYTES, None, codec.parse).Short? {
      WalkStands(Upto(b, length), y, RIFF_HEADER_BYTES, None, codec.parse);
    }
  }

  lemma ContainerStands(b: bytes, x: bytes, codec: Codec)
    ensures !TakeContainer(b, codec).NeedMore? ==> TakeContainer(b + x, codec) == TakeContainer(b, codec)
  {
    if |b| >= RIFF_HEADER_BYTES {
      SliceStands(b, x, 0, 4);
      SliceStands(b, x, 8, 12);
      LittleEndianStands(b, x, 4);
      OpenEndedStands(b, x, codec);
      var length := LittleEndian(b, 4) + 8;
      if !TakeKnown(b, length, codec).NeedMore? { KnownStands(b, x, length, codec); }
    }
  }

  // ---------------------------------------------------------------- the stream

  /** Open-ended PCM: its format, the bytes of a 20 ms frame and of one sample of every channel. */
  datatype Pcm = Pcm(format: PcmFormat, size: nat, unit: nat)

  function PcmOf(f: PcmFormat): Pcm {
    Pcm(f, f.rate * 20 / 1000 * Alignment(f), Alignment(f))
  }

  /**
   The format every container must have, the open-ended PCM if the body turned to it, and the next frame's
   sequence.
   */
  datatype Stream = Stream(expected: Option<PcmFormat>, open: Option<Pcm>, next: nat)

  const START: Stream := Stream(None, None, 0)

  predicate StableFormat(s: Stream, format: PcmFormat) {
    s.expected.None? || s.expected.value == format
  }

  function TakePcm(s: Stream, pcm: Pcm, b: bytes): Step<Stream, Frame> {
    if pcm.size == 0 then Fail
    else if |b| < pcm.size then Wait
    else if pcm.size > MAX_PCM_FRAME_BYTES then Fail
    else Go(s.(next := s.next + 1), pcm.size, [Frame(s.next, pcm.format, b[..pcm.size])])
  }

  function TakeComplete(s: Stream, frames: Option<seq<Frame>>, length: nat): Step<Stream, Frame> {
    if frames.None? || frames.value == [] || !StableFormat(s, frames.value[0].format) then Fail
    else Go(s.(expected := Some(frames.value[0].format), next := frames.value[|frames.value| - 1].sequence + 1),
            length, frames.value)
  }

  function TakeSpeech(s: Stream, b: bytes, codec: Codec): Step<Stream, Frame> {
    if s.open.Some? then TakePcm(s, s.open.value, b)
    else
      match TakeContainer(b, codec)
      case NeedMore => Wait
      case Invalid => Fail
      case OpenEnded(format, length) =>
        if StableFormat(s, format) then Go(s.(expected := Some(format), open := Some(PcmOf(format))), length, [])
        else Fail
      case Complete(length) => TakeComplete(s, codec.decode(s.next, b[..length]), length)
  }

  function Taker(codec: Codec): (Stream, bytes) -> Step<Stream, Frame> {
    (s: Stream, b: bytes) => TakeSpeech(s, b, codec)
  }

  lemma SpeechStands(s: Stream, b: bytes, x: bytes, codec: Codec)
    requires !TakeSpeech(s, b, codec).Wait?
    ensures TakeSpeech(s, b + x, codec) == TakeSpeech(s, b, codec)
  {
    if s.open.Some? {
      if s.open.value.size <= |b| { SliceStands(b, x, 0, s.open.value.size); }
    } else {
      ContainerStands(b, x, codec);
      var c := TakeContainer(b, codec);
      if c.Complete? { SliceStands(b, x, 0, c.length); }
    }
  }

  lemma TakerIsStable(codec: Codec)
    ensures Consuming(Taker(codec)) && Stable(Taker(codec))
  {
    var take := Taker(codec);
    forall s, b, x | !take(s, b).Wait? ensures take(s, b + x) == take(s, b) {
      SpeechStands(s, b, x, codec);
    }
  }

  // ---------------------------------------------------------------- open-ended PCM

  /** The PCM cut into frames of `size` bytes, the last one possibly shorter, numbered from `next`. */
  function Cut(pcm: bytes, size: nat, format: PcmFormat, next: nat): seq<Frame>
    requires size > 0
    decreases |pcm|
  {
    if pcm == [] then []
    else if |pcm| <= size then [Frame(next, format, pcm)]
    else [Frame(next, format, pcm[..size])] + Cut(pcm[size..], size, format, next + 1)
  }

  function Payloads(frames: seq<Frame>): bytes {
    if frames == [] then [] else frames[0].payload + Payloads(frames[1..])
  }

  /** Frames numbered from `next`, each `size` bytes but for a shorter last one. */
  ghost predicate Even(frames: seq<Frame>, size: nat, format: PcmFormat, next: nat) {
    forall k :: 0 <= k < |frames| ==>
      && frames[k].sequence == next + k && frames[k].format == format
      && 0 < |frames[k].payload| <= size && (k < |frames| - 1 ==> |frames[k].payload| == size)
  }

  lemma {:induction false} CutIsEven(pcm: bytes, size: nat, format: PcmFormat, next: nat)
    requires size > 0
    ensures Payloads(Cut(pcm, size, format, next)) == pcm && Even(Cut(pcm, size, format, next), size, format, next)
    decreases |pcm|
  {
    if pcm != [] && |pcm| <= size {
      assert Payloads([Frame(next, format, pcm)]) == pcm + Payloads([]);
    } else if pcm != [] {
      CutIsEven(pcm[size..], size, format, next + 1);
      var rest := Cut(pcm[size..], size, format, next + 1);
      var frames := Cut(pcm, size, format, next);
      assert frames[1..] == rest;
      assert pcm == pcm[..size] + pcm[size..];
      forall k | 0 <= k < |frames|
        ensures frames[k].sequence == next + k && frames[k].format == format
        ensures 0 < |frames[k].payload| <= size && (k < |frames| - 1 ==> |frames[k].payload| == size) {
        if k > 0 { assert frames[k] == rest[k - 1]; }
      }
    }
  }

  /** The largest multiple of `unit` that is at most `n`. */
  function Rounded(n: nat, unit: nat): (r: nat)
    requires unit > 0
    ensures r <= n < r + unit
    decreases n
  {
    if n < unit then 0 else unit + Rounded(n - unit, unit)
  }

  lemma {:induction false} RoundedDivides(n: nat, unit: nat) returns (q: nat)
    requires unit > 0
    ensures Rounded(n, unit) == unit * q
    decreases n
  {
    q := 0;
    if n >= unit {
      q := RoundedDivides(n - unit, unit);
      assert unit + unit * q == unit * (q + 1);
      q := q + 1;
    }
  }

  lemma Multiples(unit: nat, k: int)
    requires unit > 0
    ensures k >= 1 ==> unit * k >= unit
    ensures k <= -1 ==> unit * k <= 0 - unit
  {
    if k >= 1 {
      assert unit * k == unit + unit * (k - 1);
    } else if k <= -1 {
      assert unit * k == unit * (k + 1) - unit;
    }
  }

  lemma RoundedIs(n: nat, unit: nat)
    requires unit > 0
    ensures n - n % unit == Rounded(n, unit)
  {
    var q := RoundedDivides(n, unit);
    assert n == unit * (n / unit) + n % unit;
    SameQuotient(unit, q, n / unit, n - Rounded(n, unit), n % unit);
  }

  lemma SameQuotient(unit: nat, q: nat, d: nat, r: nat, s: nat)
    requires r < unit && s < unit && unit * q + r == unit * d + s
    ensures r == s
  {
    assert unit * (q - d) == unit * q - unit * d;
    Multiples(unit, q - d);
  }

  lemma {:induction false} CutFront(pcm: bytes, size: nat, format: PcmFormat, next: nat)
    requires 0 < size <= |pcm|
    ensures Cut(pcm, size, format, next) ==
            [Frame(next, format, pcm[..size])] + Cut(pcm[size..], size, format, next + 1)
  {
    assert |pcm| == size ==> pcm[..size] == pcm;
  }

  lemma SlicesBehind(b: bytes, size: nat, take: nat)
    requires size <= take <= |b|
    ensures b[..take][size..] == b[size..][..take - size] && b[..take][..size] == b[..size]
    ensures b[size..][take - size..] == b[take..]
  {
  }

  /** Before the end of the body, open-ended PCM is taken in whole 20 ms frames and the rest is held back. */
  lemma {:induction false} PcmDrains(s: Stream, b: bytes, pcm: Pcm, take: nat, codec: Codec)
    requires Consuming(Taker(codec)) && s.open == Some(pcm) && 0 < pcm.size <= MAX_PCM_FRAME_BYTES
    requires take == Rounded(|b|, pcm.size) <= |b|
    ensures
      var frames := Cut(b[..take], pcm.size, pcm.format, s.next);
      Drain(Taker(codec), s, b) == Progress(frames, Waiting(s.(next := s.next + |frames|), b[take..]))
    decreases |b|
  {
    assert Taker(codec)(s, b) == TakeSpeech(s, b, codec);
    if |b| < pcm.size {
      DrainStops(Taker(codec), s, b);
      assert b[0..] == b;
    } else {
      var later := s.(next := s.next + 1);
      PcmDrains(later, b[pcm.size..], pcm, take - pcm.size, codec);
      DrainGoes(Taker(codec), s, b, later, pcm.size, [Frame(s.next, pcm.format, b[..pcm.size])]);
      CutFront(b[..take], pcm.size, pcm.format, s.next);
      SlicesBehind(b, pcm.size, take);
    }
  }

  // ---------------------------------------------------------------- the end of the body

  datatype Speech = Speech(frames: seq<Frame>, ok: bool)

  /** The last frame of open-ended PCM: what is aligned of the bytes held back. */
  function EndedPcm(out: seq<Frame>, pcm: Pcm, next: nat, rest: bytes, take: nat): Speech
    requires take <= |rest|
  {
    if take == 0 then Speech(out, rest == [] && out != [])
    else if take > MAX_PCM_FRAME_BYTES then Speech(out, false)
    else Speech(out + [Frame(next, pcm.format, rest[..take])], take == |rest|)
  }

  /**
   At the end, open-ended PCM gives up its aligned remainder; anything still held back, or no frame at all, is
   an error.
   */
  function Ended(p: Progress<Stream, Frame>): Speech {
    if p.status.Failed? then Speech(p.out, false)
    else
      var s, rest := p.status.state, p.status.rest;
      if s.open.None? || s.open.value.unit == 0 then Speech(p.out, rest == [] && p.out != [])
      else
        EndedPcm(p.out, s.open.value, s.next, rest, Rounded(|rest|, s.open.value.unit))
  }

  /** What a whole body says. */
  ghost function Spoken(body: bytes, codec: Codec): Speech {
    TakerIsStable(codec);
    Ended(Drain(Taker(codec), START, body))
  }

  /** The frames and the verdict depend on the bytes of the body, not on how they were chunked. */
  lemma ChunkingDoesNotMatter(chunks: seq<bytes>, codec: Codec)
    ensures Consuming(Taker(codec))
    ensures Ended(Fed(Taker(codec), START, chunks)) == Spoken(Joined(chunks), codec)
  {
    TakerIsStable(codec);
    ChunkingIsIrrelevant(Taker(codec), START, chunks);
  }

  ghost predicate Usable(s: Stream) {
    s.open.Some? && s.open.value.size > 0 ==> s.open.value.unit > 0
  }

  lemma PcmIsUsable(f: PcmFormat)
    ensures PcmOf(f).size > 0 ==> PcmOf(f).unit > 0
  {
    if Alignment(f) == 0 { assert f.rate * 20 / 1000 * Alignment(f) == 0; }
  }

  /** Open-ended PCM that cannot be framed fails once a frame of it is there; PCM short of a frame waits. */
  lemma PcmStops(s: Stream, b: bytes, pcm: Pcm, codec: Codec)
    requires Consuming(Taker(codec)) && s.open == Some(pcm)
    ensures pcm.size == 0 || (|b| >= pcm.size > MAX_PCM_FRAME_BYTES) ==>
            Drain(Taker(codec), s, b) == Progress([], Failed)
    ensures |b| < pcm.size ==> Drain(Taker(codec), s, b) == Progress([], Waiting(s, b))
  {
    assert Taker(codec)(s, b) == TakeSpeech(s, b, codec);
    if pcm.size == 0 || |b| < pcm.size || pcm.size > MAX_PCM_FRAME_BYTES { DrainStops(Taker(codec), s, b); }
  }
}
