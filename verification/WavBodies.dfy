/**
 Exactly which bodies the speech decoder accepts, and with which frames: complete containers one after
 another, then at most one header of unknown size with its PCM.
 */
module WavBodies {
  import opened Wrappers
  import opened CaptureTiming
  import opened Incremental
  import opened WavStreams

  // ---------------------------------------------------------------- open-ended PCM at the end of a body

  lemma {:induction false} CutAppends(a: bytes, b: bytes, size: nat, format: PcmFormat, next: nat)
    requires size > 0 && Rounded(|a|, size) == |a| && 0 < |b| <= size
    ensures Cut(a + b, size, format, next) ==
            Cut(a, size, format, next) + [Frame(next + |Cut(a, size, format, next)|, format, b)]
    decreases |a|
  {
    if a == [] {
      assert a + b == b;
    } else {
      CutFront(a, size, format, next);
      assert (a + b)[..size] == a[..size] && (a + b)[size..] == a[size..] + b;
      CutAppends(a[size..], b, size, format, next + 1);
    }
  }

  lemma {:induction false} RoundedAgain(n: nat, unit: nat)
    requires unit > 0
    ensures Rounded(Rounded(n, unit), unit) == Rounded(n, unit)
    decreases n
  {
    if n >= unit { RoundedAgain(n - unit, unit); }
  }

  lemma CutJoins(b: bytes, take: nat, size: nat, format: PcmFormat, next: nat, out: seq<Frame>)
    requires size > 0 && take == Rounded(|b|, size) && out == Cut(b[..take], size, format, next)
    ensures Cut(b, size, format, next) ==
            if b[take..] == [] then out else out + [Frame(next + |out|, format, b[take..])]
  {
    RoundedAgain(|b|, size);
    assert b == b[..take] + b[take..];
    if take < |b| {
      CutAppends(b[..take], b[take..], size, format, next);
    } else {
      assert b[..take] == b;
    }
  }

  /** The bytes short of a whole frame at the end of the PCM. */
  function Leftover(b: bytes, pcm: Pcm): nat
    requires pcm.size > 0
  {
    |b| - Rounded(|b|, pcm.size)
  }

  /** PCM that can be framed: a frame has bytes, no frame exceeds the frame limit, and no sample is cut short. */
  predicate Framed(b: bytes, pcm: Pcm) {
    && pcm.size > 0 && pcm.unit > 0
    && (pcm.size <= MAX_PCM_FRAME_BYTES || |b| <= MAX_PCM_FRAME_BYTES)
    && Rounded(Leftover(b, pcm), pcm.unit) == Leftover(b, pcm)
  }

  /** What the end of the body makes of the bytes held back. */
  lemma EndedOpen(s: Stream, out: seq<Frame>, rest: bytes)
    requires s.open.Some? && s.open.value.unit > 0
    ensures
      var e, left := Ended(Progress(out, Waiting(s, rest))), |rest|;
      && (e.ok <==> Rounded(left, s.open.value.unit) == left <= MAX_PCM_FRAME_BYTES && (rest != [] || out != []))
      && (e.ok ==> e.frames == if rest == [] then out else out + [Frame(s.next, s.open.value.format, rest)])
  {
    assert rest[..|rest|] == rest;
  }

  /** The end of PCM whose whole frames were taken and whose rest is held back. */
  lemma RestEnds(s: Stream, b: bytes, pcm: Pcm, held: seq<Frame>, out: seq<Frame>, take: nat)
    requires s.open == Some(pcm) && 0 < pcm.size <= MAX_PCM_FRAME_BYTES && pcm.unit > 0
    requires take == Rounded(|b|, pcm.size) && out == Cut(b[..take], pcm.size, pcm.format, s.next)
    ensures
      var e := Ended(Progress(held + out, Waiting(s.(next := s.next + |out|), b[take..])));
      && (e.ok <==> Framed(b, pcm) && (b != [] || held != []))
      && (e.ok ==> e.frames == held + Cut(b, pcm.size, pcm.format, s.next))
  {
    CutJoins(b, take, pcm.size, pcm.format, s.next, out);
    EndedOpen(s.(next := s.next + |out|), held + out, b[take..]);
    assert out == [] ==> b[..take] == [];
  }

  lemma PcmEndsSmall(s: Stream, b: bytes, pcm: Pcm, held: seq<Frame>, codec: Codec)
    requires Consuming(Taker(codec)) && s.open == Some(pcm) && 0 < pcm.size <= MAX_PCM_FRAME_BYTES && pcm.unit > 0
    ensures
      var p := Drain(Taker(codec), s, b);
      var e := Ended(Progress(held + p.out, p.status));
      && (e.ok <==> Framed(b, pcm) && (b != [] || held != []))
      && (e.ok ==> e.frames == held + Cut(b, pcm.size, pcm.format, s.next))
  {
    var take := Rounded(|b|, pcm.size);
    PcmDrains(s, b, pcm, take, codec);
    RestEnds(s, b, pcm, held, Cut(b[..take], pcm.size, pcm.format, s.next), take);
  }

  lemma PcmEndsLarge(s: Stream, b: bytes, pcm: Pcm, held: seq<Frame>, codec: Codec)
    requires Consuming(Taker(codec)) && s.open == Some(pcm) && (pcm.size > 0 ==> pcm.unit > 0)
    requires pcm.size == 0 || pcm.size > MAX_PCM_FRAME_BYTES
    ensures
      var p := Drain(Taker(codec), s, b);
      var e := Ended(Progress(held + p.out, p.status));
      && (e.ok <==> Framed(b, pcm) && (b != [] || held != []))
      && (e.ok ==> e.frames == held + Cut(b, pcm.size, pcm.format, s.next))
  {
    PcmStops(s, b, pcm, codec);
    assert held + [] == held;
    if |b| < pcm.size { EndedOpen(s, held, b); }
  }

  /**
   Open-ended PCM after any frames and under any numbering, drained and ended: it is accepted exactly when it
   can be framed and there is anything to say, and is then cut into frames numbered on.
   */
  lemma PcmEnds(s: Stream, b: bytes, pcm: Pcm, held: seq<Frame>, codec: Codec)
    requires Consuming(Taker(codec)) && s.open == Some(pcm) && (pcm.size > 0 ==> pcm.unit > 0)
    ensures
      var p := Drain(Taker(codec), s, b);
      var e := Ended(Progress(held + p.out, p.status));
      && (e.ok <==> Framed(b, pcm) && (b != [] || held != []))
      && (e.ok ==> e.frames == held + Cut(b, pcm.size, pcm.format, s.next))
  {
    if 0 < pcm.size <= MAX_PCM_FRAME_BYTES {
      PcmEndsSmall(s, b, pcm, held, codec);
    } else {
      PcmEndsLarge(s, b, pcm, held, codec);
    }
  }

  // ---------------------------------------------------------------- complete containers

  /** The frames of some containers, and the stream after them. */
  datatype Voice = Voice(frames: seq<Frame>, after: Stream)

  /** One complete container, taken as the decoder takes it. */
  function Taken(c: bytes, s: Stream, codec: Codec): Step<Stream, Frame> {
    if TakeContainer(c, codec) != Complete(|c|) then Fail else TakeComplete(s, codec.decode(s.next, c), |c|)
  }

  /**
   Decoding complete containers one by one, numbering on; nothing when a part is no complete container, does
   not decode or changes the format.
   */
  function Voiced(containers: seq<bytes>, s: Stream, codec: Codec): Option<Voice>
    decreases |containers|
  {
    if containers == [] then Some(Voice([], s))
    else
      var step := Taken(containers[0], s, codec);
      if !step.Go? then None
      else
        var later := Voiced(containers[1..], step.next, codec);
        if later.None? then None else Some(Voice(step.out + later.value.frames, later.value.after))
  }

  lemma CompleteFirst(s: Stream, c: bytes, rest: bytes, codec: Codec)
    requires s.open.None? && Taken(c, s, codec).Go?
    ensures TakeSpeech(s, c + rest, codec) == Taken(c, s, codec)
  {
    ContainerStands(c, rest, codec);
    assert (c + rest)[..|c|] == c;
  }

  /** The bytes of a complete container are one by themselves. */
  lemma CompleteAlone(b: bytes, length: nat, codec: Codec)
    requires TakeContainer(b, codec) == Complete(length)
    ensures length <= |b| && TakeContainer(b[..length], codec) == Complete(length)
  {
    var c := b[..length];
    assert c[..4] == b[..4] && c[8..12] == b[8..12];
    assert LittleEndian(c, 4) == LittleEndian(b, 4);
    assert Upto(c, length) == c == Upto(b, length);
  }

  /** Decoding complete containers leaves the stream closed and numbers on from the last frame. */
  lemma {:induction false} VoicedRunsOn(containers: seq<bytes>, s: Stream, codec: Codec, v: Voice)
    requires Voiced(containers, s, codec) == Some(v)
    ensures v.after.open == s.open
    ensures v.after.next == if v.frames == [] then s.next else v.frames[|v.frames| - 1].sequence + 1
    decreases |containers|
  {
    if containers != [] {
      var step := Taken(containers[0], s, codec);
      VoicedRunsOn(containers[1..], step.next, codec, Voiced(containers[1..], step.next, codec).value);
    }
  }

  lemma VoicedFront(c: bytes, others: seq<bytes>, s: Stream, codec: Codec, next: Stream, out: seq<Frame>, w: Voice)
    requires Taken(c, s, codec) == Go(next, |c|, out) && Voiced(others, next, codec) == Some(w)
    ensures Voiced([c] + others, s, codec) == Some(Voice(out + w.frames, w.after))
  {
    assert ([c] + others)[1..] == others;
  }

  lemma FirstDrains(c: bytes, rest: bytes, s: Stream, codec: Codec, next: Stream, out: seq<Frame>,
                    later: Progress<Stream, Frame>)
    requires Consuming(Taker(codec)) && s.open.None? && Taken(c, s, codec) == Go(next, |c|, out)
    requires later == Drain(Taker(codec), next, rest)
    ensures Drain(Taker(codec), s, c + rest) == Progress(out + later.out, later.status)
  {
    CompleteFirst(s, c, rest, codec);
    assert Taker(codec)(s, c + rest) == TakeSpeech(s, c + rest, codec);
    assert (c + rest)[|c|..] == rest;
    DrainGoes(Taker(codec), s, c + rest, next, |c|, out);
  }

  lemma JoinedFirst(containers: seq<bytes>, tail: bytes)
    requires containers != []
    ensures Joined(containers) + tail == containers[0] + (Joined(containers[1..]) + tail)
  {
    JoinedFront(containers);
  }

  lemma FirstOfBody(body: bytes, containers: seq<bytes>, tail: bytes) returns (rest: bytes)
    requires containers != [] && body == Joined(containers) + tail
    ensures body == containers[0] + rest && rest == Joined(containers[1..]) + tail
  {
    JoinedFirst(containers, tail);
    rest := Joined(containers[1..]) + tail;
  }

  lemma OutJoins(out: seq<Frame>, frames: seq<Frame>, more: seq<Frame>)
    ensures out + (frames + more) == out + frames + more
  {
  }

  /** Complete containers in front of anything are taken one by one. */
  lemma {:induction false} ContainersDrain(body: bytes, containers: seq<bytes>, tail: bytes, s: Stream, codec: Codec,
                                           v: Voice, later: Progress<Stream, Frame>)
    requires Consuming(Taker(codec)) && s.open.None? && Voiced(containers, s, codec) == Some(v)
    requires body == Joined(containers) + tail && later == Drain(Taker(codec), v.after, tail)
    ensures Drain(Taker(codec), s, body) == Progress(v.frames + later.out, later.status)
    decreases |containers|
  {
    if containers == [] {
      assert body == tail && v.frames + later.out == later.out;
    } else {
      var rest := FirstOfBody(body, containers, tail);
      var next, out, w := VoicedParts(containers, s, codec, v);
      ContainersDrain(rest, containers[1..], tail, next, codec, w, later);
      FirstDrains(containers[0], rest, s, codec, next, out, Progress(w.frames + later.out, later.status));
      OutJoins(out, w.frames, later.out);
    }
  }

  /** The first container of a voice, and the voice of the others. */
  lemma VoicedParts(containers: seq<bytes>, s: Stream, codec: Codec, v: Voice)
    returns (next: Stream, out: seq<Frame>, w: Voice)
    requires containers != [] && s.open.None? && Voiced(containers, s, codec) == Some(v)
    ensures Taken(containers[0], s, codec) == Go(next, |containers[0]|, out) && next.open.None?
    ensures Voiced(containers[1..], next, codec) == Some(w) && v == Voice(out + w.frames, w.after)
  {
    var step := Taken(containers[0], s, codec);
    next, out, w := step.next, step.out, Voiced(containers[1..], step.next, codec).value;
  }

  /** The number from which the frames of container `i` are decoded. */
  function NumberAt(parts: seq<seq<Frame>>, i: nat, first: nat): nat
    requires i <= |parts|
  {
    if i == 0 then first else NumberAfter(parts[i - 1])
  }

  function NumberAfter(part: seq<Frame>): nat {
    if part == [] then 0 else part[|part| - 1].sequence + 1
  }

  /** The bytes are a complete container by themselves, and decode to frames numbered from `number`. */
  predicate Unpacks(c: bytes, number: nat, part: seq<Frame>, codec: Codec) {
    TakeContainer(c, codec) == Complete(|c|) && codec.decode(number, c) == Some(part) && part != []
  }

  predicate Like(part: seq<Frame>, format: Option<PcmFormat>) {
    part != [] && (format.Some? ==> part[0].format == format.value)
  }

  /** Container `i` unpacks to its frames, numbered on and in the one format. */
  predicate DecodesAt(containers: seq<bytes>, parts: seq<seq<Frame>>, i: nat, first: nat,
                      format: Option<PcmFormat>, codec: Codec)
    requires i < |containers| == |parts|
  {
    && Unpacks(containers[i], NumberAt(parts, i, first), parts[i], codec) && Like(parts[i], format)
    && parts[0] != [] && Like(parts[i], Some(parts[0][0].format))
  }

  predicate DecodesInTurn(containers: seq<bytes>, parts: seq<seq<Frame>>, first: nat,
                          format: Option<PcmFormat>, codec: Codec) {
    && |parts| == |containers|
    && forall i {:trigger DecodesAt(containers, parts, i, first, format, codec)} ::
         0 <= i < |containers| ==> DecodesAt(containers, parts, i, first, format, codec)
  }

  function Together(parts: seq<seq<Frame>>): seq<Frame> {
    if parts == [] then [] else parts[0] + Together(parts[1..])
  }

  lemma LaterTurn(containers: seq<bytes>, parts: seq<seq<Frame>>, first: nat, format: Option<PcmFormat>, codec: Codec,
                  i: nat)
    requires 0 < i < |containers| == |parts| && DecodesAt(containers, parts, 0, first, format, codec) && parts[1] != []
    requires Like(parts[1], Some(parts[0][0].format))
    ensures DecodesAt(containers, parts, i, first, format, codec) <==>
              DecodesAt(containers[1..], parts[1..], i - 1, NumberAfter(parts[0]), Some(parts[0][0].format), codec)
  {
    assert NumberAt(parts, i, first) == NumberAt(parts[1..], i - 1, NumberAfter(parts[0]));
  }

  lemma TurnSplits(containers: seq<bytes>, parts: seq<seq<Frame>>, first: nat, format: Option<PcmFormat>, codec: Codec)
    requires containers != [] && |parts| == |containers| && DecodesAt(containers, parts, 0, first, format, codec)
    ensures DecodesInTurn(containers, parts, first, format, codec) <==>
              DecodesInTurn(containers[1..], parts[1..], NumberAfter(parts[0]), Some(parts[0][0].format), codec)
  {
    var next, kept := NumberAfter(parts[0]), Some(parts[0][0].format);
    if DecodesInTurn(containers, parts, first, format, codec) {
      forall i | 0 <= i < |containers| - 1 ensures DecodesAt(containers[1..], parts[1..], i, next, kept, codec) {
        assert DecodesAt(containers, parts, 1, first, format, codec);
        assert DecodesAt(containers, parts, i + 1, first, format, codec);
        LaterTurn(containers, parts, first, format, codec, i + 1);
      }
    }
    if DecodesInTurn(containers[1..], parts[1..], next, kept, codec) {
      forall i | 0 < i < |containers| ensures DecodesAt(containers, parts, i, first, format, codec) {
        assert DecodesAt(containers[1..], parts[1..], 0, next, kept, codec);
        assert DecodesAt(containers[1..], parts[1..], i - 1, next, kept, codec);
        LaterTurn(containers, parts, first, format, codec, i);
      }
    }
  }

  lemma TakenExactly(c: bytes, s: Stream, codec: Codec)
    requires s.open.None?
    ensures Taken(c, s, codec).Go? ==>
              var step := Taken(c, s, codec);
              && Unpacks(c, s.next, step.out, codec) && Like(step.out, s.expected)
              && step.next == Stream(Some(step.out[0].format), None, NumberAfter(step.out))
    ensures forall part :: Unpacks(c, s.next, part, codec) && Like(part, s.expected) ==>
              Taken(c, s, codec).Go? && Taken(c, s, codec).out == part
  {
  }

  lemma {:induction false} VoicedIsInTurn(containers: seq<bytes>, s: Stream, codec: Codec, v: Voice)
    returns (parts: seq<seq<Frame>>)
    requires s.open.None? && Voiced(containers, s, codec) == Some(v)
    ensures DecodesInTurn(containers, parts, s.next, s.expected, codec) && v.frames == Together(parts)
    decreases |containers|
  {
    if containers == [] {
      parts := [];
    } else {
      var next, out, w := VoicedParts(containers, s, codec, v);
      var rest := VoicedIsInTurn(containers[1..], next, codec, w);
      parts := [out] + rest;
      assert parts[1..] == rest;
      TakenExactly(containers[0], s, codec);
      TurnSplits(containers, parts, s.next, s.expected, codec);
    }
  }

  lemma {:induction false} InTurnIsVoiced(containers: seq<bytes>, parts: seq<seq<Frame>>, s: Stream, codec: Codec)
    requires s.open.None? && DecodesInTurn(containers, parts, s.next, s.expected, codec)
    ensures Voiced(containers, s, codec).Some? && Voiced(containers, s, codec).value.frames == Together(parts)
    decreases |containers|
  {
    if containers != [] {
      assert DecodesAt(containers, parts, 0, s.next, s.expected, codec);
      TurnSplits(containers, parts, s.next, s.expected, codec);
      TakenExactly(containers[0], s, codec);
      InTurnIsVoiced(containers[1..], parts[1..], Taken(containers[0], s, codec).next, codec);
    }
  }

  /**
   Complete containers are taken one after another if and only if each decodes to frames numbered on from those
   before it, all in the format of the first; what is said are these frames together.
   */
  lemma VoicedExactly(containers: seq<bytes>, frames: seq<Frame>, codec: Codec)
    ensures (Voiced(containers, START, codec).Some? && Voiced(containers, START, codec).value.frames == frames) <==>
              exists parts :: DecodesInTurn(containers, parts, 0, None, codec) && Together(parts) == frames
  {
    if Voiced(containers, START, codec).Some? {
      var parts := VoicedIsInTurn(containers, START, codec, Voiced(containers, START, codec).value);
    }
    forall parts | DecodesInTurn(containers, parts, 0, None, codec)
      ensures Voiced(containers, START, codec).Some?
      ensures Voiced(containers, START, codec).value.frames == Together(parts)
    {
      InTurnIsVoiced(containers, parts, START, codec);
    }
  }

  // ---------------------------------------------------------------- accepted bodies

  /** How a body ends after its complete containers: at once, or with a header of unknown size and its PCM. */
  datatype Tail = Nothing | OpenTail(format: PcmFormat, header: nat, pcm: bytes)

  predicate IsTail(b: bytes, tail: Tail, codec: Codec) {
    match tail
    case Nothing => b == []
    case OpenTail(format, header, pcm) =>
      header <= |b| && TakeContainer(b, codec) == OpenEnded(format, header) && pcm == b[header..]
  }

  /** A tail that can follow what was said before it. */
  predicate Follows(tail: Tail, v: Voice) {
    match tail
    case Nothing => v.frames != []
    case OpenTail(format, _, pcm) =>
      StableFormat(v.after, format) && Framed(pcm, PcmOf(format)) && (pcm != [] || v.frames != [])
  }

  function TailFrames(tail: Tail, next: nat): seq<Frame> {
    match tail
    case Nothing => []
    case OpenTail(format, _, pcm) =>
      if PcmOf(format).size == 0 then [] else Cut(pcm, PcmOf(format).size, format, next)
  }

  /** The parts of a body: complete containers that decode in turn, and a tail. */
  ghost predicate Composed(body: bytes, containers: seq<bytes>, v: Voice, rest: bytes, tail: Tail, codec: Codec) {
    && body == Joined(containers) + rest
    && Voiced(containers, START, codec) == Some(v) && IsTail(rest, tail, codec)
  }

  lemma TailDrains(v: Voice, rest: bytes, tail: Tail, codec: Codec)
    requires Consuming(Taker(codec)) && v.after.open.None? && IsTail(rest, tail, codec)
    ensures
      var p := Drain(Taker(codec), v.after, rest);
      var e := Ended(Progress(v.frames + p.out, p.status));
      && (e.ok <==> Follows(tail, v))
      && (e.ok ==> e.frames == v.frames + TailFrames(tail, v.after.next))
  {
    assert Taker(codec)(v.after, rest) == TakeSpeech(v.after, rest, codec);
    if tail.Nothing? || !StableFormat(v.after, tail.format) {
      DrainStops(Taker(codec), v.after, rest);
      assert v.frames + [] == v.frames;
    } else {
      var open := v.after.(expected := Some(tail.format), open := Some(PcmOf(tail.format)));
      DrainGoes(Taker(codec), v.after, rest, open, tail.header, []);
      PcmIsUsable(tail.format);
      PcmEnds(open, tail.pcm, PcmOf(tail.format), v.frames, codec);
      var later := Drain(Taker(codec), open, tail.pcm);
      assert [] + later.out == later.out;
    }
  }

  /**
   A body of complete containers and a tail is accepted if and only if the tail can follow, and then says the
   containers' frames in turn and the tail's PCM cut into frames, numbered on.
   */
  lemma ComposedBody(body: bytes, containers: seq<bytes>, v: Voice, rest: bytes, tail: Tail, codec: Codec)
    requires Composed(body, containers, v, rest, tail, codec)
    ensures Spoken(body, codec).ok <==> Follows(tail, v)
    ensures Follows(tail, v) ==> Spoken(body, codec).frames == v.frames + TailFrames(tail, v.after.next)
  {
    TakerIsStable(codec);
    VoicedRunsOn(containers, START, codec, v);
    ContainersDrain(body, containers, rest, START, codec, v, Drain(Taker(codec), v.after, rest));
    TailDrains(v, rest, tail, codec);
  }

  /** A complete container at the front of a body can be taken by itself. */
  lemma TakenAlone(b: bytes, s: Stream, codec: Codec, length: nat)
    requires s.open.None? && TakeContainer(b, codec) == Complete(length) && TakeSpeech(s, b, codec).Go?
    ensures 1 <= length <= |b| && Taken(b[..length], s, codec) == TakeSpeech(s, b, codec)
    ensures TakeSpeech(s, b, codec).length == length && TakeSpeech(s, b, codec).next.open.None?
  {
    CompleteAlone(b, length, codec);
  }

  lemma Prepended(b: bytes, first: bytes, others: seq<bytes>, rest: bytes)
    requires b == first + (Joined(others) + rest)
    ensures b == Joined([first] + others) + rest
  {
    JoinedFirst([first] + others, rest);
    assert ([first] + others)[1..] == others;
  }

  /** Takes complete containers off the front for as long as the decoder would. */
  lemma {:induction false} Decomposed(b: bytes, s: Stream, codec: Codec)
    returns (containers: seq<bytes>, v: Voice, rest: bytes)
    requires s.open.None?
    ensures b == Joined(containers) + rest && Voiced(containers, s, codec) == Some(v)
    ensures TakeContainer(rest, codec).Complete? ==> !TakeSpeech(v.after, rest, codec).Go?
    decreases |b|
  {
    var c, step := TakeContainer(b, codec), TakeSpeech(s, b, codec);
    if c.Complete? && step.Go? {
      TakenAlone(b, s, codec, c.length);
      var first := b[..c.length];
      var others, w;
      others, w, rest := Decomposed(b[c.length..], step.next, codec);
      containers, v := [first] + others, Voice(step.out + w.frames, w.after);
      assert b == first + b[c.length..];
      Prepended(b, first, others, rest);
      VoicedFront(first, others, s, codec, step.next, step.out, w);
    } else {
      containers, v, rest := [], Voice([], s), b;
      assert Joined([]) + b == b;
    }
  }

  /** Every accepted body has parts: complete containers that decode in turn, and a tail that can follow. */
  lemma AcceptedBodyHasParts(body: bytes, codec: Codec)
    returns (containers: seq<bytes>, v: Voice, rest: bytes, tail: Tail)
    requires Spoken(body, codec).ok
    ensures Composed(body, containers, v, rest, tail, codec) && Follows(tail, v)
    ensures Spoken(body, codec).frames == v.frames + TailFrames(tail, v.after.next)
  {
    TakerIsStable(codec);
    containers, v, rest := Decomposed(body, START, codec);
    VoicedRunsOn(containers, START, codec, v);
    ContainersDrain(body, containers, rest, START, codec, v, Drain(Taker(codec), v.after, rest));
    var c := TakeContainer(rest, codec);
    tail := if c.OpenEnded? then OpenTail(c.format, c.length, rest[c.length..]) else Nothing;
    if !c.OpenEnded? {
      RestIsNothing(v, rest, codec);
    }
    ComposedBody(body, containers, v, rest, tail, codec);
  }

  /** What neither opens nor completes a container cannot be the end of an accepted body, unless it is empty. */
  lemma RestIsNothing(v: Voice, rest: bytes, codec: Codec)
    requires Consuming(Taker(codec)) && v.after.open.None? && !TakeContainer(rest, codec).OpenEnded?
    requires TakeContainer(rest, codec).Complete? ==> !TakeSpeech(v.after, rest, codec).Go?
    requires
      var p := Drain(Taker(codec), v.after, rest);
      Ended(Progress(v.frames + p.out, p.status)).ok
    ensures rest == []
  {
    assert Taker(codec)(v.after, rest) == TakeSpeech(v.after, rest, codec);
    DrainStops(Taker(codec), v.after, rest);
  }

  // ---------------------------------------------------------------- in samples and bytes

  /** The bytes of one sample of every channel. */
  function SampleBytes(f: PcmFormat): nat {
    match f.samples
    case Signed16 => 2 * f.channels
    case Float32 => 4 * f.channels
  }

  /** The samples of each channel in 20 ms, rounded down. */
  function FrameSamples(f: PcmFormat): nat {
    f.rate * 20 / 1000
  }

  lemma PcmInBytes(f: PcmFormat)
    ensures PcmOf(f).unit == SampleBytes(f) && PcmOf(f).size == FrameSamples(f) * SampleBytes(f)
    ensures PcmOf(f).format == f
  {
    assert Alignment(f) == SampleBytes(f);
  }

  lemma SameRemainder(n: nat, unit: nat, k: nat, m: nat)
    requires unit > 0 && n == unit * k + m
    ensures n % unit == m % unit
  {
    var p := Quotient(m, unit);
    var q := Quotient(n, unit);
    Distributes(unit, k, p);
    SameQuotient(unit, k + p, q, m % unit, n % unit);
  }

  lemma Quotient(n: nat, unit: nat) returns (q: nat)
    requires unit > 0
    ensures n == unit * q + n % unit && n % unit < unit
  {
    q := n / unit;
  }

  lemma Distributes(unit: nat, k: nat, p: nat)
    ensures unit * (k + p) == unit * k + unit * p
  {
  }

  lemma Regrouped(samples: nat, unit: nat, q: nat)
    ensures samples * unit * q == unit * (samples * q)
  {
  }

  lemma LeftoverAligned(n: nat, size: nat, samples: nat, unit: nat)
    requires unit > 0 && size == samples * unit > 0
    ensures
      var left := n - Rounded(n, size);
      Rounded(left, unit) == left <==> n % unit == 0
  {
    var left := n - Rounded(n, size);
    var q := RoundedDivides(n, size);
    Regrouped(samples, unit, q);
    SameRemainder(n, unit, samples * q, left);
    RoundedIs(left, unit);
  }

  /**
   An open-ended tail can follow if and only if its format is that of what came before, 20 ms of it hold a
   sample, no sample is cut short, no frame of it exceeds 64 KiB, and there is anything to say.
   */
  lemma TailFollowsExactly(tail: Tail, v: Voice)
    requires tail.OpenTail?
    ensures
      var f, n := tail.format, |tail.pcm|;
      Follows(tail, v) <==>
        && (v.after.expected.None? || v.after.expected.value == f)
        && FrameSamples(f) > 0 && f.channels > 0 && n % SampleBytes(f) == 0
        && (FrameSamples(f) * SampleBytes(f) <= 65536 || n <= 65536)
        && (n > 0 || v.frames != [])
  {
    var f := tail.format;
    PcmInBytes(f);
    if FrameSamples(f) > 0 && f.channels > 0 {
      assert SampleBytes(f) > 0;
      Positive(FrameSamples(f), SampleBytes(f));
      LeftoverAligned(|tail.pcm|, FrameSamples(f) * SampleBytes(f), FrameSamples(f), SampleBytes(f));
    } else {
      assert FrameSamples(f) * SampleBytes(f) == 0;
    }
  }

  lemma Positive(a: nat, b: nat)
    requires a > 0 && b > 0
    ensures a * b > 0
  {
  }

  /**
   The open-ended part of an accepted body, wherever it starts: the payloads of its frames join to its PCM,
   each holds exactly the samples of 20 ms of every channel, two or four bytes a sample, but for a last one
   that holds no more; and the numbers run on from the last frame before it.
   */
  lemma OpenEndedKeepsThePcm(body: bytes, containers: seq<bytes>, v: Voice, rest: bytes, tail: Tail, codec: Codec)
    requires Composed(body, containers, v, rest, tail, codec) && tail.OpenTail? && Spoken(body, codec).ok
    ensures
      var frames, before, f := Spoken(body, codec).frames, |v.frames|, tail.format;
      var bytes := f.rate * 20 / 1000 * (if f.samples == Signed16 then 2 * f.channels else 4 * f.channels);
      && before <= |frames| && frames[..before] == v.frames
      && Payloads(frames[before..]) == tail.pcm
      && forall k :: before <= k < |frames| ==>
           && frames[k].format == f
           && frames[k].sequence == (if before == 0 then 0 else v.frames[before - 1].sequence + 1) + k - before
           && 0 < |frames[k].payload| <= bytes && (k + 1 < |frames| ==> |frames[k].payload| == bytes)
  {
    OpenEndedIsEven(body, containers, v, rest, tail, codec);
    PcmInBytes(tail.format);
  }

  lemma OpenEndedIsEven(body: bytes, containers: seq<bytes>, v: Voice, rest: bytes, tail: Tail, codec: Codec)
    requires Composed(body, containers, v, rest, tail, codec) && tail.OpenTail? && Spoken(body, codec).ok
    ensures
      var frames, before, size := Spoken(body, codec).frames, |v.frames|, PcmOf(tail.format).size;
      && before <= |frames| && frames[..before] == v.frames
      && Payloads(frames[before..]) == tail.pcm
      && forall k :: before <= k < |frames| ==>
           && frames[k].format == tail.format
           && frames[k].sequence == (if before == 0 then 0 else v.frames[before - 1].sequence + 1) + k - before
           && 0 < |frames[k].payload| <= size && (k + 1 < |frames| ==> |frames[k].payload| == size)
  {
    var frames, before := Spoken(body, codec).frames, |v.frames|;
    ComposedBody(body, containers, v, rest, tail, codec);
    VoicedRunsOn(containers, START, codec, v);
    CutIsEven(tail.pcm, PcmOf(tail.format).size, tail.format, v.after.next);
    assert frames[before..] == TailFrames(tail, v.after.next);
    EvenBehind(frames, before, PcmOf(tail.format).size, tail.format, v.after.next);
  }

  lemma EvenBehind(frames: seq<Frame>, before: nat, size: nat, format: PcmFormat, next: nat)
    requires before <= |frames| && Even(frames[before..], size, format, next)
    ensures forall k :: before <= k < |frames| ==>
              && frames[k].format == format && frames[k].sequence == next + k - before
              && 0 < |frames[k].payload| <= size && (k + 1 < |frames| ==> |frames[k].payload| == size)
  {
    forall k | before <= k < |frames| ensures frames[k] == frames[before..][k - before] {
    }
  }
}
