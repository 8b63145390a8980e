/** The streamed-speech decoder as it works: a buffer extended, split and drained in loops. */
module WavDecoder {
  import opened Wrappers
  import opened CaptureTiming
  import opened Incremental
  import opened WavStreams

  /** Walks the chunks of a WAV header with a moving offset. */
  method ReadWavHeader(b: bytes, parse: bytes -> Option<PcmFormat>) returns (h: Header)
    ensures h == Walk(b, RIFF_HEADER_BYTES, None, parse)
  {
    var format: Option<PcmFormat> := None;
    var offset := RIFF_HEADER_BYTES;
    while true
      invariant Walk(b, offset, format, parse) == Walk(b, RIFF_HEADER_BYTES, None, parse)
      decreases if offset <= |b| + 1 then |b| + 1 - offset else 0
    {
      match ReadChunk(b, offset, format, parse)
      case Incomplete => return Short;
      case Damaged => return Corrupt;
      case Data(start, size) => return Header(format, start, size);
      case Skip(next, known) => offset, format := next, known;
    }
  }

  /** Whole frames of open-ended PCM, or at the end of the body whatever is aligned. */
  method TakeOpenEndedFrames(buffer: bytes, pcm: Pcm, atEof: bool, next: nat)
    returns (frames: seq<Frame>, rest: bytes, ok: bool)
    requires pcm.size > 0 ==> pcm.unit > 0
    ensures pcm.size == 0 ==> !ok
    ensures pcm.size > 0 ==>
              var take := Rounded(|buffer|, if atEof then pcm.unit else pcm.size);
              && (ok <==> take == 0 || take <= MAX_PCM_FRAME_BYTES || pcm.size <= MAX_PCM_FRAME_BYTES)
              && (ok ==> frames == Cut(buffer[..take], pcm.size, pcm.format, next) && rest == buffer[take..])
  {
    frames, rest := [], buffer;
    if pcm.size == 0 { return frames, rest, false; }
    var unit := if atEof then pcm.unit else pcm.size;
    RoundedIs(|buffer|, unit);
    var take := |buffer| - |buffer| % unit;
    frames, ok := CutIntoFrames(buffer[..take], pcm, next);
    if ok {
      rest := buffer[take..];
    }
  }

  /** Frames of 20 ms off the front of aligned PCM, the last one as short as it comes. */
  method CutIntoFrames(aligned: bytes, pcm: Pcm, next: nat) returns (frames: seq<Frame>, ok: bool)
    requires pcm.size > 0
    ensures ok <==> aligned == [] || |aligned| <= MAX_PCM_FRAME_BYTES || pcm.size <= MAX_PCM_FRAME_BYTES
    ensures ok ==> frames == Cut(aligned, pcm.size, pcm.format, next)
  {
    frames := [];
    var pending := aligned;
    ghost var whole := Cut(aligned, pcm.size, pcm.format, next);
    while pending != []
      invariant |pending| <= |aligned|
      invariant pcm.size > MAX_PCM_FRAME_BYTES ==>
                  |pending| == |aligned| || |aligned| <= MAX_PCM_FRAME_BYTES
      invariant |frames| <= |whole| && frames == whole[..|frames|]
      invariant Cut(pending, pcm.size, pcm.format, next + |frames|) == whole[|frames|..]
      decreases |pending|
    {
      var length := if |pending| <= pcm.size then |pending| else pcm.size;
      if length > MAX_PCM_FRAME_BYTES { return frames, false; }
      var frame := Frame(next + |frames|, pcm.format, pending[..length]);
      CutStep(pending, pcm.size, pcm.format, next + |frames|, length);
      Onward(whole, |frames|, frame, Cut(pending[length..], pcm.size, pcm.format, next + |frames| + 1));
      frames := frames + [frame];
      pending := pending[length..];
    }
    ok := true;
  }

  lemma CutStep(pending: bytes, size: nat, format: PcmFormat, next: nat, length: nat)
    requires size > 0 && pending != [] && length == (if |pending| <= size then |pending| else size)
    ensures Cut(pending, size, format, next) ==
            [Frame(next, format, pending[..length])] + Cut(pending[length..], size, format, next + 1)
  {
    if |pending| <= size {
      assert pending[..length] == pending && pending[length..] == [];
    }
  }

  lemma Onward(whole: seq<Frame>, n: nat, frame: Frame, rest: seq<Frame>)
    requires n <= |whole| && whole[n..] == [frame] + rest
    ensures n < |whole| && whole[..n] + [frame] == whole[..n + 1] && whole[n + 1..] == rest
  {
    assert whole[n] == whole[n..][0] && whole[n + 1..] == whole[n..][1..];
  }

  /** Takes whole containers, and at most one header of unknown size, off the front. */
  method SettleContainers(buffer: bytes, before: Stream, codec: Codec)
    returns (out: seq<Frame>, s: Stream, rest: bytes, ok: bool)
    requires Consuming(Taker(codec)) && Usable(before)
    ensures Usable(s)
    ensures Drain(Taker(codec), before, buffer) == Prefixed(out, Drain(Taker(codec), s, rest))
    ensures !ok ==> Drain(Taker(codec), s, rest) == Progress([], Failed)
    ensures ok && s.open.None? ==> Drain(Taker(codec), s, rest) == Progress([], Waiting(s, rest))
  {
    out, s, rest, ok := [], before, buffer, true;
    PrefixedNone(Drain(Taker(codec), before, buffer));
    while s.open.None?
      invariant Usable(s)
      invariant Drain(Taker(codec), before, buffer) == Prefixed(out, Drain(Taker(codec), s, rest))
      decreases |rest|, s.open.None?
    {
      var step := TakeSpeech(s, rest, codec);
      assert Taker(codec)(s, rest) == step;
      if !step.Go? {
        DrainStops(Taker(codec), s, rest);
        return out, s, rest, step.Wait?;
      }
      DrainGoes(Taker(codec), s, rest, step.next, step.length, step.out);
      OpensUsable(s, rest, codec);
      PrefixedTwice(out, step.out, Drain(Taker(codec), step.next, rest[step.length..]));
      out := out + step.out;
      s, rest := step.next, rest[step.length..];
    }
  }

  /** Takes the whole frames of open-ended PCM. */
  method SettlePcm(buffer: bytes, before: Stream, codec: Codec)
    returns (out: seq<Frame>, s: Stream, rest: bytes, ok: bool)
    requires Consuming(Taker(codec)) && Usable(before) && before.open.Some?
    ensures Drain(Taker(codec), before, buffer) == Progress(out, if ok then Waiting(s, rest) else Failed)
    ensures s.open == before.open && (ok ==> |rest| < s.open.value.size)
  {
    var pcm := before.open.value;
    out, rest, ok := TakeOpenEndedFrames(buffer, pcm, false, before.next);
    s := before;
    PcmStops(before, buffer, pcm, codec);
    if !ok { return [], s, rest, false; }
    if out == [] {
      assert rest == buffer;
    } else {
      PcmDrains(before, buffer, pcm, Rounded(|buffer|, pcm.size), codec);
      s := s.(next := s.next + |out|);
    }
  }

  /** Takes everything the buffer decides before the end of the body. */
  method Settle(buffer: bytes, before: Stream, codec: Codec) returns (out: seq<Frame>, s: Stream, rest: bytes, ok: bool)
    requires Consuming(Taker(codec)) && Usable(before)
    ensures Drain(Taker(codec), before, buffer) == Progress(out, if ok then Waiting(s, rest) else Failed)
    ensures Usable(s)
    ensures ok && s.open.Some? ==> |rest| < s.open.value.size
  {
    out, s, rest, ok := SettleContainers(buffer, before, codec);
    if ok && s.open.Some? {
      var more;
      more, s, rest, ok := SettlePcm(rest, s, codec);
      out := out + more;
    }
  }

  lemma OpensUsable(s: Stream, b: bytes, codec: Codec)
    requires s.open.None? && TakeSpeech(s, b, codec).Go?
    ensures Usable(TakeSpeech(s, b, codec).next)
  {
    var c := TakeContainer(b, codec);
    if c.OpenEnded? { PcmIsUsable(c.format); }
  }

  /** The end of the body: the aligned remainder of open-ended PCM, then the final verdict. */
  method Conclude(held: seq<Frame>, s: Stream, buffer: bytes) returns (frames: seq<Frame>, ok: bool)
    requires Usable(s) && (s.open.Some? ==> |buffer| < s.open.value.size)
    ensures Speech(frames, ok) == Ended(Progress(held, Waiting(s, buffer)))
  {
    frames := held;
    var rest := buffer;
    if s.open.Some? {
      var last, left, framed := TakeOpenEndedFrames(buffer, s.open.value, true, s.next);
      if !framed { return frames, false; }
      frames, rest := frames + last, left;
    }
    ok := rest == [] && frames != [];
  }

  lemma NothingYet(codec: Codec)
    requires Consuming(Taker(codec))
    ensures Drain(Taker(codec), START, []) == Progress([], Waiting(START, []))
  {
    assert Taker(codec)(START, []) == TakeSpeech(START, [], codec);
    DrainStops(Taker(codec), START, []);
  }

  /** An error once made is final, whatever bytes follow. */
  lemma FailureStands(a: bytes, x: bytes, frames: seq<Frame>, codec: Codec)
    requires Consuming(Taker(codec)) && Stable(Taker(codec))
             && Drain(Taker(codec), START, a) == Progress(frames, Failed)
    ensures Drain(Taker(codec), START, a + x) == Progress(frames, Failed)
  {
    DrainResumes(Taker(codec), START, a, x);
  }

  /** What was said so far is a beginning of what the whole body says. */
  lemma SpokenSoFar(a: bytes, x: bytes, codec: Codec)
    requires Consuming(Taker(codec)) && Stable(Taker(codec))
    ensures Drain(Taker(codec), START, a).out <= Spoken(a + x, codec).frames
  {
    DrainResumes(Taker(codec), START, a, x);
    assert Drain(Taker(codec), START, a).out <= Drain(Taker(codec), START, a + x).out;
  }

  /** How a response ended: accepted, refused, or stopped by cancellation, a closed receiver or the transport. */
  datatype Ending = Accepted | Refused | Stopped

  /**
   Decodes a response body that arrives in chunks. On a faulty run it may be stopped before any chunk and
   between any two frames it sends.
   */
  method DecodeResponse(chunks: seq<bytes>, codec: Codec, faulty: bool) returns (frames: seq<Frame>, end: Ending)
    ensures frames <= Spoken(Joined(chunks), codec).frames
    ensures end.Stopped? ==> faulty
    ensures |Joined(chunks)| > codec.limit ==> !end.Accepted?
    ensures |Joined(chunks)| <= codec.limit && !end.Stopped? ==>
              Speech(frames, end.Accepted?) == Spoken(Joined(chunks), codec)
  {
    TakerIsStable(codec);
    NothingYet(codec);
    var buffer: bytes, s, received := [], START, 0;
    frames := [];
    for i := 0 to |chunks|
      invariant Usable(s) && (s.open.Some? ==> |buffer| < s.open.value.size)
      invariant received == |Joined(chunks[..i])| <= codec.limit
      invariant Drain(Taker(codec), START, Joined(chunks[..i])) == Progress(frames, Waiting(s, buffer))
    {
      ghost var rest := JoinedRest(chunks, i);
      SpokenSoFar(Joined(chunks[..i]), rest, codec);
      if faulty {
        if * { return frames, Stopped; }
      }
      JoinedNext(chunks, i);
      received := received + |chunks[i]|;
      ghost var later := JoinedRest(chunks, i + 1);
      if received > codec.limit { return frames, Refused; }
      DrainResumes(Taker(codec), START, Joined(chunks[..i]), chunks[i]);
      SpokenSoFar(Joined(chunks[..i + 1]), later, codec);
      var more, ok;
      more, s, buffer, ok := Settle(buffer + chunks[i], s, codec);
      if faulty {
        var sent :| 0 <= sent <= |more|;
        if sent < |more| { return frames + more[..sent], Stopped; }
      }
      frames := frames + more;
      if !ok {
        FailureStands(Joined(chunks[..i + 1]), later, frames, codec);
        return frames, Refused;
      }
    }
    assert chunks[..|chunks|] == chunks;
    var ok;
    frames, ok := Conclude(frames, s, buffer);
    end := if ok then Accepted else Refused;
  }
}
