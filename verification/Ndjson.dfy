/**
 Newline-delimited JSON responses off a chunked body. What one record's text decodes to is a parameter;
 splitting, blank records, the record size limit and the carried-over partial record are modelled.
 */
module Ndjson {
  import opened Wrappers
  import opened Incremental

  const MAX_RECORD_BYTES: nat := 65536
  const NEWLINE: byte := 10

  /** What the text of a record of permitted size decodes to. */
  datatype Verdict<R> = Bad | Blank | Response(response: R)

  function Judge<R(!new)>(record: bytes, decode: bytes -> Verdict<R>): Verdict<R> {
    if |record| > MAX_RECORD_BYTES then Bad else decode(record)
  }

  /** The position of the first newline, or the length when there is none. */
  function LineEnd(b: bytes): (n: nat)
    ensures n <= |b|
  {
    if b == [] || b[0] == NEWLINE then 0 else 1 + LineEnd(b[1..])
  }

  function TakeRecord<R(!new)>(b: bytes, decode: bytes -> Verdict<R>): Step<(), R> {
    var n := LineEnd(b);
    if n == |b| then if |b| > MAX_RECORD_BYTES then Fail else Wait
    else Taken(Judge(b[..n], decode), n + 1)
  }

  function Taker<R(!new)>(decode: bytes -> Verdict<R>): ((), bytes) -> Step<(), R> {
    (s: (), b: bytes) => TakeRecord(b, decode)
  }

  /** The reported position is a newline and the first one. */
  lemma {:induction false} LineEndIsFirst(b: bytes, i: nat)
    requires i < |b|
    ensures i == LineEnd(b) ==> b[i] == NEWLINE
    ensures i < LineEnd(b) ==> b[i] != NEWLINE
  {
    if i > 0 && b[0] != NEWLINE {
      LineEndIsFirst(b[1..], i - 1);
    }
  }

  lemma {:induction false} LineEndStands(b: bytes, x: bytes)
    ensures LineEnd(b) < |b| ==> LineEnd(b + x) == LineEnd(b)
    ensures LineEnd(b) == |b| ==> LineEnd(b + x) == |b| + LineEnd(x)
  {
    if b == [] {
      assert b + x == x;
    } else {
      assert (b + x)[1..] == b[1..] + x;
      LineEndStands(b[1..], x);
    }
  }

  lemma {:induction false} LineEndOfLine(b: bytes)
    ensures LineEnd(b[..LineEnd(b)]) == LineEnd(b)
  {
    if b != [] && b[0] != NEWLINE {
      LineEndOfLine(b[1..]);
      assert b[..LineEnd(b)][1..] == b[1..][..LineEnd(b) - 1];
    }
  }

  lemma TakerIsStable<R(!new)>(decode: bytes -> Verdict<R>)
    ensures Consuming(Taker(decode)) && Stable(Taker(decode))
  {
    var take := Taker(decode);
    forall s, b, x | !take(s, b).Wait? ensures take(s, b + x) == take(s, b) {
      LineEndStands(b, x);
      var n := LineEnd(b);
      assert n < |b| ==> (b + x)[..n] == b[..n];
    }
  }

  // ---------------------------------------------------------------- the reference: split, then judge each line

  datatype Lines = Lines(records: seq<bytes>, tail: bytes)

  /** The whole stream cut at its newlines. */
  function Split(s: bytes): Lines
    decreases |s|
  {
    var n := LineEnd(s);
    if n == |s| then Lines([], s)
    else
      var rest := Split(s[n + 1..]);
      Lines([s[..n]] + rest.records, rest.tail)
  }

  /** What one record adds in front of what later records give. */
  function Headed<R>(v: Verdict<R>, later: Progress<(), R>): Progress<(), R> {
    match v
    case Bad => Progress([], Failed)
    case Blank => later
    case Response(r) => Progress([r] + later.out, later.status)
  }

  /**
   The responses of the records up to the first bad one; without one, the unfinished tail must still be within
   the limit.
   */
  function Answers<R(!new)>(records: seq<bytes>, tail: bytes, decode: bytes -> Verdict<R>): Progress<(), R> {
    if records == [] then Progress([], if |tail| <= MAX_RECORD_BYTES then Waiting((), tail) else Failed)
    else Headed(Judge(records[0], decode), Answers(records[1..], tail, decode))
  }

  /** The reference: split the whole stream, then judge each record in order. */
  function Whole<R(!new)>(s: bytes, decode: bytes -> Verdict<R>): Progress<(), R> {
    Answers(Split(s).records, Split(s).tail, decode)
  }

  lemma SplitFirst(s: bytes, n: nat, later: Lines)
    requires n == LineEnd(s) < |s| && later == Split(s[n + 1..])
    ensures Split(s) == Lines([s[..n]] + later.records, later.tail)
  {
  }

  lemma AnswersFirst<R(!new)>(record: bytes, records: seq<bytes>, tail: bytes, decode: bytes -> Verdict<R>,
                              later: Progress<(), R>)
    requires later == Answers(records, tail, decode)
    ensures Answers([record] + records, tail, decode) == Headed(Judge(record, decode), later)
  {
    assert ([record] + records)[1..] == records;
  }

  lemma WholeFirst<R(!new)>(s: bytes, n: nat, decode: bytes -> Verdict<R>)
    requires n == LineEnd(s) < |s|
    ensures Whole(s, decode) == Headed(Judge(s[..n], decode), Whole(s[n + 1..], decode))
  {
    var later := Split(s[n + 1..]);
    SplitFirst(s, n, later);
    AnswersFirst(s[..n], later.records, later.tail, decode, Whole(s[n + 1..], decode));
  }

  /** The step a record's verdict gives. */
  function Taken<R>(v: Verdict<R>, length: nat): Step<(), R> {
    match v
    case Bad => Fail
    case Blank => Go((), length, [])
    case Response(r) => Go((), length, [r])
  }

  lemma DrainHeaded<R(!new)>(take: ((), bytes) -> Step<(), R>, s: bytes, length: nat, v: Verdict<R>,
                             later: Progress<(), R>)
    requires Consuming(take) && length <= |s| && take((), s) == Taken(v, length)
    requires later == Drain(take, (), s[length..])
    ensures Drain(take, (), s) == Headed(v, later)
  {
    if v.Blank? {
      assert [] + later.out == later.out;
    }
  }

  /** Incremental parsing is line-by-line parsing of the whole stream. */
  lemma {:induction false} ParsesLineByLine<R(!new)>(s: bytes, decode: bytes -> Verdict<R>)
    requires Consuming(Taker(decode))
    ensures Drain(Taker(decode), (), s) == Whole(s, decode)
    decreases |s|
  {
    var n := LineEnd(s);
    if n < |s| {
      ParsesLineByLine(s[n + 1..], decode);
      WholeFirst(s, n, decode);
      DrainHeaded(Taker(decode), s, n + 1, Judge(s[..n], decode), Whole(s[n + 1..], decode));
    } else {
      assert Taker(decode)((), s) == TakeRecord(s, decode);
      DrainStops(Taker(decode), (), s);
    }
  }

  /** For every chunking the responses, the failure and the unfinished record are those of the whole stream's lines. */
  lemma ChunkingDoesNotMatter<R(!new)>(chunks: seq<bytes>, decode: bytes -> Verdict<R>)
    ensures Consuming(Taker(decode))
    ensures Fed(Taker(decode), (), chunks) == Whole(Joined(chunks), decode)
  {
    TakerIsStable(decode);
    ChunkingIsIrrelevant(Taker(decode), (), chunks);
    ParsesLineByLine(Joined(chunks), decode);
  }

  // ---------------------------------------------------------------- the parser

  datatype Next<R> = More | Answer(answer: R) | Malformed

  class NdjsonResponseParser<R(!new)> {
    const decode: bytes -> Verdict<R>
    var partial: bytes

    /** The carried-over record is unfinished and within the record limit. */
    ghost predicate Valid()
      reads this
    {
      LineEnd(partial) == |partial| <= MAX_RECORD_BYTES
    }

    constructor (decode: bytes -> Verdict<R>)
      ensures Valid() && partial == [] && this.decode == decode
    {
      this.decode := decode;
      partial := [];
    }

    method AppendPartial(segment: bytes) returns (ok: bool)
      modifies this`partial
      requires Valid() && LineEnd(segment) == |segment|
      ensures Valid()
      ensures ok <==> |old(partial)| + |segment| <= MAX_RECORD_BYTES
      ensures partial == if ok then old(partial) + segment else old(partial)
    {
      if |segment| > MAX_RECORD_BYTES - |partial| { return false; }
      partial := partial + segment;
      ok := true;
      LineEndStands(old(partial), segment);
    }

    /** The next response in what remains of a chunk, with the bytes left after it. */
    method NextResponse(chunk: bytes) returns (remaining: bytes, next: Next<R>)
      modifies this`partial
      requires Valid()
      ensures !next.Malformed? ==> Valid()
      ensures next.More? ==>
                remaining == [] && Whole(old(partial) + chunk, decode) == Progress([], Waiting((), partial))
      ensures next.Malformed? ==> Whole(old(partial) + chunk, decode) == Progress([], Failed)
      ensures next.Answer? ==> |remaining| < |chunk|
      ensures next.Answer? ==>
                Whole(old(partial) + chunk, decode) ==
                Headed(Response(next.answer), Whole(partial + remaining, decode))
    {
      remaining := chunk;
      while remaining != []
        invariant Valid()
        invariant |remaining| <= |chunk|
        invariant Whole(partial + remaining, decode) == Whole(old(partial) + chunk, decode)
        decreases |remaining|
      {
        var n := LineEnd(remaining);
        if n < |remaining| {
          var segment := remaining[..n];
          FirstRecord(partial, remaining, n, decode);
          LineEndOfLine(remaining);
          remaining := remaining[n + 1..];
          var record := segment;
          if partial != [] {
            var ok := AppendPartial(segment);
            if !ok { return remaining, Malformed; }
            record := partial;
          } else {
            assert partial + segment == segment;
          }
          var verdict := Judge(record, decode);
          if verdict.Bad? { return remaining, Malformed; }
          partial := [];
          assert partial + remaining == remaining;
          if verdict.Response? { return remaining, Answer(verdict.response); }
        } else {
          Unfinished(partial, remaining, decode);
          var ok := AppendPartial(remaining);
          return [], if ok then More else Malformed;
        }
      }
      Unfinished(partial, [], decode);
      assert partial + [] == partial;
      next := More;
    }

    /** Every response of one chunk, in order, and whether the stream is still good. */
    method Feed(chunk: bytes) returns (responses: seq<R>, ok: bool)
      modifies this`partial
      requires Valid()
      ensures ok ==> Valid()
      ensures Whole(old(partial) + chunk, decode) == Progress(responses, if ok then Waiting((), partial) else Failed)
    {
      responses := [];
      var remaining := chunk;
      while true
        invariant Valid()
        invariant Whole(old(partial) + chunk, decode) ==
                  Progress(responses + Whole(partial + remaining, decode).out,
                           Whole(partial + remaining, decode).status)
        decreases |remaining|
      {
        var next;
        remaining, next := NextResponse(remaining);
        if next.More? { return responses, true; }
        if next.Malformed? { return responses, false; }
        responses := responses + [next.answer];
      }
    }
  }

  lemma CutAt(partial: bytes, chunk: bytes, n: nat)
    requires n < |chunk|
    ensures (partial + chunk)[..|partial| + n] == partial + chunk[..n]
    ensures (partial + chunk)[|partial| + n + 1..] == chunk[n + 1..]
  {
  }

  /** The first record of a carried-over part and a chunk with a newline. */
  lemma FirstRecord<R(!new)>(partial: bytes, chunk: bytes, n: nat, decode: bytes -> Verdict<R>)
    requires LineEnd(partial) == |partial| && n == LineEnd(chunk) < |chunk|
    ensures Whole(partial + chunk, decode) == Headed(Judge(partial + chunk[..n], decode), Whole(chunk[n + 1..], decode))
  {
    LineEndStands(partial, chunk);
    CutAt(partial, chunk, n);
    WholeFirst(partial + chunk, |partial| + n, decode);
  }

  lemma Unfinished<R(!new)>(partial: bytes, chunk: bytes, decode: bytes -> Verdict<R>)
    requires LineEnd(partial) == |partial| && LineEnd(chunk) == |chunk|
    ensures Whole(partial + chunk, decode) ==
              Progress([], if |partial + chunk| <= MAX_RECORD_BYTES then Waiting((), partial + chunk) else Failed)
  {
    LineEndStands(partial, chunk);
  }

  lemma WholeResumes<R(!new)>(a: bytes, x: bytes, decode: bytes -> Verdict<R>)
    ensures
      var p := Whole(a, decode);
      Whole(a + x, decode) ==
        if p.status.Failed? then p
        else Progress(p.out + Whole(p.status.rest + x, decode).out, Whole(p.status.rest + x, decode).status)
  {
    TakerIsStable(decode);
    DrainResumes(Taker(decode), (), a, x);
    ParsesLineByLine(a, decode);
    ParsesLineByLine(a + x, decode);
    var p := Whole(a, decode);
    if p.status.Waiting? {
      assert p.status.state == ();
      ParsesLineByLine(p.status.rest + x, decode);
    }
  }

  /**
   A whole body in any chunks: the responses are those of its lines before the first bad record, and it
   is accepted if and only if no record is bad and nothing follows the last newline.
   */
  method ParseBody<R(!new)>(chunks: seq<bytes>, decode: bytes -> Verdict<R>) returns (responses: seq<R>, ok: bool)
    ensures responses == Whole(Joined(chunks), decode).out
    ensures ok <==> Whole(Joined(chunks), decode).status == Waiting((), [])
  {
    var parser := new NdjsonResponseParser(decode);
    responses := [];
    ok := true;
    for i := 0 to |chunks|
      invariant ok ==> parser.Valid() && parser.decode == decode
      invariant Whole(Joined(chunks[..i]), decode) ==
                Progress(responses, if ok then Waiting((), parser.partial) else Failed)
      invariant fresh(parser)
    {
      assert chunks[..i + 1][..i] == chunks[..i];
      WholeResumes(Joined(chunks[..i]), chunks[i], decode);
      if ok {
        var more;
        more, ok := parser.Feed(chunks[i]);
        responses := responses + more;
      }
    }
    assert chunks[..|chunks|] == chunks;
    ok := ok && parser.partial == [];
  }
}
