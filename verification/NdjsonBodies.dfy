/** What a body of newline-delimited records says, told by the lines it is made of. */
module NdjsonBodies {
  import opened Wrappers
  import opened Incremental
  import opened Ndjson

  predicate OneLine(b: bytes) {
    forall i :: 0 <= i < |b| ==> b[i] != 10
  }

  ghost predicate AllLines(records: seq<bytes>) {
    forall i :: 0 <= i < |records| ==> OneLine(records[i])
  }

  /** Each record with the newline that ends it. */
  function Lined(records: seq<bytes>): bytes {
    if records == [] then [] else records[0] + [10] + Lined(records[1..])
  }

  lemma {:induction false} EndOfLine(line: bytes, rest: bytes)
    requires OneLine(line)
    ensures LineEnd(line) == |line| && LineEnd(line + [10] + rest) == |line|
  {
    if line == [] {
      assert line + [10] + rest == [10] + rest;
    } else {
      EndOfLine(line[1..], rest);
      assert (line + [10] + rest)[1..] == line[1..] + [10] + rest;
    }
  }

  lemma {:induction false} SplitOfLines(records: seq<bytes>, tail: bytes)
    requires AllLines(records) && OneLine(tail)
    ensures Split(Lined(records) + tail) == Lines(records, tail)
  {
    if records == [] {
      assert Lined(records) + tail == tail;
      EndOfLine(tail, []);
    } else {
      var line, later := records[0], records[1..];
      SplitOfLines(later, tail);
      SplitLine(line, Lined(later) + tail, Lines(later, tail));
      Grouped(line, Lined(later), tail);
      assert records == [line] + later;
    }
  }

  lemma Grouped(line: bytes, later: bytes, tail: bytes)
    ensures line + [10] + later + tail == line + [10] + (later + tail)
  {
  }

  lemma SplitLine(line: bytes, rest: bytes, later: Lines)
    requires OneLine(line) && Split(rest) == later
    ensures Split(line + [10] + rest) == Lines([line] + later.records, later.tail)
  {
    var s, n := line + [10] + rest, |line|;
    EndOfLine(line, rest);
    assert s[..n] == line && s[n + 1..] == rest;
    SplitFirst(s, n, later);
  }

  lemma LinedFirst(line: bytes, records: seq<bytes>)
    ensures Lined([line] + records) == line + [10] + Lined(records)
  {
    assert ([line] + records)[1..] == records;
  }

  lemma {:induction false} LineIsOne(b: bytes)
    ensures OneLine(b[..LineEnd(b)]) && (LineEnd(b) < |b| ==> b[LineEnd(b)] == 10)
  {
    forall i | 0 <= i < LineEnd(b) ensures b[i] != 10 {
      LineEndIsFirst(b, i);
    }
    if LineEnd(b) < |b| { LineEndIsFirst(b, LineEnd(b)); }
  }

  lemma Cut(s: bytes, n: nat)
    requires n < |s| && s[n] == 10
    ensures s == s[..n] + [10] + s[n + 1..]
  {
  }

  lemma {:induction false} StreamLines(s: bytes) returns (lines: Lines)
    ensures lines == Split(s) && AllLines(lines.records) && OneLine(lines.tail)
    ensures s == Lined(lines.records) + lines.tail
    decreases |s|
  {
    var n := LineEnd(s);
    LineIsOne(s);
    if n == |s| {
      lines := Lines([], s);
      assert s[..n] == s;
    } else {
      var later := StreamLines(s[n + 1..]);
      SplitFirst(s, n, later);
      Cut(s, n);
      lines := Lines([s[..n]] + later.records, later.tail);
      OneMoreLine(s, s[..n], s[n + 1..], later);
    }
  }

  /** Every stream is made of lines and an unfinished one. */
  lemma EveryStreamHasLines(s: bytes)
    ensures AllLines(Split(s).records) && OneLine(Split(s).tail) && s == Lined(Split(s).records) + Split(s).tail
  {
    var lines := StreamLines(s);
  }

  lemma OneMoreLine(s: bytes, line: bytes, rest: bytes, later: Lines)
    requires s == line + [10] + rest && OneLine(line)
    requires AllLines(later.records) && rest == Lined(later.records) + later.tail
    ensures AllLines([line] + later.records) && s == Lined([line] + later.records) + later.tail
  {
    Grouped(line, Lined(later.records), later.tail);
    LinedFirst(line, later.records);
  }

  /** A record that cannot be answered: it is over 64 KiB or does not decode. */
  predicate Bad<R(!new)>(record: bytes, decode: bytes -> Verdict<R>) {
    |record| > 65536 || decode(record).Bad?
  }

  /** The answers to the records in order, the blank ones skipped. */
  function Said<R(!new)>(records: seq<bytes>, decode: bytes -> Verdict<R>): seq<R> {
    if records == [] then []
    else
      (match decode(records[0])
       case Response(r) => [r]
       case Blank => []
       case Bad => [])
      + Said(records[1..], decode)
  }

  lemma {:induction false} AnswersAreSaid<R(!new)>(records: seq<bytes>, tail: bytes, decode: bytes -> Verdict<R>)
    requires forall i :: 0 <= i < |records| ==> !Bad(records[i], decode)
    ensures Answers(records, tail, decode)
            == Progress(Said(records, decode), if |tail| <= 65536 then Waiting((), tail) else Failed)
  {
    if records != [] {
      AnswersAreSaid(records[1..], tail, decode);
      assert !Bad(records[0], decode);
    }
  }

  lemma {:induction false} AnswersStop<R(!new)>(records: seq<bytes>, k: nat, tail: bytes, decode: bytes -> Verdict<R>)
    requires k < |records| && Bad(records[k], decode)
    requires forall i :: 0 <= i < k ==> !Bad(records[i], decode)
    ensures Answers(records, tail, decode) == Progress(Said(records[..k], decode), Failed)
  {
    if k > 0 {
      AnswersStop(records[1..], k - 1, tail, decode);
      assert records[..k][1..] == records[1..][..k - 1];
      assert !Bad(records[0], decode);
    }
  }

  /**
   A body of lines, in any chunks, is answered record by record up to the first one that is over 64 KiB or does
   not decode, at which it fails; without one it waits with its unfinished line, which may not be over 64 KiB.
   */
  lemma BodyExactly<R(!new)>(chunks: seq<bytes>, records: seq<bytes>, tail: bytes, decode: bytes -> Verdict<R>)
    requires AllLines(records) && OneLine(tail) && Joined(chunks) == Lined(records) + tail
    ensures Consuming(Taker(decode))
    ensures (forall i :: 0 <= i < |records| ==> !Bad(records[i], decode)) ==>
              Fed(Taker(decode), (), chunks)
              == Progress(Said(records, decode), if |tail| <= 65536 then Waiting((), tail) else Failed)
    ensures forall k :: 0 <= k < |records| && Bad(records[k], decode)
                        && (forall i :: 0 <= i < k ==> !Bad(records[i], decode)) ==>
              Fed(Taker(decode), (), chunks) == Progress(Said(records[..k], decode), Failed)
  {
    ChunkingDoesNotMatter(chunks, decode);
    SplitOfLines(records, tail);
    if forall i :: 0 <= i < |records| ==> !Bad(records[i], decode) {
      AnswersAreSaid(records, tail, decode);
    }
    forall k | 0 <= k < |records| && Bad(records[k], decode) && (forall i :: 0 <= i < k ==> !Bad(records[i], decode))
      ensures Whole(Joined(chunks), decode) == Progress(Said(records[..k], decode), Failed)
    {
      AnswersStop(records, k, tail, decode);
    }
  }
}
