/**
 Incremental parsing in general. A parser takes one item off the front of its buffer when the buffer
 already decides it, and waits otherwise. When deciding is stable under more input, feeding a stream in
 any chunks gives what parsing the whole stream at once gives.
 */
module Incremental {
  import opened Wrappers

  /** What the front of the buffer decides: nothing yet, an error, or an item of `length` bytes. */
  datatype Step<S, T> = Wait | Fail | Go(next: S, length: nat, out: seq<T>)

  datatype Status<S> = Waiting(state: S, rest: bytes) | Failed

  datatype Progress<S, T> = Progress(out: seq<T>, status: Status<S>)

  ghost predicate Consuming<S(!new), T(!new)>(take: (S, bytes) -> Step<S, T>) {
    forall s, b {:trigger take(s, b)} :: take(s, b).Go? ==> 1 <= take(s, b).length <= |b|
  }

  /** A decision never changes when more bytes arrive. */
  ghost predicate Stable<S(!new), T(!new)>(take: (S, bytes) -> Step<S, T>) {
    forall s, b, x {:trigger take(s, b + x)} :: !take(s, b).Wait? ==> take(s, b + x) == take(s, b)
  }

  /** Takes items until the buffer decides nothing more, or fails. */
  ghost function Drain<S(!new), T(!new)>(take: (S, bytes) -> Step<S, T>, s: S, b: bytes): Progress<S, T>
    requires Consuming(take)
    decreases |b|
  {
    match take(s, b)
    case Wait => Progress([], Waiting(s, b))
    case Fail => Progress([], Failed)
    case Go(next, length, out) =>
      Prefixed(out, Drain(take, next, b[length..]))
  }

  /** Progress made after these items were already taken. */
  function Prefixed<S, T>(out: seq<T>, p: Progress<S, T>): Progress<S, T> {
    Progress(out + p.out, p.status)
  }

  lemma PrefixedTwice<S, T>(out: seq<T>, more: seq<T>, p: Progress<S, T>)
    ensures Prefixed(out, Prefixed(more, p)) == Prefixed(out + more, p)
  {
    assert out + (more + p.out) == out + more + p.out;
  }

  lemma PrefixedNone<S, T>(p: Progress<S, T>)
    ensures Prefixed([], p) == p
  {
    assert [] + p.out == p.out;
  }

  lemma DrainGoes<S(!new), T(!new)>(take: (S, bytes) -> Step<S, T>, s: S, b: bytes, next: S, length: nat, out: seq<T>)
    requires Consuming(take) && take(s, b) == Go(next, length, out)
    ensures length <= |b|
    ensures Drain(take, s, b) == Prefixed(out, Drain(take, next, b[length..]))
  {
  }

  lemma DrainStops<S(!new), T(!new)>(take: (S, bytes) -> Step<S, T>, s: S, b: bytes)
    requires Consuming(take) && !take(s, b).Go?
    ensures Drain(take, s, b) == Progress([], if take(s, b).Wait? then Waiting(s, b) else Failed)
  {
  }

  /** More bytes after some progress: an error is final, otherwise parsing resumes with the bytes held back. */
  ghost function Resumed<S(!new), T(!new)>(take: (S, bytes) -> Step<S, T>, p: Progress<S, T>, x: bytes): Progress<S, T>
    requires Consuming(take)
  {
    if p.status.Failed? then p else Prefixed(p.out, Drain(take, p.status.state, p.status.rest + x))
  }

  lemma ResumedAfter<S(!new), T(!new)>(take: (S, bytes) -> Step<S, T>, out: seq<T>, p: Progress<S, T>, x: bytes)
    requires Consuming(take)
    ensures Resumed(take, Prefixed(out, p), x) == Prefixed(out, Resumed(take, p, x))
  {
    if p.status.Waiting? {
      PrefixedTwice(out, p.out, Drain(take, p.status.state, p.status.rest + x));
    }
  }

  lemma ResumedStart<S(!new), T(!new)>(take: (S, bytes) -> Step<S, T>, s: S, b: bytes, x: bytes)
    requires Consuming(take)
    ensures Resumed(take, Progress([], Waiting(s, b)), x) == Drain(take, s, b + x)
  {
    PrefixedNone(Drain(take, s, b + x));
  }

  lemma {:induction false} DrainResumes<S(!new), T(!new)>(take: (S, bytes) -> Step<S, T>, s: S, b: bytes, x: bytes)
    requires Consuming(take) && Stable(take)
    ensures Drain(take, s, b + x) == Resumed(take, Drain(take, s, b), x)
    decreases |b|
  {
    var step := take(s, b);
    match step
    case Wait =>
      DrainStops(take, s, b);
      ResumedStart(take, s, b, x);
    case Fail =>
      assert take(s, b + x) == step;
      DrainStops(take, s, b);
      DrainStops(take, s, b + x);
    case Go(next, length, out) =>
      assert take(s, b + x) == step;
      DrainGoes(take, s, b, next, length, out);
      DrainGoes(take, s, b + x, next, length, out);
      assert (b + x)[length..] == b[length..] + x;
      DrainResumes(take, next, b[length..], x);
      ResumedAfter(take, out, Drain(take, next, b[length..]), x);
  }

  function Joined(chunks: seq<bytes>): bytes {
    if chunks == [] then [] else Joined(chunks[..|chunks| - 1]) + chunks[|chunks| - 1]
  }

  lemma JoinedNext(chunks: seq<bytes>, i: nat)
    requires i < |chunks|
    ensures Joined(chunks[..i + 1]) == Joined(chunks[..i]) + chunks[i]
  {
    assert chunks[..i + 1][..i] == chunks[..i];
  }

  /** What the chunks from `i` on add. */
  lemma {:induction false} JoinedRest(chunks: seq<bytes>, i: nat) returns (rest: bytes)
    requires i <= |chunks|
    ensures Joined(chunks) == Joined(chunks[..i]) + rest
    decreases |chunks| - i
  {
    if i == |chunks| {
      assert chunks[..i] == chunks;
      rest := [];
    } else {
      JoinedNext(chunks, i);
      var later := JoinedRest(chunks, i + 1);
      rest := chunks[i] + later;
    }
  }

  lemma {:induction false} JoinedFront(chunks: seq<bytes>)
    requires chunks != []
    ensures Joined(chunks) == chunks[0] + Joined(chunks[1..])
  {
    var n := |chunks| - 1;
    if n == 0 {
      assert chunks[..n] == [] && chunks[1..] == [];
    } else {
      JoinedFront(chunks[..n]);
      assert chunks[..n][1..] == chunks[1..][..n - 1];
    }
  }

  /** The progress after feeding the chunks one by one. */
  ghost function Fed<S(!new), T(!new)>(take: (S, bytes) -> Step<S, T>, s: S, chunks: seq<bytes>): Progress<S, T>
    requires Consuming(take)
  {
    if chunks == [] then Drain(take, s, [])
    else Resumed(take, Fed(take, s, chunks[..|chunks| - 1]), chunks[|chunks| - 1])
  }

  /** Whatever the chunks, what was parsed is what the joined bytes parse to. */
  lemma {:induction false} ChunkingIsIrrelevant<S(!new), T(!new)>(take: (S, bytes) -> Step<S, T>, s: S,
                                                                  chunks: seq<bytes>)
    requires Consuming(take) && Stable(take)
    ensures Fed(take, s, chunks) == Drain(take, s, Joined(chunks))
  {
    if chunks != [] {
      ChunkingIsIrrelevant(take, s, chunks[..|chunks| - 1]);
      DrainResumes(take, s, Joined(chunks[..|chunks| - 1]), chunks[|chunks| - 1]);
    }
  }

  /** What is held back was the end of the input and decides nothing by itself. */
  lemma {:induction false} RestWaits<S(!new), T(!new)>(take: (S, bytes) -> Step<S, T>, s: S, b: bytes)
    requires Consuming(take)
    ensures
      var p := Drain(take, s, b);
      p.status.Waiting? ==>
        && take(p.status.state, p.status.rest).Wait?
        && |p.status.rest| <= |b| && p.status.rest == b[|b| - |p.status.rest|..]
    decreases |b|
  {
    var step := take(s, b);
    if step.Go? {
      RestWaits(take, step.next, b[step.length..]);
    }
  }
}
