/**
 The stream of media packets as a whole: which bytes are read as which messages. A stream says exactly the
 messages of the packets it is made of, up to the first bytes that begin no packet.
 */
module PacketStreams {
  import opened Wrappers
  import opened MediaPackets
  import opened Incremental
  import opened MediaReaders
  import opened MediaEncodings
  import opened MediaProducers
  import opened PacketForms

  // ---------------------------------------------------------------- streams of any items

  type Reader<!T> = ((), bytes) -> Step<(), T>

  /** The reader takes exactly the items that these bytes say. */
  ghost predicate TakesWhat<T(!new)>(take: Reader<T>, says: (bytes, T) -> bool) {
    && (forall p, m, rest {:trigger Taken(take, p, m, rest)} :: says(p, m) ==> Taken(take, p, m, rest))
    && (forall b :: take((), b).Go? ==> Front(take((), b), b, says))
  }

  predicate Taken<T(==)>(take: Reader<T>, p: bytes, m: T, rest: bytes) {
    take((), p + rest) == Go((), |p|, [m])
  }

  ghost predicate Front<T>(step: Step<(), T>, b: bytes, says: (bytes, T) -> bool) {
    step.Go? && 1 <= step.length <= |b| && |step.out| == 1 && says(b[..step.length], step.out[0])
  }

  ghost predicate AllSay<T>(parts: seq<bytes>, items: seq<T>, says: (bytes, T) -> bool) {
    |parts| == |items| && forall i :: 0 <= i < |parts| ==> says(parts[i], items[i])
  }

  /** No item is at the front of the bytes. */
  ghost predicate Bare<T(!new)>(b: bytes, says: (bytes, T) -> bool) {
    forall n, m :: 0 <= n <= |b| ==> !says(b[..n], m)
  }

  lemma BareIsNotTaken<T(!new)>(b: bytes, take: Reader<T>, says: (bytes, T) -> bool)
    requires TakesWhat(take, says)
    ensures Bare(b, says) <==> !take((), b).Go?
  {
    forall n, m | 0 <= n <= |b| && says(b[..n], m) ensures take((), b).Go? {
      assert b[..n] + b[n..] == b;
      assert Taken(take, b[..n], m, b[n..]);
    }
  }

  /** The items a stream is made of, and what is left when none is at the front any more. */
  lemma {:induction false} StreamHasItems<T(!new)>(b: bytes, take: Reader<T>, says: (bytes, T) -> bool)
    returns (parts: seq<bytes>, rest: bytes)
    requires Consuming(take) && TakesWhat(take, says)
    ensures b == Joined(parts) + rest && Bare(rest, says) && AllSay(parts, Drain(take, (), b).out, says)
    decreases |b|
  {
    var step := take((), b);
    if !step.Go? {
      parts, rest := [], b;
      BareIsNotTaken(b, take, says);
      DrainStops(take, (), b);
    } else {
      assert Front(step, b, says);
      var later: seq<bytes>;
      later, rest := StreamHasItems(b[step.length..], take, says);
      parts := [b[..step.length]] + later;
      JoinedFront(parts);
      assert parts[1..] == later && step.next == ();
      DrainGoes(take, (), b, (), step.length, step.out);
    }
  }

  lemma FrontIsRead<T(!new)>(p: bytes, m: T, rest: bytes, take: Reader<T>, says: (bytes, T) -> bool)
    requires Consuming(take) && TakesWhat(take, says) && says(p, m)
    ensures Drain(take, (), p + rest) == Prefixed([m], Drain(take, (), rest))
  {
    assert Taken(take, p, m, rest);
    assert (p + rest)[|p|..] == rest;
    DrainGoes(take, (), p + rest, (), |p|, [m]);
  }

  lemma {:induction false} ItemsAreRead<T(!new)>(parts: seq<bytes>, items: seq<T>, rest: bytes, take: Reader<T>,
                                                 says: (bytes, T) -> bool)
    requires Consuming(take) && TakesWhat(take, says) && AllSay(parts, items, says)
    ensures Drain(take, (), Joined(parts) + rest) == Prefixed(items, Drain(take, (), rest))
    decreases |parts|
  {
    var later := Drain(take, (), rest);
    if parts == [] {
      assert Joined(parts) + rest == rest;
      PrefixedNone(later);
    } else {
      JoinedFront(parts);
      var b := Joined(parts[1..]) + rest;
      assert Joined(parts) + rest == parts[0] + b;
      ItemsAreRead(parts[1..], items[1..], rest, take, says);
      FrontIsRead(parts[0], items[0], b, take, says);
      PrefixedTwice([items[0]], items[1..], later);
      assert [items[0]] + items[1..] == items;
    }
  }

  lemma ItemsExactly<T(!new)>(b: bytes, items: seq<T>, take: Reader<T>, says: (bytes, T) -> bool)
    requires Consuming(take) && TakesWhat(take, says)
    ensures Drain(take, (), b).out == items <==>
              exists parts, rest :: Joined(parts) + rest == b && AllSay(parts, items, says) && Bare(rest, says)
    ensures Drain(take, (), b) == Progress(items, Waiting((), [])) <==>
              take((), []).Wait? && exists parts :: Joined(parts) == b && AllSay(parts, items, says)
  {
    var parts, rest := StreamHasItems(b, take, says);
    ItemsAreRead(parts, Drain(take, (), b).out, rest, take, says);
    BareIsNotTaken(rest, take, says);
    DrainStops(take, (), rest);
    assert Joined(parts) + [] == Joined(parts);
    forall others, last | Joined(others) + last == b && AllSay(others, items, says) && Bare(last, says)
      ensures Drain(take, (), b).out == items
    {
      ItemsAreRead(others, items, last, take, says);
      BareIsNotTaken(last, take, says);
      DrainStops(take, (), last);
    }
    forall others | Joined(others) == b && AllSay(others, items, says)
      ensures Drain(take, (), b) == Prefixed(items, Drain(take, (), []))
    {
      assert Joined(others) + [] == b;
      ItemsAreRead(others, items, [], take, says);
    }
    if take((), []).Wait? { DrainStops(take, (), []); }
  }

  // ---------------------------------------------------------------- streams of packets

  /** The bytes are a packet of this message, laid out byte by byte. */
  predicate Says(p: bytes, m: Message, l: Limits) {
    Laid(p, m, l.version) && Sendable(m, l.version, l.max)
  }

  function Saying(l: Limits): (bytes, Message) -> bool {
    (p: bytes, m: Message) => Says(p, m, l)
  }

  lemma FrontIsTaken(p: bytes, m: Message, rest: bytes, l: Limits)
    requires Says(p, m, l)
    ensures TakePacket(p + rest, l) == Go((), |p|, [m])
  {
    PacketExactly(p, l.version, l.max, m);
    assert p[..|p|] == p;
    PacketStands(p, rest, l);
  }

  lemma TakenIsFront(b: bytes, l: Limits)
    requires TakePacket(b, l).Go?
    ensures Front(TakePacket(b, l), b, Saying(l))
  {
    var step := TakePacket(b, l);
    PacketConsumes(b, l);
    TargetOfPrefix(b, step.length, l.version, l.max);
    PacketExactly(b[..step.length], l.version, l.max, step.out[0]);
  }

  lemma TakesPackets(l: Limits)
    ensures TakesWhat(Taker(l), Saying(l))
  {
    forall p, m, rest | Saying(l)(p, m) ensures Taken(Taker(l), p, m, rest) {
      FrontIsTaken(p, m, rest, l);
    }
    forall b | Taker(l)((), b).Go? ensures Front(Taker(l)((), b), b, Saying(l)) {
      TakenIsFront(b, l);
    }
  }

  /**
   A stream is read as these messages if and only if it is made of their packets and of bytes that no packet
   is at the front of; and it also ends cleanly if and only if nothing is left.
   */
  lemma StreamExactly(b: bytes, messages: seq<Message>, l: Limits)
    ensures Messages(b, l).out == messages <==>
              exists packets, rest ::
                Joined(packets) + rest == b && AllSay(packets, messages, Saying(l)) && Bare(rest, Saying(l))
    ensures Messages(b, l) == Progress(messages, Waiting((), [])) <==>
              exists packets :: Joined(packets) == b && AllSay(packets, messages, Saying(l))
  {
    TakerIsStable(l);
    TakesPackets(l);
    ItemsExactly(b, messages, Taker(l), Saying(l));
    assert Taker(l)((), []) == TakePacket([], l);
  }

  function BuiltAll(messages: seq<Message>, l: Limits): seq<bytes> {
    seq(|messages|, i requires 0 <= i < |messages| => Built(messages[i], l.version))
  }

  lemma BuiltSays(m: Message, l: Limits)
    requires Sendable(m, l.version, l.max)
    ensures Says(Built(m, l.version), m, l)
  {
    SendableIsAccepted(m, l.version, l.max);
    PacketExactly(Built(m, l.version), l.version, l.max, m);
  }

  /**
   Whatever a producer sends is read back: the packets of any messages it may send, cut into any fragments,
   give exactly these messages and a clean end.
   */
  lemma SentIsRead(messages: seq<Message>, fragments: seq<bytes>, l: Limits)
    requires forall i :: 0 <= i < |messages| ==> Sendable(messages[i], l.version, l.max)
    requires Joined(fragments) == Joined(BuiltAll(messages, l))
    ensures Consuming(Taker(l)) && Fed(Taker(l), (), fragments) == Progress(messages, Waiting((), []))
  {
    var packets := BuiltAll(messages, l);
    forall i | 0 <= i < |messages| ensures Saying(l)(packets[i], messages[i]) {
      BuiltSays(messages[i], l);
    }
    FragmentationIsIrrelevant(fragments, l);
    StreamExactly(Joined(fragments), messages, l);
  }
}
