/** Fixed-width big-endian fields: one number, and a row of numbers with given widths. */
module BigEndian {
  import opened Wrappers

  /** The number of values that fit into `width` bytes. */
  function Span(width: nat): nat
    ensures Span(width) >= 1
  {
    if width == 0 then 1 else 256 * Span(width - 1)
  }

  function Encode(n: nat, width: nat): (b: bytes)
    ensures |b| == width
  {
    if width == 0 then [] else Encode(n / 256, width - 1) + [n % 256]
  }

  function Decode(b: bytes): (n: nat)
    ensures n < Span(|b|)
  {
    if b == [] then 0
    else
      var high := Decode(b[..|b| - 1]);
      assert high * 256 + 255 < Span(|b|);
      high * 256 + b[|b| - 1]
  }

  lemma {:induction false} DecodeEncode(n: nat, width: nat)
    requires n < Span(width)
    ensures Decode(Encode(n, width)) == n
  {
    if width > 0 {
      DecodeEncode(n / 256, width - 1);
      assert Encode(n, width)[..width - 1] == Encode(n / 256, width - 1);
    }
  }

  lemma Weighed(first: nat, span: nat, value: nat, last: nat, wide: nat)
    requires wide == 256 * span
    ensures (first * span + value) * 256 + last == first * wide + (value * 256 + last)
  {
    var weight := first * span;
    assert first * wide == 256 * weight;
  }

  lemma DecodeLast(front: bytes, last: byte)
    ensures Decode(front + [last]) == Decode(front) * 256 + last
  {
    assert (front + [last])[..|front|] == front;
  }

  /** The first byte weighs most. */
  lemma {:induction false} FirstByteWeighsMost(first: byte, rest: bytes)
    ensures Decode([first] + rest) == first * Span(|rest|) + Decode(rest)
  {
    if rest == [] {
      assert [first] + rest == [] + [first];
      DecodeLast([], first);
    } else {
      var n := |rest| - 1;
      var front, last := rest[..n], rest[n];
      assert [first] + rest == [first] + front + [last] && rest == front + [last];
      calc {
        Decode([first] + rest);
        { DecodeLast([first] + front, last); }
        Decode([first] + front) * 256 + last;
        { FirstByteWeighsMost(first, front); }
        (first * Span(n) + Decode(front)) * 256 + last;
        { Weighed(first, Span(n), Decode(front), last, Span(|rest|)); }
        first * Span(|rest|) + (Decode(front) * 256 + last);
        { DecodeLast(front, last); }
        first * Span(|rest|) + Decode(rest);
      }
    }
  }

  lemma LastByte(high: nat, last: byte)
    ensures (high * 256 + last) / 256 == high && (high * 256 + last) % 256 == last
  {
  }

  lemma {:induction false} EncodeDecode(b: bytes)
    ensures Encode(Decode(b), |b|) == b
  {
    if b != [] {
      var front, last := b[..|b| - 1], b[|b| - 1];
      EncodeDecode(front);
      LastByte(Decode(front), last);
      assert b == front + [last];
    }
  }

  lemma Widths()
    ensures Span(1) == 0x100 && Span(4) == 0x1_0000_0000 && Span(8) == 0x1_0000_0000_0000_0000
  {
    assert Span(2) == 0x1_0000 && Span(3) == 0x100_0000;
    assert Span(5) == 0x100_0000_0000 && Span(6) == 0x1_0000_0000_0000 && Span(7) == 0x100_0000_0000_0000;
  }

  // ---------------------------------------------------------------- rows of fields

  function Total(widths: seq<nat>): nat {
    if widths == [] then 0 else widths[0] + Total(widths[1..])
  }

  lemma {:induction false} TotalAppend(a: seq<nat>, b: seq<nat>)
    ensures Total(a + b) == Total(a) + Total(b)
  {
    if a == [] {
      assert a + b == b;
    } else {
      TotalAppend(a[1..], b);
      assert (a + b)[1..] == a[1..] + b;
    }
  }

  ghost predicate Fits(values: seq<nat>, widths: seq<nat>) {
    |values| == |widths| && forall i :: 0 <= i < |widths| ==> values[i] < Span(widths[i])
  }

  function Pack(values: seq<nat>, widths: seq<nat>): (b: bytes)
    requires |values| == |widths|
    ensures |b| == Total(widths)
  {
    if widths == [] then [] else Encode(values[0], widths[0]) + Pack(values[1..], widths[1..])
  }

  function Unpack(b: bytes, widths: seq<nat>): (values: seq<nat>)
    requires |b| == Total(widths)
    ensures |values| == |widths|
  {
    if widths == [] then [] else [Decode(b[..widths[0]])] + Unpack(b[widths[0]..], widths[1..])
  }

  lemma {:induction false} UnpackFits(b: bytes, widths: seq<nat>)
    requires |b| == Total(widths)
    ensures Fits(Unpack(b, widths), widths)
  {
    if widths != [] {
      UnpackFits(b[widths[0]..], widths[1..]);
    }
  }

  lemma {:induction false} UnpackPack(values: seq<nat>, widths: seq<nat>)
    requires Fits(values, widths)
    ensures Unpack(Pack(values, widths), widths) == values
  {
    if widths != [] {
      UnpackPack(values[1..], widths[1..]);
      DecodeEncode(values[0], widths[0]);
      var b := Pack(values, widths);
      assert b[..widths[0]] == Encode(values[0], widths[0]);
      assert b[widths[0]..] == Pack(values[1..], widths[1..]);
    }
  }

  lemma PackFirst(value: nat, rest: seq<nat>, widths: seq<nat>)
    requires |widths| == |rest| + 1
    ensures Pack([value] + rest, widths) == Encode(value, widths[0]) + Pack(rest, widths[1..])
  {
    assert ([value] + rest)[1..] == rest;
  }

  lemma {:induction false} PackUnpack(b: bytes, widths: seq<nat>)
    requires |b| == Total(widths)
    ensures Pack(Unpack(b, widths), widths) == b
  {
    if widths != [] {
      var front, back := b[..widths[0]], b[widths[0]..];
      PackUnpack(back, widths[1..]);
      EncodeDecode(front);
      PackFirst(Decode(front), Unpack(back, widths[1..]), widths);
      assert b == front + back;
    }
  }

  /** Where a row with these widths has its fields: each starts where the one before it ends. */
  ghost predicate Places(widths: seq<nat>, starts: seq<nat>) {
    && |starts| == |widths| + 1
    && starts[0] == 0
    && forall i :: 0 <= i < |widths| ==> starts[i + 1] == starts[i] + widths[i]
  }

  lemma {:induction false} PlacesTotal(widths: seq<nat>, starts: seq<nat>, k: nat)
    requires Places(widths, starts) && k <= |widths|
    ensures Total(widths[..k]) == starts[k]
  {
    if k > 0 {
      PlacesTotal(widths, starts, k - 1);
      assert widths[..k] == widths[..k - 1] + [widths[k - 1]];
      TotalAppend(widths[..k - 1], [widths[k - 1]]);
      assert Total([widths[k - 1]]) == widths[k - 1];
    } else {
      assert widths[..0] == [];
    }
  }

  lemma Shifted(front: bytes, rest: bytes, at: nat, width: nat)
    requires at + width <= |rest|
    ensures (front + rest)[|front| + at..|front| + at + width] == rest[at..at + width]
  {
  }

  lemma TotalFirst(widths: seq<nat>, k: nat)
    requires 0 < k <= |widths|
    ensures Total(widths[..k]) == widths[0] + Total(widths[1..][..k - 1])
  {
    assert widths[..k][1..] == widths[1..][..k - 1];
  }

  /** Packed value `k` is the big-endian number in the bytes of its place. */
  lemma {:induction false} PackedAt(values: seq<nat>, widths: seq<nat>, k: nat)
    requires Fits(values, widths) && k < |widths|
    ensures Total(widths[..k]) + widths[k] <= Total(widths)
    ensures Decode(Pack(values, widths)[Total(widths[..k])..Total(widths[..k]) + widths[k]]) == values[k]
  {
    var front, rest := Encode(values[0], widths[0]), Pack(values[1..], widths[1..]);
    if k == 0 {
      DecodeEncode(values[0], widths[0]);
      assert (front + rest)[..widths[0]] == front;
    } else {
      var at := Total(widths[1..][..k - 1]);
      TotalFirst(widths, k);
      PackedAt(values[1..], widths[1..], k - 1);
      Shifted(front, rest, at, widths[k]);
    }
  }

  lemma Placed(values: seq<nat>, widths: seq<nat>, starts: seq<nat>, k: nat)
    requires Fits(values, widths) && Places(widths, starts) && k < |widths|
    ensures starts[k] <= starts[k + 1] <= |Pack(values, widths)|
    ensures Decode(Pack(values, widths)[starts[k]..starts[k + 1]]) == values[k]
  {
    PlacesTotal(widths, starts, k);
    PackedAt(values, widths, k);
  }
}
