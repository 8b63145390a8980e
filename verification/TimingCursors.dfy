/** The advancing cursor that reads timing records, proved against the decoders on whole values. */
module TimingCursors {
  import opened Wrappers
  import opened BigEndian
  import opened CaptureTiming

  class TimingCursor {
    var remaining: bytes

    constructor (b: bytes)
      ensures remaining == b
    {
      remaining := b;
    }

    method Take(count: nat) returns (r: Option<bytes>)
      modifies this
      ensures count > |old(remaining)| ==> r == None && remaining == old(remaining)
      ensures count <= |old(remaining)| ==> r == Some(old(remaining)[..count]) && remaining == old(remaining)[count..]
    {
      if count > |remaining| { return None; }
      r := Some(remaining[..count]);
      remaining := remaining[count..];
    }

    method Byte() returns (r: Option<byte>)
      modifies this
      ensures old(remaining) == [] ==> r == None
      ensures old(remaining) != [] ==> r == Some(old(remaining)[0]) && remaining == old(remaining)[1..]
    {
      var head := Take(1);
      if head.None? { return None; }
      r := Some(head.value[0]);
    }

    method U64() returns (r: Option<u64>)
      modifies this
      ensures |old(remaining)| < 8 ==> r == None
      ensures |old(remaining)| >= 8 ==> r == Some(Decode(old(remaining)[..8])) && remaining == old(remaining)[8..]
    {
      var head := Take(8);
      if head.None? { return None; }
      Widths();
      r := Some(Decode(head.value));
    }

    method Id() returns (r: Option<bytes>)
      modifies this
      ensures TakeId(old(remaining)).None? ==> r == None
      ensures TakeId(old(remaining)).Some? ==>
                r == Some(TakeId(old(remaining)).value.0) && remaining == TakeId(old(remaining)).value.1
    {
      var length := Byte();
      if length.None? || length.value == 0 || length.value > MAX_IDENTIFIER_BYTES { return None; }
      r := Take(length.value);
      if r.None? { return; }
      assert r.value == old(remaining)[1..1 + old(remaining)[0]];
      if !ValidIdentifier(r.value) { r := None; }
    }
  }

  method DecodeEpochRecord(b: bytes) returns (r: Option<CaptureEpoch>)
    ensures r == DecodeEpoch(b)
  {
    var cursor := new TimingCursor(b);
    var bridge := cursor.Id();
    if bridge.None? { return None; }
    var domain := cursor.Id();
    if domain.None? { return None; }
    ghost var rest := cursor.remaining;
    var epoch := cursor.U64();
    if epoch.None? { return None; }
    var mark := cursor.Byte();
    if mark.None? || mark.value != 1 { return None; }
    if cursor.remaining != [] { return None; }
    assert |rest| == 9;
    var value := CaptureEpoch(bridge.value, domain.value, epoch.value);
    r := if ValidEpoch(value) then Some(value) else None;
    PutTake(b);
    PutTake(TakeId(b).value.1);
  }
}
