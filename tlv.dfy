/** The type-length-value framing shared by every RAP attribute: one type
    byte, a 16-bit big-endian length, then the value. */
module Tlv {
  import opened Wrappers
  import opened Bytes

  /** `TLV.encapsulate_object(t, length, value)`. The declared length is
      written as given, without comparing it with |value|; a length that
      does not fit in 16 bits makes `bytearray` raise ValueError. */
  function Encapsulate(t: Byte, length: nat, value: Bytes): (r: Result<Bytes>)
    ensures r.Err? <==> length >= 0x1_0000
    ensures r.Ok? ==> |r.value| == 3 + |value| && r.value[0] == t
                      && r.value[1] as int * 256 + r.value[2] as int == length
                      && r.value[3..] == value
  {
    if length >= 0x1_0000 then Err(ValueError("byte must be in range(0, 256)"))
    else Ok([t, length / 256, length % 256] + value)
  }

  /** The 16-bit length a frame declares. */
  function DeclaredLength(tlv: Bytes): (r: nat)
    requires |tlv| >= 3
    ensures r < 0x1_0000
  {
    tlv[1] as int * 256 + tlv[2] as int
  }

  /** `TLV.extract(tlv)`: the declared number of value bytes (fewer when
      the frame is short) and whatever follows them. Fewer than three bytes
      make the header lookup raise IndexError. */
  function Extract(tlv: Bytes): (r: Result<(Bytes, Bytes)>)
    ensures r.Err? <==> |tlv| < 3
    ensures r.Ok? ==> tlv[..3] + r.value.0 + r.value.1 == tlv
    ensures r.Ok? ==> |r.value.0| == Min(DeclaredLength(tlv), |tlv| - 3)
  {
    if |tlv| < 3 then Err(IndexError)
    else
      var n := DeclaredLength(tlv);
      Ok((Slice(tlv, 3, n + 3), Drop(tlv, n + 3)))
  }

  function Min(a: int, b: int): int { if a <= b then a else b }

  /** A frame whose declared length matches the bytes that follow it. */
  predicate WellFormed(tlv: Bytes) {
    |tlv| >= 3 && DeclaredLength(tlv) == |tlv| - 3
  }

  /** Extracting an encapsulation with a truthful length gives back the
      value, then the bytes that followed the frame. */
  lemma ExtractEncapsulate(t: Byte, value: Bytes, rest: Bytes)
    requires |value| < 0x1_0000
    ensures Encapsulate(t, |value|, value).Ok?
    ensures Extract(Encapsulate(t, |value|, value).value + rest) == Ok((value, rest))
  {
    var f := Encapsulate(t, |value|, value).value;
    assert (f + rest)[3..|value| + 3] == value;
    assert (f + rest)[|value| + 3..] == rest;
  }

  /** A well-formed frame is the encapsulation of what Extract reads from it. */
  lemma EncapsulateExtract(tlv: Bytes)
    requires WellFormed(tlv)
    ensures Extract(tlv).Ok? && Extract(tlv).value.1 == []
    ensures Encapsulate(tlv[0], |tlv| - 3, Extract(tlv).value.0) == Ok(tlv)
  {
    var n := |tlv| - 3;
    assert Extract(tlv).value.0 == tlv[3..];
    assert [tlv[0], n / 256, n % 256] == tlv[..3];
    assert tlv[..3] + tlv[3..] == tlv;
  }
}
