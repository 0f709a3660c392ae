/** The token-bucket traffic specification sub-TLV (type 0x22): maximum and
    minimum transmitted frame size (2 bytes each), committed information
    rate (8 bytes) and committed burst size (4 bytes). */
module TokenBucketTspecTlv {
  import opened Wrappers
  import opened Bytes
  import Tlv

  const TypeId: Byte := 0x22

  datatype TokenBucketTspec = TokenBucketTspec(
    maxTransFrameSize: nat, minTransFrameSize: nat,
    committedInformationRate: nat, committedBurstSize: nat)

  predicate Valid(t: TokenBucketTspec) {
    t.maxTransFrameSize <= 0xFFFF && t.minTransFrameSize <= 0xFFFF
    && t.committedInformationRate <= 0xFFFF_FFFF_FFFF_FFFF && t.committedBurstSize <= 0xFFFF_FFFF
  }

  /** The constructor rejects a field that does not fit its width (every
      message reads "Invalid max_trans_frame_size"). */
  function New(maxTrans: nat, minTrans: nat, rate: nat, burst: nat): (r: Result<TokenBucketTspec>)
    ensures r.Ok? <==> Valid(TokenBucketTspec(maxTrans, minTrans, rate, burst))
    ensures r.Ok? ==> r.value == TokenBucketTspec(maxTrans, minTrans, rate, burst)
    ensures r.Err? ==> r.error == ValueError("Invalid max_trans_frame_size")
  {
    var t := TokenBucketTspec(maxTrans, minTrans, rate, burst);
    if Valid(t) then Ok(t) else Err(ValueError("Invalid max_trans_frame_size"))
  }

  /** `serialize`: a 16-byte value, the fields big-endian at offsets 0, 2, 4
      and 12, under type 0x22. */
  function Serialize(t: TokenBucketTspec): (r: Bytes)
    requires Valid(t)
    ensures |r| == 19 && r[..3] == [TypeId, 0, 16]
    ensures FromBigEndian(r[3..5]) == t.maxTransFrameSize
    ensures FromBigEndian(r[5..7]) == t.minTransFrameSize
    ensures FromBigEndian(r[7..15]) == t.committedInformationRate
    ensures FromBigEndian(r[15..19]) == t.committedBurstSize
  {
    Pow256Values();
    var a := ToBigEndian(t.maxTransFrameSize, 2);
    var b := ToBigEndian(t.minTransFrameSize, 2);
    var c := ToBigEndian(t.committedInformationRate, 8);
    var d := ToBigEndian(t.committedBurstSize, 4);
    var r := Tlv.Encapsulate(TypeId, 16, a + b + c + d).value;
    Fields(t, r);
    r
  }

  lemma Fields(t: TokenBucketTspec, r: Bytes)
    requires Valid(t) && |r| == 19
    requires Pow256(2) == 0x1_0000 && Pow256(4) == 0x1_0000_0000 && Pow256(8) == 0x1_0000_0000_0000_0000
    requires r[3..] == ToBigEndian(t.maxTransFrameSize, 2) + ToBigEndian(t.minTransFrameSize, 2)
                       + ToBigEndian(t.committedInformationRate, 8) + ToBigEndian(t.committedBurstSize, 4)
    ensures FromBigEndian(r[3..5]) == t.maxTransFrameSize
    ensures FromBigEndian(r[5..7]) == t.minTransFrameSize
    ensures FromBigEndian(r[7..15]) == t.committedInformationRate
    ensures FromBigEndian(r[15..19]) == t.committedBurstSize
  {
    var a, b := ToBigEndian(t.maxTransFrameSize, 2), ToBigEndian(t.minTransFrameSize, 2);
    var c, d := ToBigEndian(t.committedInformationRate, 8), ToBigEndian(t.committedBurstSize, 4);
    Split4(r[3..], a, b, c, d);
    SliceOfSuffix(r, 3, 0, 2);
    SliceOfSuffix(r, 3, 2, 4);
    SliceOfSuffix(r, 3, 4, 12);
    SliceOfSuffix(r, 3, 12, 16);
    assert r[3..5] == a && r[5..7] == b && r[7..15] == c && r[15..19] == d;
    FromToBigEndian(t.maxTransFrameSize, 2);
    FromToBigEndian(t.minTransFrameSize, 2);
    FromToBigEndian(t.committedInformationRate, 8);
    FromToBigEndian(t.committedBurstSize, 4);
  }

  /** `deserialize(tlv)`: a value other than 16 bytes long raises
      ValueError; the fields are read from offsets [0:2], [2:4], [4:12] and
      [12:16]. */
  function Deserialize(tlv: Bytes): (r: Result<TokenBucketTspec>)
    ensures |tlv| < 3 ==> r == Err(IndexError)
    ensures |tlv| >= 3 ==> (r.Ok? <==> Tlv.Min(Tlv.DeclaredLength(tlv), |tlv| - 3) == 16)
    ensures r.Ok? ==> Valid(r.value)
  {
    match Tlv.Extract(tlv)
    case Err(e) => Err(e)
    case Ok((value, _)) =>
      if |value| != 16 then Err(ValueError("Invalid tocken bucket tlv"))
      else
        Pow256Values();
        Ok(TokenBucketTspec(FromBigEndian(value[0..2]), FromBigEndian(value[2..4]),
                            FromBigEndian(value[4..12]), FromBigEndian(value[12..16])))
  }

  lemma RoundTrip(t: TokenBucketTspec)
    requires Valid(t)
    ensures Deserialize(Serialize(t)) == Ok(t)
  {
    var s := Serialize(t);
    var v := s[3..];
    assert Tlv.Extract(s).value.0 == v;
    assert v[0..2] == s[3..5] && v[2..4] == s[5..7] && v[4..12] == s[7..15] && v[12..16] == s[15..19];
  }
}
