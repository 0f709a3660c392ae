/** The MSRP traffic specification sub-TLV (type 0x23): maximum frame size
    and maximum frames per interval, two bytes each. */
module MsrpTspecTlv {
  import opened Wrappers
  import opened Bytes
  import Tlv

  const TypeId: Byte := 0x23

  datatype MsrpTspec = MsrpTspec(maxFrameSize: nat, maxIntervalFrames: nat)

  predicate Valid(m: MsrpTspec) {
    m.maxFrameSize <= 0xFFFF && m.maxIntervalFrames <= 0xFFFF
  }

  /** The constructor rejects a field that does not fit two bytes. */
  function New(maxFrameSize: nat, maxIntervalFrames: nat): (r: Result<MsrpTspec>)
    ensures r.Ok? <==> Valid(MsrpTspec(maxFrameSize, maxIntervalFrames))
    ensures r.Ok? ==> r.value == MsrpTspec(maxFrameSize, maxIntervalFrames)
    ensures r.Err? ==> r.error.ValueError?
  {
    if maxFrameSize > 0xFFFF then Err(ValueError("Invalid maximum frame size"))
    else if maxIntervalFrames > 0xFFFF then Err(ValueError("Invalid interval frame maximum"))
    else Ok(MsrpTspec(maxFrameSize, maxIntervalFrames))
  }

  /** `serialize`: type 0x23, length 4, both fields big-endian. */
  function Serialize(m: MsrpTspec): (r: Bytes)
    requires Valid(m)
    ensures |r| == 7 && r[..3] == [TypeId, 0, 4]
    ensures FromBigEndian(r[3..5]) == m.maxFrameSize && FromBigEndian(r[5..7]) == m.maxIntervalFrames
  {
    Pow256Values();
    var a := ToBigEndian(m.maxFrameSize, 2);
    var b := ToBigEndian(m.maxIntervalFrames, 2);
    FromToBigEndian(m.maxFrameSize, 2);
    FromToBigEndian(m.maxIntervalFrames, 2);
    var r := Tlv.Encapsulate(TypeId, 4, a + b).value;
    assert r[3..5] == a && r[5..7] == b;
    r
  }

  /** `deserialize` into a new record; a value other than 4 bytes long
      raises ValueError (with the message "Invalid Stream-ID"). */
  function Deserialize(tlv: Bytes): (r: Result<MsrpTspec>)
    ensures |tlv| < 3 ==> r == Err(IndexError)
    ensures |tlv| >= 3 ==> (r.Ok? <==> Tlv.Min(Tlv.DeclaredLength(tlv), |tlv| - 3) == 4)
    ensures r.Ok? ==> Valid(r.value)
  {
    match Tlv.Extract(tlv)
    case Err(e) => Err(e)
    case Ok((value, _)) =>
      if |value| != 4 then Err(ValueError("Invalid Stream-ID"))
      else
        Pow256Values();
        Ok(MsrpTspec(FromBigEndian(value[0..2]), FromBigEndian(value[2..4])))
  }

  lemma RoundTrip(m: MsrpTspec)
    requires Valid(m)
    ensures Deserialize(Serialize(m)) == Ok(m)
  {
    var s := Serialize(m);
    assert Tlv.Extract(s).value.0 == s[3..];
    assert s[3..][0..2] == s[3..5] && s[3..][2..4] == s[5..7];
  }
}
