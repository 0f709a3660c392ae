/** The organisation-defined time-aware sub-TLV of the talker announce
    attribute (type 0x27): a three-byte organisation id EF-EF-EF, then six
    32-bit big-endian timing fields. */
module OrgDefinedTaaTlv {
  import opened Wrappers
  import opened Bytes
  import Tlv

  const TypeId: Byte := 0x27

  /** The organisation id written in front of the fields. */
  const Ocid: Bytes := [0xEF, 0xEF, 0xEF]

  datatype OrgDefined = OrgDefined(
    intervalNumerator: int, intervalDenominator: int,
    earliestTransmitOffset: int, latestTransmitOffset: int,
    jitter: int, maximumLatency: int)

  /** The constructor's defaults: every field zero. */
  const Default := OrgDefined(0, 0, 0, 0, 0, 0)

  /** A field `to_bytes(4, "big")` can write: not negative, and under 2^32. */
  predicate FitsWord(n: int) {
    0 <= n < 0x1_0000_0000
  }

  /** Every field fits the four bytes `to_bytes(4, "big")` writes. */
  predicate Valid(o: OrgDefined) {
    && FitsWord(o.intervalNumerator) && FitsWord(o.intervalDenominator)
    && FitsWord(o.earliestTransmitOffset) && FitsWord(o.latestTransmitOffset)
    && FitsWord(o.jitter) && FitsWord(o.maximumLatency)
  }

  function Word(n: int): (r: Bytes)
    requires FitsWord(n)
    ensures |r| == 4
  {
    Pow256Values();
    ToBigEndian(n as nat, 4)
  }

  /** `serialize`: the organisation id and the six fields, a 27-byte value
      under type 0x27. The constructor does not check the fields, so one
      that is negative or needs more than four bytes makes `to_bytes` raise
      OverflowError. */
  function Serialize(o: OrgDefined): (r: Result<Bytes>)
    ensures r.Err? <==> !Valid(o)
    ensures r.Err? ==> r.error == OverflowError
    ensures r.Ok? ==> |r.value| == 30 && r.value[..6] == [TypeId, 0, 27] + Ocid
  {
    if !Valid(o) then Err(OverflowError)
    else
      var value := Ocid + Word(o.intervalNumerator) + Word(o.intervalDenominator)
                   + Word(o.earliestTransmitOffset) + Word(o.latestTransmitOffset)
                   + Word(o.jitter) + Word(o.maximumLatency);
      var r := Tlv.Encapsulate(TypeId, |value|, value).value;
      assert r[..6] == [TypeId, 0, 27] + Ocid;
      Ok(r)
  }

  /** The number in value bytes [lo:lo + 4], as `int.from_bytes` reads a
      slice that may be cut short. */
  function FieldAt(value: Bytes, lo: nat): (r: nat)
    ensures r < 0x1_0000_0000
  {
    Pow256Values();
    FromBigEndian(Slice(value, lo, lo + 4))
  }

  /** `deserialize` into a new record: the fields are read from value bytes
      [3:7], [7:11], ..., [23:27]; the organisation id is skipped unchecked,
      and a short value gives short (smaller) fields instead of an error.
      Only a frame without a full header fails (IndexError). */
  function Deserialize(tlv: Bytes): (r: Result<OrgDefined>)
    ensures r.Err? <==> |tlv| < 3
    ensures r.Err? ==> r.error == IndexError
    ensures r.Ok? ==> Valid(r.value)
  {
    match Tlv.Extract(tlv)
    case Err(e) => Err(e)
    case Ok((value, _)) =>
      Ok(OrgDefined(FieldAt(value, 3), FieldAt(value, 7), FieldAt(value, 11),
                    FieldAt(value, 15), FieldAt(value, 19), FieldAt(value, 23)))
  }

  /** The six words after the organisation id, at their offsets. */
  lemma WordsAt(a: Bytes, b: Bytes, c: Bytes, d: Bytes, e: Bytes, f: Bytes)
    requires |a| == |b| == |c| == |d| == |e| == |f| == 4
    ensures var v := Ocid + a + b + c + d + e + f;
      && v[3..7] == a && v[7..11] == b && v[11..15] == c
      && v[15..19] == d && v[19..23] == e && v[23..27] == f
  {
  }

  /** A record whose fields fit 32 bits survives a round trip. */
  lemma RoundTrip(o: OrgDefined)
    requires Valid(o)
    ensures Serialize(o).Ok? && Deserialize(Serialize(o).value) == Ok(o)
  {
    Pow256Values();
    var a, b, c := Word(o.intervalNumerator), Word(o.intervalDenominator), Word(o.earliestTransmitOffset);
    var d, e, f := Word(o.latestTransmitOffset), Word(o.jitter), Word(o.maximumLatency);
    var value := Ocid + a + b + c + d + e + f;
    Tlv.ExtractEncapsulate(TypeId, value, []);
    assert Serialize(o).value + [] == Serialize(o).value;
    WordsAt(a, b, c, d, e, f);
    FromToBigEndian(o.intervalNumerator as nat, 4);
    FromToBigEndian(o.intervalDenominator as nat, 4);
    FromToBigEndian(o.earliestTransmitOffset as nat, 4);
    FromToBigEndian(o.latestTransmitOffset as nat, 4);
    FromToBigEndian(o.jitter as nat, 4);
    FromToBigEndian(o.maximumLatency as nat, 4);
  }

  /** The organisation id is not checked: any three bytes in its place
      decode to the same record. */
  lemma IgnoresOcid(tlv: Bytes, other: Bytes)
    requires |tlv| >= 6 && |other| == 3
    ensures Deserialize(tlv[..3] + other + tlv[6..]) == Deserialize(tlv)
  {
    var t2 := tlv[..3] + other + tlv[6..];
    assert t2[..3] == tlv[..3] && |t2| == |tlv|;
    var v1 := Tlv.Extract(tlv).value.0;
    var v2 := Tlv.Extract(t2).value.0;
    assert |v1| == |v2|;
    forall i | 3 <= i < |v1|
      ensures v1[i] == v2[i]
    {
      assert v1[i] == tlv[3 + i] && v2[i] == t2[3 + i];
    }
    FieldsAgree(v1, v2, 3);
    FieldsAgree(v1, v2, 7);
    FieldsAgree(v1, v2, 11);
    FieldsAgree(v1, v2, 15);
    FieldsAgree(v1, v2, 19);
    FieldsAgree(v1, v2, 23);
  }

  lemma FieldsAgree(v1: Bytes, v2: Bytes, lo: nat)
    requires |v1| == |v2| && lo >= 3
    requires forall i :: 3 <= i < |v1| ==> v1[i] == v2[i]
    ensures FieldAt(v1, lo) == FieldAt(v2, lo)
  {
    assert Slice(v1, lo, lo + 4) == Slice(v2, lo, lo + 4);
  }
}
