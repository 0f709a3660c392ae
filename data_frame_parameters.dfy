/** The data-frame parameters sub-TLV (type 0x21): the destination MAC
    address, then the 12-bit VLAN id and the 3-bit priority packed with one
    reserved bit into 16 bits. */
module DataFrameParametersTlv {
  import opened Wrappers
  import opened Bytes
  import Hex
  import Tlv

  const TypeId: Byte := 0x21

  datatype DataFrameParameters = DataFrameParameters(dstMac: Bytes, vlanId: nat, priority: nat)

  /** The ranges the constructor enforces and the decoder always yields. */
  predicate Valid(d: DataFrameParameters) {
    d.vlanId <= 4095 && d.priority <= 7
  }

  /** The constructor: the MAC text is read with its dashes removed and its
      length is not checked; an out-of-range VLAN id or priority raises
      ValueError (both with the message "Invalid VLAN-ID"). */
  function New(dstMacText: string, vlanId: nat, priority: nat): (r: Result<DataFrameParameters>)
    ensures r.Ok? <==> Hex.ParseDashed(dstMacText).Some? && vlanId <= 4095 && priority <= 7
    ensures r.Ok? ==> Valid(r.value) && r.value.dstMac == Hex.ParseDashed(dstMacText).value
                      && r.value.vlanId == vlanId && r.value.priority == priority
    ensures r.Err? ==> r.error.ValueError?
  {
    var mac := Hex.ParseDashed(dstMacText);
    if mac.None? then Err(ValueError("non-hexadecimal number found in fromhex() arg"))
    else if vlanId > 4095 then Err(ValueError("Invalid VLAN-ID"))
    else if priority > 7 then Err(ValueError("Invalid VLAN-ID"))
    else Ok(DataFrameParameters(mac.value, vlanId, priority))
  }

  /** `((vlan_id << 3) | priority) << 1`; the or is an addition because the
      priority has three bits. */
  function CompoundField(d: DataFrameParameters): nat
    requires Valid(d)
  {
    (d.vlanId * 8 + d.priority) * 2
  }

  /** `serialize`: the MAC, then the compound field as two big-endian bytes,
      under type 0x21 with the declared length always 8. */
  function Serialize(d: DataFrameParameters): (r: Bytes)
    requires Valid(d)
    ensures |r| == 5 + |d.dstMac|
    ensures r[..3] == [TypeId, 0, 8] && r[3..3 + |d.dstMac|] == d.dstMac
    ensures FromBigEndian(r[3 + |d.dstMac|..]) == CompoundField(d) <= 65534
  {
    Pow256Values();
    var field := ToBigEndian(CompoundField(d), 2);
    FromToBigEndian(CompoundField(d), 2);
    var r := Tlv.Encapsulate(TypeId, 8, d.dstMac + field).value;
    assert r[3 + |d.dstMac|..] == field;
    r
  }

  /** `deserialize` into a new record: the value must hold exactly 8 bytes
      (ValueError otherwise); the type byte and the reserved bit are not
      looked at. */
  function Deserialize(tlv: Bytes): (r: Result<DataFrameParameters>)
    ensures |tlv| < 3 ==> r == Err(IndexError)
    ensures |tlv| >= 3 ==> (r.Ok? <==> Tlv.Min(Tlv.DeclaredLength(tlv), |tlv| - 3) == 8)
    ensures r.Ok? ==> Valid(r.value) && r.value.dstMac == tlv[3..9]
  {
    match Tlv.Extract(tlv)
    case Err(e) => Err(e)
    case Ok((value, _)) =>
      if |value| != 8 then Err(ValueError("Invalid data frame parameter tlv"))
      else
        var field := FromBigEndian(value[6..8]) / 2;
        Pow256Values();
        Ok(DataFrameParameters(value[0..6], field / 8, field % 8))
  }

  /** A record in range with a 6-byte MAC survives a serialize/deserialize
      round trip. */
  lemma RoundTrip(d: DataFrameParameters)
    requires Valid(d) && |d.dstMac| == 6
    ensures Deserialize(Serialize(d)) == Ok(d)
  {
    var s := Serialize(d);
    assert s[3..9] == d.dstMac;
    assert Tlv.Extract(s).value.0 == s[3..];
    assert s[3..][6..8] == s[9..];
  }

  /** Neither the type byte nor the reserved lowest bit changes what is
      decoded. */
  lemma IgnoresTypeAndReservedBit(tlv: Bytes, t: Byte)
    requires |tlv| == 11 && Tlv.DeclaredLength(tlv) == 8 && tlv[10] % 2 == 0
    ensures Deserialize([t] + tlv[1..10] + [tlv[10] + 1]) == Deserialize(tlv)
  {
    var other := [t] + tlv[1..10] + [tlv[10] + 1];
    var v, w := other[3..], tlv[3..];
    assert |other| == 11 && other[1] == tlv[1] && other[2] == tlv[2];
    assert Tlv.Extract(other).value.0 == v;
    assert Tlv.Extract(tlv).value.0 == w;
    assert other[9] == tlv[9] && other[10] == tlv[10] + 1;
    assert v[6] == other[9] && v[7] == other[10];
    assert v[6..8] == [tlv[9], tlv[10] + 1];
    assert w[6..8] == [tlv[9], tlv[10]];
    FromBigEndian2(v[6..8]);
    FromBigEndian2(w[6..8]);
    ReservedBit(tlv[9], tlv[10]);
    assert forall i :: 0 <= i < 6 ==> v[i] == other[i + 3] == tlv[i + 3];
    assert v[0..6] == w[0..6];
  }

  /** Setting the low bit of an even two-byte word does not change its
      half. */
  lemma ReservedBit(hi: Byte, lo: Byte)
    requires lo % 2 == 0
    ensures (hi as int * 256 + lo + 1) / 2 == (hi as int * 256 + lo) / 2
  {
    var h := hi as int * 128 + lo / 2;
    assert hi as int * 256 + lo == 2 * h;
  }
}
