/** The VLAN-context sub-TLV (type 0x25): a 12-bit VLAN id followed by four
    padding bits, and optionally a failure-information sub-TLV. */
module VlanContextTlv {
  import opened Wrappers
  import opened Bytes
  import opened FailureCodes
  import FI = FailureInformationTlv
  import Tlv

  const TypeId: Byte := 0x25

  datatype VlanContext = VlanContext(vlanId: int, failureInformation: Option<FI.FailureInformation>)

  /** The constructor rejects a VLAN id wider than 12 bits; it has no lower
      bound, so a negative id is accepted. */
  function New(vlanId: int): (r: Result<VlanContext>)
    ensures r.Ok? <==> vlanId <= 0xFFF
    ensures r.Ok? ==> r.value == VlanContext(vlanId, None)
    ensures r.Err? ==> r.error == ValueError("Invalid Vlan_id")
  {
    if vlanId > 0xFFF then Err(ValueError("Invalid Vlan_id")) else Ok(VlanContext(vlanId, None))
  }

  /** What `Vlan_context_tlv()` starts with before `deserialize` fills it. */
  const Default := VlanContext(0, None)

  /** A context the wire layout carries and gives back. */
  predicate Valid(c: VlanContext) {
0 <= c.vlanId <= 0xFFF && (c.failureInformation.Some? ==> FI.Valid(c.failureInformation.value))
  }

  /** Python's `int(a / 256)`: the quotient rounded toward zero. The float
      division is exact for every id whose bytes could be stored. */
  function TruncDiv256(a: int): (r: int)
    ensures a >= 0 ==> r == a / 256
    ensures -256 < a < 0 ==> r == 0
    ensures a <= -256 ==> r < 0
  {
    if a >= 0 then a / 256 else -((-a) / 256)
  }

  /** `serialize`: `vlan_id << 4` stored in two bytes as `int(x / 256)` and
      `x % 256`, then the failure-information TLV when there is one, under
      type 0x25. Storing a high byte outside 0..255 raises ValueError: a VLAN
      id wider than 12 bits, or one below -15. An id from -15 to -1 is
      stored, with a zero high byte and the floored remainder as low byte. */
  function Serialize(c: VlanContext): (r: Result<Bytes>)
    ensures !(-15 <= c.vlanId <= 0xFFF) ==> r == Err(ValueError("byte must be in range(0, 256)"))
    ensures r.Ok? ==> Tlv.WellFormed(r.value) && r.value[0] == TypeId && |r.value| >= 5
    ensures r.Ok? ==> FromBigEndian(r.value[3..5]) == (if c.vlanId < 0 then c.vlanId + 16 else c.vlanId) * 16
    ensures r.Ok? && c.failureInformation.None? ==> |r.value| == 5
    ensures r.Ok? && c.failureInformation.Some? ==> Ok(r.value[5..]) == FI.Serialize(c.failureInformation.value)
    ensures Valid(c) ==> r.Ok? && |r.value| == if c.failureInformation.Some? then 17 else 5
  {
    var formatted := c.vlanId * 16;
    var high := TruncDiv256(formatted);
    if !(0 <= high < 256) then Err(ValueError("byte must be in range(0, 256)"))
    else
    var vlanBytes := [high, formatted % 256];
    FromBigEndian2(vlanBytes);
    if c.failureInformation.None? then
      var r := Tlv.Encapsulate(TypeId, 2, vlanBytes);
      assert r.value[3..5] == vlanBytes;
      r
    else match FI.Serialize(c.failureInformation.value)
      case Err(e) => Err(e)
      case Ok(failure) =>
        var value := vlanBytes + failure;
        var r := Tlv.Encapsulate(TypeId, |value|, value);
        if r.Ok? then
          assert r.value[3..5] == vlanBytes && r.value[5..] == failure;
          r
        else r
  }

  /** A VLAN id from -15 to -1 passes the constructor and serializes without
      error, but reads back as that id plus 16: -1 is written as 00 F0 and
      read as VLAN id 15. */
  lemma NegativeVlanIdWraps(vlanId: int)
    requires -15 <= vlanId < 0
    ensures New(vlanId).Ok?
    ensures Serialize(New(vlanId).value).Ok?
    ensures Deserialize(Default, Serialize(New(vlanId).value).value) == Ok(VlanContext(vlanId + 16, None))
  {
    var s := Serialize(VlanContext(vlanId, None)).value;
    Tlv.EncapsulateExtract(s);
    assert Tlv.Extract(s).value.0 == s[3..];
    assert Slice(s[3..], 0, 2) == s[3..5];
  }

  /** `deserialize` on an existing object: the VLAN id is the first two
      value bytes shifted right by four; a failure-information TLV is read
      only when value byte 2 is 0x26, and otherwise the object keeps the one
      it had. */
  function Deserialize(prior: VlanContext, tlv: Bytes): (r: Result<VlanContext>)
    ensures |tlv| < 3 ==> r == Err(IndexError)
    ensures r.Ok? ==> r.value.vlanId <= 0xFFF
    ensures r.Ok? ==> var value := Tlv.Extract(tlv).value.0;
                      if |value| > 2 && value[2] == FI.TypeId
                      then r.value.failureInformation.Some? && FI.Valid(r.value.failureInformation.value)
                      else r.value.failureInformation == prior.failureInformation
  {
    match Tlv.Extract(tlv)
    case Err(e) => Err(e)
    case Ok((value, _)) =>
      Pow256Values();
      var vlanId := FromBigEndian(Slice(value, 0, 2)) / 16;
      if |value| > 2 && value[2] == FI.TypeId then
        match FI.Deserialize(value[2..])
        case Err(e) => Err(e)
        case Ok((failure, _)) => Ok(VlanContext(vlanId, Some(failure)))
      else Ok(VlanContext(vlanId, prior.failureInformation))
  }

  /** A valid context decodes, into a freshly constructed object, to itself:
      the VLAN id and the presence and content of the failure information. */
  lemma RoundTrip(c: VlanContext)
    requires Valid(c)
    ensures Deserialize(Default, Serialize(c).value) == Ok(c)
  {
    var s := Serialize(c).value;
    Tlv.EncapsulateExtract(s);
    var value := s[3..];
    assert Tlv.Extract(s).value.0 == value;
    assert Slice(value, 0, 2) == s[3..5];
    if c.failureInformation.Some? {
      var f := c.failureInformation.value;
      FI.RoundTrip(f, []);
      assert value[2..] == FI.Serialize(f).value + [];
    }
  }

  /** `add_failure_information(mac, code)`: builds the failure information
      and replaces only that field. */
  function AddFailureInformation(c: VlanContext, macText: string, code: FailureCode): (r: Result<VlanContext>)
    ensures r.Ok? <==> FI.New(macText, code).Ok?
    ensures r.Ok? ==> r.value.vlanId == c.vlanId && r.value.failureInformation == Some(FI.New(macText, code).value)
  {
    match FI.New(macText, code)
    case Err(e) => Err(e)
    case Ok(f) => Ok(c.(failureInformation := Some(f)))
  }

  /** `remove_failure_information`: clears only that field. */
  function RemoveFailureInformation(c: VlanContext): (r: VlanContext)
    ensures r.vlanId == c.vlanId && r.failureInformation.None?
  {
    c.(failureInformation := None)
  }
}
