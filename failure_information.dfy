/** The failure-information sub-TLV (type 0x26): an 8-byte system id (two
    zero bytes and a MAC address) and a one-byte failure code. */
module FailureInformationTlv {
  import opened Wrappers
  import opened Bytes
  import opened FailureCodes
  import Hex
  import Tlv

  const TypeId: Byte := 0x26

  datatype FailureInformation = FailureInformation(systemId: Bytes, failureCode: FailureCode)

  /** The wire layout expects an 8-byte system id. */
  predicate Valid(f: FailureInformation) {
    |f.systemId| == 8
  }

  /** The constructor: the MAC text must have 17 characters; with its dashes
      removed it is read as hex and prefixed by two zero bytes. */
  function New(macText: string, code: FailureCode): (r: Result<FailureInformation>)
    ensures r.Ok? <==> |macText| == 17 && Hex.ParseDashed(macText).Some?
    ensures r.Ok? ==> r.value.systemId == [0, 0] + Hex.ParseDashed(macText).value
                      && r.value.failureCode == code && |r.value.systemId| <= 10
    ensures r.Err? ==> r.error.ValueError?
  {
    if |macText| != 17 then Err(ValueError("Invalid MAC address"))
    else
      var mac := Hex.ParseDashed(macText);
      if mac.None? then Err(ValueError("non-hexadecimal number found in fromhex() arg"))
      else Ok(FailureInformation([0, 0] + mac.value, code))
  }

  /** `get_system_id`: the first 8 bytes as lower-case hex pairs joined by
      dashes; a shorter id raises IndexError. The text reads back as the id. */
  function GetSystemId(f: FailureInformation): (r: Result<string>)
    ensures r.Err? <==> |f.systemId| < 8
    ensures r.Ok? ==> Hex.Canonical(r.value, Hex.SystemIdSeps)
    ensures r.Ok? ==> Hex.ParseDashed(r.value) == Some(f.systemId[..8])
  {
    if |f.systemId| < 8 then Err(IndexError)
    else
      Hex.MacSeparators();
      Hex.ParseRender(f.systemId[..8], Hex.SystemIdSeps, {'-'});
      Hex.RenderCanonical(f.systemId[..8], Hex.SystemIdSeps);
      Ok(Hex.Render(f.systemId[..8], Hex.SystemIdSeps))
  }

  /** `serialize`: the system id and the code byte under type 0x26, with the
      length of that value; an id too long for a 16-bit length fails. */
  function Serialize(f: FailureInformation): (r: Result<Bytes>)
    ensures r.Err? <==> |f.systemId| + 1 >= 0x1_0000
    ensures r.Ok? ==> |r.value| == |f.systemId| + 4 && r.value[0] == TypeId
                      && Tlv.DeclaredLength(r.value) == |f.systemId| + 1
                      && r.value[3..3 + |f.systemId|] == f.systemId
                      && r.value[3 + |f.systemId|] == Code(f.failureCode)
  {
    var value := f.systemId + [Code(f.failureCode)];
    var r := Tlv.Encapsulate(TypeId, |value|, value);
    if r.Ok? then
      assert r.value[3..3 + |f.systemId|] == value[..|f.systemId|];
      r
    else r
  }

  /** `deserialize` into a new record, with the number of bytes it reports
      as consumed (the value length plus 3, trailing value bytes included).
      A value shorter than 9 bytes raises IndexError and a code byte outside
      the enumeration raises ValueError. */
  function Deserialize(tlv: Bytes): (r: Result<(FailureInformation, nat)>)
    ensures |tlv| < 3 ==> r == Err(IndexError)
    ensures |tlv| >= 3 ==> (r.Ok? ==> Tlv.Min(Tlv.DeclaredLength(tlv), |tlv| - 3) >= 9)
    ensures r.Ok? ==> Valid(r.value.0) && r.value.0.systemId == tlv[3..11]
                      && Code(r.value.0.failureCode) == tlv[11]
                      && r.value.1 == 3 + Tlv.Min(Tlv.DeclaredLength(tlv), |tlv| - 3) <= |tlv|
  {
    match Tlv.Extract(tlv)
    case Err(e) => Err(e)
    case Ok((value, _)) =>
      if |value| < 9 then Err(IndexError)
      else match FromCode(value[8])
        case Err(e) => Err(e)
        case Ok(code) => Ok((FailureInformation(value[0..8], code), |value| + 3))
  }

  /** A record with an 8-byte id round-trips, whatever follows it, and the
      reported size is the 12 bytes written. */
  lemma RoundTrip(f: FailureInformation, rest: Bytes)
    requires Valid(f)
    ensures Serialize(f).Ok? && |Serialize(f).value| == 12
    ensures Deserialize(Serialize(f).value + rest) == Ok((f, 12))
  {
    var s := Serialize(f).value;
    Tlv.ExtractEncapsulate(TypeId, f.systemId + [Code(f.failureCode)], rest);
    assert s == Tlv.Encapsulate(TypeId, 9, f.systemId + [Code(f.failureCode)]).value;
    FromCodeCode(f.failureCode);
  }

  /** A leading zero byte renders as "00-". */
  lemma RenderZero(bs: Bytes, seps: string)
    requires |bs| == |seps| + 1
    ensures Hex.Render([0] + bs, "-" + seps) == "00-" + Hex.Render(bs, seps)
  {
    Hex.RenderCons(0, bs, '-', seps);
    assert Hex.HexByte(0) == "00";
  }

  /** An 8-byte id is rendered whole. */
  lemma SystemIdText(id: Bytes, code: FailureCode)
    requires |id| == 8
    ensures GetSystemId(FailureInformation(id, code)) == Ok(Hex.Render(id, Hex.SystemIdSeps))
  {
    assert id[..8] == id;
  }

  /** Two zero bytes in front render as "00-00-" in front. */
  lemma RenderTwoZeros(bs: Bytes, seps: string)
    requires |bs| == |seps| + 1
    ensures Hex.Render([0, 0] + bs, "--" + seps) == "00-00-" + Hex.Render(bs, seps)
  {
    var r := Hex.Render(bs, seps);
    assert [0, 0] + bs == [0] + ([0] + bs);
    assert "--" + seps == "-" + ("-" + seps);
    RenderZero(bs, seps);
    RenderZero([0] + bs, "-" + seps);
    ConcatAssoc("00-", "00-", r);
    assert "00-" + "00-" == "00-00-";
  }

  /** Two zero bytes and a MAC render as "00-00-" and the MAC. */
  lemma ZeroPrefixedText(bs: Bytes)
    requires |bs| == 6
    ensures Hex.Render([0, 0] + bs, Hex.SystemIdSeps) == "00-00-" + Hex.Render(bs, Hex.MacSeps)
  {
    assert Hex.SystemIdSeps == "--" + Hex.MacSeps;
    RenderTwoZeros(bs, Hex.MacSeps);
  }

  /** A canonical lower-case MAC text gives an 8-byte id whose rendering is
      "00-00-" followed by that text. */
  lemma NewFromCanonicalMac(macText: string, code: FailureCode)
    requires Hex.Canonical(macText, Hex.MacSeps)
    ensures New(macText, code).Ok? && Valid(New(macText, code).value)
    ensures GetSystemId(New(macText, code).value) == Ok("00-00-" + macText)
  {
    Hex.MacSeparators();
    Hex.RenderParse(macText, Hex.MacSeps, {'-'});
    assert |macText| == 17;
    var bs := Hex.ParseDashed(macText).value;
    SystemIdText([0, 0] + bs, code);
    ZeroPrefixedText(bs);
  }
}
