/** The interface-configuration sub-TLV (type 0xFF) and the two sub-TLVs
    nested in it: MAC addresses (0xFE) and VLAN tag (0xFD), followed by a
    4-byte time-aware offset. */
module InterfaceConfigurationTlv {
  import opened Wrappers
  import opened Bytes
  import Hex
  import Tlv

  const TypeId: Byte := 0xFF
  const MacAddressesTypeId: Byte := 0xFE
  const VlanTagTypeId: Byte := 0xFD

  datatype MacAddresses = MacAddresses(dstMac: Bytes, srcMac: Bytes)

  /** The MAC-address sub-TLV constructor, which takes the source text
      first: both texts are read with their dashes removed, lengths
      unchecked. */
  function NewMacAddresses(srcText: string, dstText: string): (r: Result<MacAddresses>)
    ensures r.Ok? <==> Hex.ParseDashed(dstText).Some? && Hex.ParseDashed(srcText).Some?
    ensures r.Ok? ==> r.value.dstMac == Hex.ParseDashed(dstText).value
                      && r.value.srcMac == Hex.ParseDashed(srcText).value
  {
    var dst := Hex.ParseDashed(dstText);
    var src := Hex.ParseDashed(srcText);
    if dst.None? || src.None? then Err(ValueError("non-hexadecimal number found in fromhex() arg"))
    else Ok(MacAddresses(dst.value, src.value))
  }

  /** Destination then source under type 0xFE. */
  function SerializeMacAddresses(m: MacAddresses): (r: Result<Bytes>)
    ensures r.Err? <==> |m.dstMac| + |m.srcMac| >= 0x1_0000
    ensures r.Ok? ==> Tlv.WellFormed(r.value) && r.value[0] == MacAddressesTypeId
                      && r.value[3..] == m.dstMac + m.srcMac
  {
    var value := m.dstMac + m.srcMac;
    Tlv.Encapsulate(MacAddressesTypeId, |value|, value)
  }

  /** The first six value bytes are the destination, all the rest the
      source. */
  function DeserializeMacAddresses(tlv: Bytes): (r: Result<MacAddresses>)
    ensures r.Err? <==> |tlv| < 3
    ensures r.Ok? ==> r.value.dstMac + r.value.srcMac == Tlv.Extract(tlv).value.0
                      && |r.value.dstMac| == Tlv.Min(6, |Tlv.Extract(tlv).value.0|)
  {
    match Tlv.Extract(tlv)
    case Err(e) => Err(e)
    case Ok((value, _)) =>
      assert Slice(value, 0, 6) + Drop(value, 6) == value;
      Ok(MacAddresses(Slice(value, 0, 6), Drop(value, 6)))
  }

  lemma MacAddressesRoundTrip(m: MacAddresses)
    requires |m.dstMac| == 6 && |m.srcMac| < 0x1_0000 - 6
    ensures SerializeMacAddresses(m).Ok?
    ensures DeserializeMacAddresses(SerializeMacAddresses(m).value) == Ok(m)
  {
    var s := SerializeMacAddresses(m).value;
    Tlv.EncapsulateExtract(s);
    assert s[3..][0..6] == m.dstMac;
    assert s[3..][6..] == m.srcMac;
  }

  datatype VlanTag = VlanTag(priorityCodePoint: nat, vlanId: nat)

  /** The 16-bit word `(pcp << 13) | vlan_id`; the or is an addition for a
      12-bit VLAN id. */
  function TagWord(t: VlanTag): nat
    requires t.vlanId <= 4095
  {
    t.priorityCodePoint * 0x2000 + t.vlanId
  }

  /** A VLAN id above 4095 raises ValueError; a word that does not fit two
      bytes (a priority above 7) raises OverflowError. */
  function SerializeVlanTag(t: VlanTag): (r: Result<Bytes>)
    ensures r.Err? <==> t.vlanId > 4095 || t.priorityCodePoint > 7
    ensures t.vlanId > 4095 ==> r == Err(ValueError("Vlan ID to large"))
    ensures r.Ok? ==> |r.value| == 5 && r.value[..3] == [VlanTagTypeId, 0, 2]
                      && FromBigEndian(r.value[3..]) == TagWord(t)
  {
    if t.vlanId > 4095 then Err(ValueError("Vlan ID to large"))
    else if TagWord(t) >= 0x1_0000 then Err(OverflowError)
    else
      Pow256Values();
      FromToBigEndian(TagWord(t), 2);
      Ok(Tlv.Encapsulate(VlanTagTypeId, 2, ToBigEndian(TagWord(t), 2)).value)
  }

  /** The whole value read as one integer: its low 12 bits are the VLAN id
      and the bits from 13 up the priority; bit 12 is dropped. */
  function DeserializeVlanTag(tlv: Bytes): (r: Result<VlanTag>)
    ensures r.Err? <==> |tlv| < 3
    ensures r.Ok? ==> r.value.vlanId <= 4095
                      && r.value.priorityCodePoint * 0x2000 + r.value.vlanId
                         <= FromBigEndian(Tlv.Extract(tlv).value.0)
  {
    match Tlv.Extract(tlv)
    case Err(e) => Err(e)
    case Ok((value, _)) =>
      var x := FromBigEndian(value);
      TagWordBound(x);
      Ok(VlanTag(x / 0x2000, x % 0x1000))
  }

  /** The priority and the VLAN id cut from a word never sum past it. */
  lemma TagWordBound(x: nat)
    ensures x % 0x1000 <= 4095
    ensures (x / 0x2000) * 0x2000 + x % 0x1000 <= x
  {
    var q, r := x / 0x2000, x % 0x2000;
    var h, l := r / 0x1000, r % 0x1000;
    assert x == (2 * q + h) * 0x1000 + l;
    LowPart(x, 2 * q + h, l);
  }

  /** The remainder by 0x1000 of a word written as k * 0x1000 + l. */
  lemma LowPart(x: nat, k: nat, l: nat)
    requires l < 0x1000 && x == k * 0x1000 + l
    ensures x % 0x1000 == l
  {
  }

  lemma VlanTagRoundTrip(t: VlanTag)
    requires t.priorityCodePoint <= 7 && t.vlanId <= 4095
    ensures SerializeVlanTag(t).Ok?
    ensures DeserializeVlanTag(SerializeVlanTag(t).value) == Ok(t)
  {
    var s := SerializeVlanTag(t).value;
    assert Tlv.Extract(s).value.0 == s[3..];
    TagWordPriority(t.priorityCodePoint, t.vlanId);
    TagWordVlan(t.priorityCodePoint, t.vlanId);
  }

  lemma TagWordPriority(pcp: nat, vlan: nat)
    requires vlan <= 4095
    ensures (pcp * 0x2000 + vlan) / 0x2000 == pcp
  {
  }

  lemma TagWordVlan(pcp: nat, vlan: nat)
    requires vlan <= 4095
    ensures (pcp * 0x2000 + vlan) % 0x1000 == vlan
  {
  }

  /** The reserved bit 12 is lost: a word with only that bit set decodes
      like a zero word. */
  lemma VlanTagDropsBit12()
    ensures DeserializeVlanTag([VlanTagTypeId, 0, 2, 0x10, 0]) == Ok(VlanTag(0, 0))
  {
    var v := [VlanTagTypeId, 0, 2, 0x10, 0][3..];
    assert Tlv.Extract([VlanTagTypeId, 0, 2, 0x10, 0]).value.0 == v;
    FromBigEndian2(v);
  }

  datatype InterfaceConfiguration = InterfaceConfiguration(
    macAddresses: Option<MacAddresses>, vlanTag: Option<VlanTag>, timeAwareOffset: nat)

  /** The constructor: no sub-TLVs yet and a zero offset. */
  const Empty := InterfaceConfiguration(None, None, 0)

  /** A configuration the wire layout can carry and give back. */
  predicate Valid(ic: InterfaceConfiguration) {
    && ic.macAddresses.Some? && |ic.macAddresses.value.dstMac| == 6 && |ic.macAddresses.value.srcMac| == 6
    && ic.vlanTag.Some? && ic.vlanTag.value.priorityCodePoint <= 7 && ic.vlanTag.value.vlanId <= 4095
    && ic.timeAwareOffset < 0x1_0000_0000
  }

  /** `serialize`: the MAC TLV, the VLAN-tag TLV and the offset as 4
      big-endian bytes under type 0xFF. A missing sub-TLV raises
      AttributeError (they start as None). */
  function Serialize(ic: InterfaceConfiguration): (r: Result<Bytes>)
    ensures ic.macAddresses.None? ==> r == Err(AttributeError)
    ensures ic.macAddresses.Some? && ic.vlanTag.None? && SerializeMacAddresses(ic.macAddresses.value).Ok?
            ==> r == Err(AttributeError)
    ensures r.Ok? ==> ic.macAddresses.Some? && ic.vlanTag.Some? && ic.timeAwareOffset < 0x1_0000_0000
    ensures r.Ok? ==> Tlv.WellFormed(r.value) && r.value[0] == TypeId
    ensures Valid(ic) ==> r.Ok? && |r.value| == 27
  {
    if ic.macAddresses.None? then Err(AttributeError)
    else match SerializeMacAddresses(ic.macAddresses.value)
      case Err(e) => Err(e)
      case Ok(mac) =>
        if ic.vlanTag.None? then Err(AttributeError)
        else match SerializeVlanTag(ic.vlanTag.value)
          case Err(e) => Err(e)
          case Ok(tag) =>
            if ic.timeAwareOffset >= 0x1_0000_0000 then Err(OverflowError)
            else
              Pow256Values();
              var value := mac + tag + ToBigEndian(ic.timeAwareOffset, 4);
              Tlv.Encapsulate(TypeId, |value|, value)
  }

  /** `get_dst_mac`: six lower-case hex pairs joined by dashes, which read
      back as the first six destination bytes. */
  function GetDstMac(ic: InterfaceConfiguration): (r: Result<string>)
    ensures ic.macAddresses.None? ==> r == Err(AttributeError)
    ensures ic.macAddresses.Some? ==> (r.Err? <==> |ic.macAddresses.value.dstMac| < 6)
    ensures r.Ok? ==> Hex.ParseDashed(r.value) == Some(ic.macAddresses.value.dstMac[..6])
  {
    if ic.macAddresses.None? then Err(AttributeError)
    else RenderMac(ic.macAddresses.value.dstMac)
  }

  /** `get_src_mac`, the same for the source address. */
  function GetSrcMac(ic: InterfaceConfiguration): (r: Result<string>)
    ensures ic.macAddresses.None? ==> r == Err(AttributeError)
    ensures ic.macAddresses.Some? ==> (r.Err? <==> |ic.macAddresses.value.srcMac| < 6)
    ensures r.Ok? ==> Hex.ParseDashed(r.value) == Some(ic.macAddresses.value.srcMac[..6])
  {
    if ic.macAddresses.None? then Err(AttributeError)
    else RenderMac(ic.macAddresses.value.srcMac)
  }

  function RenderMac(mac: Bytes): (r: Result<string>)
    ensures r.Err? <==> |mac| < 6
    ensures r.Ok? ==> Hex.ParseDashed(r.value) == Some(mac[..6])
  {
    if |mac| < 6 then Err(IndexError)
    else
      Hex.MacSeparators();
      Hex.ParseRender(mac[..6], Hex.MacSeps, {'-'});
      Ok(Hex.Render(mac[..6], Hex.MacSeps))
  }

  /** A canonical lower-case MAC text given to the MAC-address constructor
      is what the getter renders. */
  lemma GetDstMacReproducesText(srcText: string, dstText: string, tag: Option<VlanTag>, offset: nat)
    requires Hex.Canonical(dstText, Hex.MacSeps) && Hex.ParseDashed(srcText).Some?
    ensures NewMacAddresses(srcText, dstText).Ok?
    ensures GetDstMac(InterfaceConfiguration(Some(NewMacAddresses(srcText, dstText).value), tag, offset)) == Ok(dstText)
  {
    Hex.MacSeparators();
    Hex.RenderParse(dstText, Hex.MacSeps, {'-'});
    var dst := Hex.ParseDashed(dstText).value;
    assert dst[..6] == dst;
  }

  /** `deserialize`: the MAC TLV from value bytes [0:15], the VLAN-tag TLV
      from [15:20] and the offset from everything after byte 20. The three
      fields are all replaced, so the result does not depend on the old
      object. */
  function Deserialize(tlv: Bytes): (r: Result<InterfaceConfiguration>)
    ensures |tlv| < 3 ==> r == Err(IndexError)
    ensures r.Ok? ==> r.value.macAddresses.Some? && r.value.vlanTag.Some?
    ensures r.Ok? ==> |Tlv.Extract(tlv).value.0| >= 18
                      && r.value.timeAwareOffset == FromBigEndian(Drop(Tlv.Extract(tlv).value.0, 20))
  {
    match Tlv.Extract(tlv)
    case Err(e) => Err(e)
    case Ok((value, _)) =>
      match DeserializeMacAddresses(Slice(value, 0, 15))
      case Err(e) => Err(e)
      case Ok(macs) =>
        match DeserializeVlanTag(Slice(value, 15, 20))
        case Err(e) => Err(e)
        case Ok(tag) => Ok(InterfaceConfiguration(Some(macs), Some(tag), FromBigEndian(Drop(value, 20))))
  }

  lemma RoundTrip(ic: InterfaceConfiguration)
    requires Valid(ic)
    ensures Serialize(ic).Ok? && Deserialize(Serialize(ic).value) == Ok(ic)
  {
    Pow256Values();
    var m := ic.macAddresses.value;
    var t := ic.vlanTag.value;
    MacAddressesRoundTrip(m);
    VlanTagRoundTrip(t);
    var mac := SerializeMacAddresses(m).value;
    var tag := SerializeVlanTag(t).value;
    var tao := ToBigEndian(ic.timeAwareOffset, 4);
    FromToBigEndian(ic.timeAwareOffset, 4);
    var value := mac + tag + tao;
    var s := Serialize(ic).value;
    assert s == Tlv.Encapsulate(TypeId, 24, value).value;
    assert Tlv.Extract(s).value.0 == value;
    assert Slice(value, 0, 15) == mac;
    assert Slice(value, 15, 20) == tag;
    assert Drop(value, 20) == tao;
  }
}
