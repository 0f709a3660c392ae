/** The talker announce attribute (TAA, type 0x01): the stream id, rank and
    accumulated latency, the data-frame parameters, one traffic
    specification and four optional sub-TLVs. */
module Taa {
  import opened Wrappers
  import opened Bytes
  import opened FailureCodes
  import Hex
  import Tlv
  import DFP = DataFrameParametersTlv
  import MS = MsrpTspecTlv
  import TB = TokenBucketTspecTlv
  import RC = RedundancyControlTlv
  import VC = VlanContextTlv
  import FI = FailureInformationTlv
  import IC = InterfaceConfigurationTlv
  import Org = OrgDefinedTaaTlv

  const TypeId: Byte := 0x01

  /** The fields of a TAA object. */
  datatype Announce = Announce(
    streamId: Bytes,
    streamRank: int,
    accumulatedMaximumLatency: int,
    dataFrameParameters: DFP.DataFrameParameters,
    tokenBucketTspec: Option<TB.TokenBucketTspec>,
    msrpTspec: Option<MS.MsrpTspec>,
    redundancyControl: Option<RC.RedundancyControl>,
    failureInformation: Option<FI.FailureInformation>,
    interfaceConfiguration: Option<IC.InterfaceConfiguration>,
    organizationallyDefined: Option<Org.OrgDefined>)

  /** What every TAA object satisfies: the constructor checks the stream id
      and the data-frame parameters, traffic specifications come from
      constructors that check their ranges, and `deserialize` keeps all of
      this. */
  predicate Valid(a: Announce) {
    && |a.streamId| == 8
    && DFP.Valid(a.dataFrameParameters)
    && (a.msrpTspec.Some? ==> MS.Valid(a.msrpTspec.value))
    && (a.tokenBucketTspec.Some? ==> TB.Valid(a.tokenBucketTspec.value))
  }

  /** The stream id text with ':' and '-' removed, read as hex; it must give
      8 bytes ("Invalid Stream-ID"). */
  function StreamIdFromText(text: string): (r: Result<Bytes>)
    ensures r.Ok? <==> Hex.ParseStreamIdText(text).Some? && |Hex.ParseStreamIdText(text).value| == 8
    ensures r.Ok? ==> Hex.ParseStreamIdText(text) == Some(r.value)
    ensures r.Err? ==> r.error.ValueError?
  {
    match Hex.ParseStreamIdText(text)
    case None => Err(ValueError("non-hexadecimal number found in fromhex() arg"))
    case Some(id) => if |id| != 8 then Err(ValueError("Invalid Stream-ID")) else Ok(id)
  }

  /** The constructor: a checked stream id, the given rank, a zero latency,
      data-frame parameters built from the MAC text, VLAN id and priority,
      the given traffic specifications and organisation-defined sub-TLV, and
      no redundancy control, failure information or interface
      configuration. */
  function New(streamIdText: string, streamRank: int, dstMacText: string, vlanId: nat, priority: nat,
               msrp: Option<MS.MsrpTspec>, tokenBucket: Option<TB.TokenBucketTspec>,
               org: Option<Org.OrgDefined>): (r: Result<Announce>)
    ensures r.Ok? <==> StreamIdFromText(streamIdText).Ok? && DFP.New(dstMacText, vlanId, priority).Ok?
    ensures r.Ok? ==> r.value.streamId == StreamIdFromText(streamIdText).value
                      && r.value.dataFrameParameters == DFP.New(dstMacText, vlanId, priority).value
                      && r.value.streamRank == streamRank && r.value.accumulatedMaximumLatency == 0
                      && r.value.msrpTspec == msrp && r.value.tokenBucketTspec == tokenBucket
                      && r.value.organizationallyDefined == org
                      && r.value.redundancyControl.None? && r.value.failureInformation.None?
                      && r.value.interfaceConfiguration.None?
    ensures r.Err? ==> r.error.ValueError?
  {
    match StreamIdFromText(streamIdText)
    case Err(e) => Err(e)
    case Ok(id) =>
      match DFP.New(dstMacText, vlanId, priority)
      case Err(e) => Err(e)
      case Ok(d) => Ok(Announce(id, streamRank, 0, d, tokenBucket, msrp, None, None, None, org))
  }

  /** What `TAA()` holds: the all-zero stream id and MAC, rank 0, VLAN 0,
      priority 0 and no optional part. */
  const Blank := Announce([0, 0, 0, 0, 0, 0, 0, 0], 0, 0, DFP.DataFrameParameters([0, 0, 0, 0, 0, 0], 0, 0),
                          None, None, None, None, None, None)

  /** The text `get_stream_id` builds from a stream id: hex pairs joined
      as xx-xx-xx-xx-xx-xx:xx-xx, which the constructor reads back as the
      id; an id shorter than 8 bytes raises IndexError. */
  function StreamIdText(streamId: Bytes): (r: Result<string>)
    ensures r.Err? <==> |streamId| < 8
    ensures r.Ok? ==> Hex.Canonical(r.value, Hex.StreamIdSeps)
    ensures r.Ok? ==> Hex.ParseStreamIdText(r.value) == Some(streamId[..8])
  {
    if |streamId| < 8 then Err(IndexError)
    else
      Hex.MacSeparators();
      Hex.ParseRender(streamId[..8], Hex.StreamIdSeps, {':', '-'});
      Hex.RenderCanonical(streamId[..8], Hex.StreamIdSeps);
      Ok(Hex.Render(streamId[..8], Hex.StreamIdSeps))
  }

  /** `get_stream_id` of a TAA object. */
  function GetStreamId(a: Announce): (r: Result<string>)
    ensures r.Err? <==> |a.streamId| < 8
    ensures r.Ok? ==> Hex.Canonical(r.value, Hex.StreamIdSeps)
    ensures r.Ok? ==> Hex.ParseStreamIdText(r.value) == Some(a.streamId[..8])
  {
    StreamIdText(a.streamId)
  }

  /** `get_mac`: the first six stream-id bytes as a dashed MAC text. */
  function GetMac(a: Announce): (r: Result<string>)
    ensures r.Err? <==> |a.streamId| < 6
    ensures r.Ok? ==> Hex.ParseDashed(r.value) == Some(a.streamId[..6])
  {
    if |a.streamId| < 6 then Err(IndexError)
    else
      Hex.MacSeparators();
      Hex.ParseRender(a.streamId[..6], Hex.MacSeps, {'-'});
      Ok(Hex.Render(a.streamId[..6], Hex.MacSeps))
  }

  /** `get_dst_mac`: the six destination MAC bytes in DECIMAL, joined by
      dashes; splitting at the dashes and reading each field as a number
      gives the bytes back. */
  function GetDstMac(a: Announce): (r: Result<string>)
    ensures r.Err? <==> |a.dataFrameParameters.dstMac| < 6
    ensures r.Ok? ==> var fields := Hex.SplitDashes(r.value);
      && |fields| == 6
      && forall i :: 0 <= i < 6 ==>
           Hex.AllDigits(fields[i]) && Hex.DecimalValue(fields[i]) == a.dataFrameParameters.dstMac[i]
  {
    var mac := a.dataFrameParameters.dstMac;
    if |mac| < 6 then Err(IndexError)
    else
      Hex.RenderDecimalInverse(mac[..6]);
      Ok(Hex.RenderDecimal(mac[..6]))
  }

  /** A lower-case canonical stream id given to the constructor is what
      `get_stream_id` returns. */
  lemma GetStreamIdReproducesText(streamIdText: string, streamRank: int, dstMacText: string, vlanId: nat,
                                  priority: nat, msrp: Option<MS.MsrpTspec>,
                                  tokenBucket: Option<TB.TokenBucketTspec>, org: Option<Org.OrgDefined>)
    requires Hex.Canonical(streamIdText, Hex.StreamIdSeps)
    requires DFP.New(dstMacText, vlanId, priority).Ok?
    ensures New(streamIdText, streamRank, dstMacText, vlanId, priority, msrp, tokenBucket, org).Ok?
    ensures GetStreamId(New(streamIdText, streamRank, dstMacText, vlanId, priority, msrp, tokenBucket, org).value)
            == Ok(streamIdText)
  {
    Hex.MacSeparators();
    Hex.RenderParse(streamIdText, Hex.StreamIdSeps, {':', '-'});
    var id := Hex.ParseStreamIdText(streamIdText).value;
    assert id[..8] == id;
  }

  /** `get_mac` is the first 17 characters of `get_stream_id`. */
  lemma GetMacPrefixOfStreamId(a: Announce)
    requires |a.streamId| >= 8
    ensures GetMac(a).Ok? && GetStreamId(a).Ok?
    ensures GetMac(a).value == GetStreamId(a).value[..17]
  {
    var id := a.streamId[..8];
    Hex.RenderPrefix(id, Hex.StreamIdSeps, 5);
    assert id[..6] == a.streamId[..6];
    assert Hex.StreamIdSeps[..5] == Hex.MacSeps;
  }

  /** The destination MAC whose hex text is 10-00-00-00-00-00 comes back
      from `get_dst_mac` as "16-0-0-0-0-0". */
  lemma DstMacIsDecimal()
    ensures Hex.HexByte(16) == "10"
    ensures GetDstMac(Blank.(dataFrameParameters := DFP.DataFrameParameters([16, 0, 0, 0, 0, 0], 0, 0)))
            == Ok("16-0-0-0-0-0")
  {
    var mac: Bytes := [16, 0, 0, 0, 0, 0];
    RenderDecimalExample();
    assert mac[..6] == mac;
  }

  lemma RenderDecimalExample()
    ensures Hex.RenderDecimal([16, 0, 0, 0, 0, 0]) == "16-0-0-0-0-0"
  {
    DecimalDigits();
    var m5: Bytes := [0];
    var m4 := [0] + m5;
    var m3 := [0] + m4;
    var m2 := [0] + m3;
    var m1 := [0] + m2;
    RenderDecimalCons(0, m5);
    RenderDecimalCons(0, m4);
    RenderDecimalCons(0, m3);
    RenderDecimalCons(0, m2);
    RenderDecimalCons(16, m1);
    assert [16] + m1 == [16, 0, 0, 0, 0, 0];
  }

  lemma RenderDecimalCons(b: Byte, bs: Bytes)
    requires |bs| >= 1
    ensures Hex.RenderDecimal([b] + bs) == Hex.Decimal(b) + "-" + Hex.RenderDecimal(bs)
  {
    assert ([b] + bs)[1..] == bs;
  }

  lemma DecimalDigits()
    ensures Hex.Decimal(16) == "16" && Hex.Decimal(0) == "0"
  {
    assert Hex.Decimal(1) == "1";
  }

  // ---------------------------------------------------------------------
  // serialize

  /** Stream id, rank (one byte) and accumulated latency (four bytes); a
      rank too wide for its byte, or a latency that is negative or too wide
      for its four bytes, makes `to_bytes` raise OverflowError. */
  function HeaderBytes(a: Announce): (r: Result<Bytes>)
    ensures r.Err? <==> !(0 <= a.streamRank < 256) || !(0 <= a.accumulatedMaximumLatency < 0x1_0000_0000)
    ensures r.Err? ==> r.error == OverflowError
    ensures r.Ok? ==> |r.value| == |a.streamId| + 5 && r.value[..|a.streamId|] == a.streamId
  {
    if !(0 <= a.streamRank < 256) || !(0 <= a.accumulatedMaximumLatency < 0x1_0000_0000) then Err(OverflowError)
    else
      Pow256Values();
      Ok(a.streamId + ToBigEndian(a.streamRank as nat, 1) + ToBigEndian(a.accumulatedMaximumLatency as nat, 4))
  }

  /** The MSRP tspec when there is one, else the token-bucket tspec when
      there is one, else nothing. */
  function TspecBytes(a: Announce): (r: Bytes)
    requires Valid(a)
    ensures a.msrpTspec.Some? ==> r == MS.Serialize(a.msrpTspec.value)
    ensures a.msrpTspec.None? && a.tokenBucketTspec.Some? ==> r == TB.Serialize(a.tokenBucketTspec.value)
    ensures a.msrpTspec.None? && a.tokenBucketTspec.None? ==> r == []
  {
    if a.msrpTspec.Some? then MS.Serialize(a.msrpTspec.value)
    else if a.tokenBucketTspec.Some? then TB.Serialize(a.tokenBucketTspec.value)
    else []
  }

  /** A present optional sub-TLV serialized, an absent one as nothing. */
  function RedundancyBytes(x: Option<RC.RedundancyControl>): (r: Result<Bytes>)
    ensures r.Ok? ==> (r.value == [] <==> x.None?) && (r.value != [] ==> r.value[0] == RC.TypeId)
  {
    if x.None? then Ok([]) else RC.Encoding(x.value)
  }

  function FailureBytes(x: Option<FI.FailureInformation>): (r: Result<Bytes>)
    ensures r.Ok? ==> (r.value == [] <==> x.None?) && (r.value != [] ==> r.value[0] == FI.TypeId)
  {
    if x.None? then Ok([]) else FI.Serialize(x.value)
  }

  function InterfaceBytes(x: Option<IC.InterfaceConfiguration>): (r: Result<Bytes>)
    ensures r.Ok? ==> (r.value == [] <==> x.None?) && (r.value != [] ==> r.value[0] == IC.TypeId)
  {
    if x.None? then Ok([]) else IC.Serialize(x.value)
  }

  function OrgBytes(x: Option<Org.OrgDefined>): (r: Result<Bytes>)
    ensures r.Ok? ==> (r.value == [] <==> x.None?) && (r.value != [] ==> r.value[0] == Org.TypeId)
  {
    if x.None? then Ok([]) else Org.Serialize(x.value)
  }

  /** The present optional sub-TLVs in the order redundancy control,
      failure information, interface configuration, organisation-defined;
      the first that fails to serialize decides the error. */
  function OptionalBytes(a: Announce): (r: Result<Bytes>)
    ensures r.Ok? <==> && RedundancyBytes(a.redundancyControl).Ok? && FailureBytes(a.failureInformation).Ok?
                       && InterfaceBytes(a.interfaceConfiguration).Ok? && OrgBytes(a.organizationallyDefined).Ok?
    ensures r.Ok? ==> r.value == RedundancyBytes(a.redundancyControl).value
                                 + FailureBytes(a.failureInformation).value
                                 + InterfaceBytes(a.interfaceConfiguration).value
                                 + OrgBytes(a.organizationallyDefined).value
  {
    match RedundancyBytes(a.redundancyControl)
    case Err(e) => Err(e)
    case Ok(rc) =>
      match FailureBytes(a.failureInformation)
      case Err(e) => Err(e)
      case Ok(fi) =>
        match InterfaceBytes(a.interfaceConfiguration)
        case Err(e) => Err(e)
        case Ok(ic) =>
          match OrgBytes(a.organizationallyDefined)
          case Err(e) => Err(e)
          case Ok(org) => Ok(rc + fi + ic + org)
  }

  /** The value before the optional sub-TLVs. */
  function FixedBytes(a: Announce): (r: Bytes)
    requires Valid(a) && HeaderBytes(a).Ok?
    ensures |r| == 18 + |a.dataFrameParameters.dstMac| + |TspecBytes(a)|
  {
    HeaderBytes(a).value + DFP.Serialize(a.dataFrameParameters) + TspecBytes(a)
  }

  /** What `serialize` returns: header fields, data-frame parameters, the
      tspec and the optional sub-TLVs under type 0x01, with the length of
      that value (ValueError when it needs more than 16 bits). */
  function Encoding(a: Announce): (r: Result<Bytes>)
    requires Valid(a)
    ensures !(0 <= a.streamRank < 256) || !(0 <= a.accumulatedMaximumLatency < 0x1_0000_0000) ==> r == Err(OverflowError)
    ensures r.Ok? ==> Tlv.WellFormed(r.value) && |r.value| >= 21 && r.value[0] == TypeId
                      && r.value[3..11] == a.streamId
  {
    match HeaderBytes(a)
    case Err(e) => Err(e)
    case Ok(_) =>
      match OptionalBytes(a)
      case Err(e) => Err(e)
      case Ok(optional) =>
        var value := FixedBytes(a) + optional;
        var r := Tlv.Encapsulate(TypeId, |value|, value);
        if r.Ok? then
          assert r.value[3..11] == value[..8] == HeaderBytes(a).value[..8];
          r
        else r
  }

  // ---------------------------------------------------------------------
  // deserialize

  /** Stream id [0:8], rank [8], latency [9:13] and a new data-frame
      parameters object from [13:24]; a value of at most 8 bytes makes the
      rank lookup raise IndexError. */
  function DecodeFixed(prior: Announce, value: Bytes): (r: Result<Announce>)
    ensures |value| < 9 ==> r == Err(IndexError)
    ensures r.Ok? ==> r.value.streamId == value[..8] && r.value.streamRank == value[8]
                      && 0 <= r.value.accumulatedMaximumLatency < 0x1_0000_0000
                      && DFP.Valid(r.value.dataFrameParameters)
    ensures r.Ok? ==> r.value.(streamId := prior.streamId, streamRank := prior.streamRank,
                                accumulatedMaximumLatency := prior.accumulatedMaximumLatency,
                                dataFrameParameters := prior.dataFrameParameters) == prior
  {
    if |value| < 9 then Err(IndexError)
    else
      match DFP.Deserialize(Slice(value, 13, 24))
      case Err(e) => Err(e)
      case Ok(d) =>
        Pow256Values();
        Ok(prior.(streamId := value[0..8], streamRank := value[8],
                  accumulatedMaximumLatency := FromBigEndian(Slice(value, 9, 13)),
                  dataFrameParameters := d))
  }

  /** The byte at 24 picks the tspec: 0x22 is a token bucket, but the call
      `deserialize(value[24:43], 43)` passes one argument too many and
      raises TypeError; 0x23 is an MSRP tspec read from [24:31]; anything
      else leaves both tspecs as they were. A value of at most 24 bytes
      raises IndexError. Returns the cursor after the tspec. */
  function DecodeTspec(a: Announce, value: Bytes): (r: Result<(Announce, nat)>)
    ensures |value| <= 24 ==> r == Err(IndexError)
    ensures |value| > 24 && value[24] == TB.TypeId ==> r == Err(TypeError)
    ensures r.Ok? ==> r.value.0.tokenBucketTspec == a.tokenBucketTspec
    ensures r.Ok? && value[24] == MS.TypeId ==> r.value.1 == 31 && r.value.0.msrpTspec.Some?
                                                && MS.Valid(r.value.0.msrpTspec.value)
                                                && r.value.0 == a.(msrpTspec := r.value.0.msrpTspec)
    ensures r.Ok? && value[24] != MS.TypeId ==> r.value == (a, 24)
  {
    if |value| <= 24 then Err(IndexError)
    else if value[24] == TB.TypeId then Err(TypeError)
    else if value[24] == MS.TypeId then
      match MS.Deserialize(Slice(value, 24, 31))
      case Err(e) => Err(e)
      case Ok(m) => Ok((a.(msrpTspec := Some(m)), 31))
    else Ok((a, 24))
  }

  /** The sub-TLV whose header is at `next`: its declared length plus 3
      bytes (fewer at the end of the value), and the cursor after it. A
      header cut short raises IndexError. */
  function SubTlvAt(value: Bytes, next: nat): (r: Result<(Bytes, nat)>)
    requires next < |value|
    ensures r.Err? <==> next + 2 >= |value|
    ensures r.Ok? ==> r.value.1 == next + Tlv.DeclaredLength(value[next..]) + 3
                      && r.value.0 == Slice(value, next, r.value.1)
  {
    if next + 2 >= |value| then Err(IndexError)
    else
      var end := next + value[next + 1] as int * 256 + value[next + 2] as int + 3;
      Ok((Slice(value, next, end), end))
  }

  /** An optional sub-TLV is read when the cursor is inside the value and
      points at its type. */
  predicate At(value: Bytes, next: nat, typeId: Byte) {
    next < |value| && value[next] == typeId
  }

  /** A redundancy control at the cursor. Its `deserialize` loop runs
      forever on a foreign sub-TLV, which shows as NoTermination. */
  function DecodeRedundancy(a: Announce, value: Bytes, next: nat): (r: Result<(Announce, nat)>)
    ensures !At(value, next, RC.TypeId) ==> r == Ok((a, next))
    ensures r.Ok? ==> r.value.0.(redundancyControl := a.redundancyControl) == a && r.value.1 >= next
  {
    if At(value, next, RC.TypeId) then
      match SubTlvAt(value, next)
      case Err(e) => Err(e)
      case Ok((sub, end)) =>
        match RC.Decoding(sub)
        case Err(e) => Err(e)
        case Ok(rc) => Ok((a.(redundancyControl := Some(rc)), end))
    else Ok((a, next))
  }

  /** Failure information at the cursor; the size it reports is not used. */
  function DecodeFailure(a: Announce, value: Bytes, next: nat): (r: Result<(Announce, nat)>)
    ensures !At(value, next, FI.TypeId) ==> r == Ok((a, next))
    ensures r.Ok? ==> r.value.0.(failureInformation := a.failureInformation) == a && r.value.1 >= next
  {
    if At(value, next, FI.TypeId) then
      match SubTlvAt(value, next)
      case Err(e) => Err(e)
      case Ok((sub, end)) =>
        match FI.Deserialize(sub)
        case Err(e) => Err(e)
        case Ok((f, _)) => Ok((a.(failureInformation := Some(f)), end))
    else Ok((a, next))
  }

  /** An interface configuration at the cursor. */
  function DecodeInterface(a: Announce, value: Bytes, next: nat): (r: Result<(Announce, nat)>)
    ensures !At(value, next, IC.TypeId) ==> r == Ok((a, next))
    ensures r.Ok? ==> r.value.0.(interfaceConfiguration := a.interfaceConfiguration) == a && r.value.1 >= next
  {
    if At(value, next, IC.TypeId) then
      match SubTlvAt(value, next)
      case Err(e) => Err(e)
      case Ok((sub, end)) =>
        match IC.Deserialize(sub)
        case Err(e) => Err(e)
        case Ok(ic) => Ok((a.(interfaceConfiguration := Some(ic)), end))
    else Ok((a, next))
  }

  /** An organisation-defined sub-TLV at the cursor. */
  function DecodeOrg(a: Announce, value: Bytes, next: nat): (r: Result<(Announce, nat)>)
    ensures !At(value, next, Org.TypeId) ==> r == Ok((a, next))
    ensures r.Ok? ==> r.value.0.(organizationallyDefined := a.organizationallyDefined) == a && r.value.1 >= next
  {
    if At(value, next, Org.TypeId) then
      match SubTlvAt(value, next)
      case Err(e) => Err(e)
      case Ok((sub, end)) =>
        match Org.Deserialize(sub)
        case Err(e) => Err(e)
        case Ok(o) => Ok((a.(organizationallyDefined := Some(o)), end))
    else Ok((a, next))
  }

  /** The optional sub-TLVs from the cursor on, each looked for once, in
      the order 0x24, 0x26, 0xFF, 0x27. */
  function DecodeOptional(a: Announce, value: Bytes, next: nat): (r: Result<Announce>)
    ensures r.Ok? ==> r.value.(redundancyControl := a.redundancyControl, failureInformation := a.failureInformation,
                               interfaceConfiguration := a.interfaceConfiguration,
                               organizationallyDefined := a.organizationallyDefined) == a
  {
    match DecodeRedundancy(a, value, next)
    case Err(e) => Err(e)
    case Ok((a3, n3)) => DecodeAfterRedundancy(a3, value, n3)
  }

  /** The failure information, interface configuration and
      organisation-defined sub-TLVs from the cursor on. */
  function DecodeAfterRedundancy(a: Announce, value: Bytes, next: nat): (r: Result<Announce>)
    ensures r.Ok? ==> r.value.(failureInformation := a.failureInformation,
                               interfaceConfiguration := a.interfaceConfiguration,
                               organizationallyDefined := a.organizationallyDefined) == a
  {
    match DecodeFailure(a, value, next)
    case Err(e) => Err(e)
    case Ok((a4, n4)) => DecodeTail(a4, value, n4)
  }

  /** The interface configuration and organisation-defined sub-TLVs from
      the cursor on. */
  function DecodeTail(a: Announce, value: Bytes, next: nat): (r: Result<Announce>)
    ensures r.Ok? ==> r.value.(interfaceConfiguration := a.interfaceConfiguration,
                               organizationallyDefined := a.organizationallyDefined) == a
  {
    match DecodeInterface(a, value, next)
    case Err(e) => Err(e)
    case Ok((a5, n5)) =>
      match DecodeOrg(a5, value, n5)
      case Err(e) => Err(e)
      case Ok((a6, _)) => Ok(a6)
  }

  /** What `deserialize(tlv)` leaves in an object that held `prior`: the
      fixed fields are replaced, the tspec and each optional sub-TLV only
      when found. */
  function Decoding(prior: Announce, tlv: Bytes): (r: Result<Announce>)
    ensures |tlv| < 3 ==> r == Err(IndexError)
    ensures Tlv.Extract(tlv).Ok? ==>
              var value := Tlv.Extract(tlv).value.0;
              && (|value| < 9 ==> r == Err(IndexError))
              && (r.Ok? ==> |value| > 24 && value[24] != TB.TypeId
                            && r.value.streamId == value[..8] && r.value.streamRank == value[8]
                            && r.value.tokenBucketTspec == prior.tokenBucketTspec)
    ensures r.Ok? ==> 0 <= r.value.streamRank < 256 && 0 <= r.value.accumulatedMaximumLatency < 0x1_0000_0000
    ensures r.Ok? && Valid(prior) ==> Valid(r.value)
  {
    match Tlv.Extract(tlv)
    case Err(e) => Err(e)
    case Ok((value, _)) =>
      match DecodeFixed(prior, value)
      case Err(e) => Err(e)
      case Ok(a1) =>
        match DecodeTspec(a1, value)
        case Err(e) => Err(e)
        case Ok((a2, n2)) => DecodeOptional(a2, value, n2)
  }

  // ---------------------------------------------------------------------
  // properties of serialize and deserialize

  /** A well-formed sub-TLV at the cursor is read whole and the cursor moves
      past it. */
  lemma SubTlvFrame(pre: Bytes, sub: Bytes, post: Bytes)
    requires Tlv.WellFormed(sub)
    ensures |pre| < |pre + (sub + post)| && (pre + (sub + post))[|pre|] == sub[0]
    ensures SubTlvAt(pre + (sub + post), |pre|) == Ok((sub, |pre| + |sub|))
  {
    var v := pre + (sub + post);
    assert v[|pre|..][..3] == sub[..3];
    assert v[|pre|..|pre| + |sub|] == sub;
  }

  /** Where the fixed fields sit in a serialized value. */
  lemma FixedStage(prior: Announce, a: Announce, optional: Bytes)
    requires Valid(a) && HeaderBytes(a).Ok? && |a.dataFrameParameters.dstMac| == 6
    ensures DecodeFixed(prior, FixedBytes(a) + optional)
            == Ok(prior.(streamId := a.streamId, streamRank := a.streamRank,
                         accumulatedMaximumLatency := a.accumulatedMaximumLatency,
                         dataFrameParameters := a.dataFrameParameters))
  {
    Pow256Values();
    var rank := ToBigEndian(a.streamRank as nat, 1);
    var latency := ToBigEndian(a.accumulatedMaximumLatency as nat, 4);
    var d := DFP.Serialize(a.dataFrameParameters);
    var value := FixedBytes(a) + optional;
    assert value == a.streamId + rank + latency + d + (TspecBytes(a) + optional);
    assert value[..8] == a.streamId && value[8] == rank[0];
    assert Slice(value, 9, 13) == latency;
    assert Slice(value, 13, 24) == d;
    assert rank == ToBigEndian(a.streamRank as nat / 256, 0) + [a.streamRank % 256];
    FromToBigEndian(a.accumulatedMaximumLatency as nat, 4);
    DFP.RoundTrip(a.dataFrameParameters);
  }

  /** The optional parts of an announce that can be carried and read back. */
  predicate OptionalPartsValid(a: Announce) {
    && RedundancyPartValid(a.redundancyControl) && FailurePartValid(a.failureInformation)
    && InterfacePartValid(a.interfaceConfiguration) && OrgPartValid(a.organizationallyDefined)
  }

  /** A redundancy control that reads back: R-TAG on, every VLAN context
      valid and a value length that fits 16 bits. */
  predicate RedundancyPartValid(x: Option<RC.RedundancyControl>) {
    x.None? || (x.value.rTagStatus && RC.AllValid(x.value.vlanContexts) && 17 * |x.value.vlanContexts| + 1 < 0x1_0000)
  }

  predicate FailurePartValid(x: Option<FI.FailureInformation>) {
    x.None? || FI.Valid(x.value)
  }

  predicate InterfacePartValid(x: Option<IC.InterfaceConfiguration>) {
    x.None? || IC.Valid(x.value)
  }

  predicate OrgPartValid(x: Option<Org.OrgDefined>) {
    x.None? || Org.Valid(x.value)
  }

  lemma RedundancyStage(b: Announce, pre: Bytes, x: Option<RC.RedundancyControl>, post: Bytes)
    requires b.redundancyControl.None? && RedundancyBytes(x).Ok?
    requires RedundancyPartValid(x)
    requires post == [] || post[0] != RC.TypeId
    ensures DecodeRedundancy(b, pre + (RedundancyBytes(x).value + post), |pre|)
            == Ok((b.(redundancyControl := x), |pre| + |RedundancyBytes(x).value|))
  {
    var part := RedundancyBytes(x).value;
    if x.Some? {
      RC.RoundTrip(x.value);
      SubTlvFrame(pre, part, post);
    } else {
      assert pre + (part + post) == pre + post;
    }
  }

  lemma FailureStage(b: Announce, pre: Bytes, x: Option<FI.FailureInformation>, post: Bytes)
    requires b.failureInformation.None? && FailurePartValid(x)
    requires post == [] || post[0] != FI.TypeId
    ensures FailureBytes(x).Ok?
    ensures DecodeFailure(b, pre + (FailureBytes(x).value + post), |pre|)
            == Ok((b.(failureInformation := x), |pre| + |FailureBytes(x).value|))
  {
    if x.Some? {
      FI.RoundTrip(x.value, []);
      var part := FailureBytes(x).value;
      assert part + [] == part;
      SubTlvFrame(pre, part, post);
    } else {
      assert pre + ([] + post) == pre + post;
    }
  }

  lemma InterfaceStage(b: Announce, pre: Bytes, x: Option<IC.InterfaceConfiguration>, post: Bytes)
    requires b.interfaceConfiguration.None? && InterfacePartValid(x)
    requires post == [] || post[0] != IC.TypeId
    ensures InterfaceBytes(x).Ok?
    ensures DecodeInterface(b, pre + (InterfaceBytes(x).value + post), |pre|)
            == Ok((b.(interfaceConfiguration := x), |pre| + |InterfaceBytes(x).value|))
  {
    if x.Some? {
      IC.RoundTrip(x.value);
      SubTlvFrame(pre, InterfaceBytes(x).value, post);
    } else {
      assert pre + ([] + post) == pre + post;
    }
  }

  lemma OrgStage(b: Announce, pre: Bytes, x: Option<Org.OrgDefined>)
    requires b.organizationallyDefined.None? && OrgPartValid(x)
    ensures OrgBytes(x).Ok?
    ensures DecodeOrg(b, pre + OrgBytes(x).value, |pre|)
            == Ok((b.(organizationallyDefined := x), |pre| + |OrgBytes(x).value|))
  {
    if x.Some? {
      Org.RoundTrip(x.value);
      var part := OrgBytes(x).value;
      assert pre + part == pre + (part + []);
      SubTlvFrame(pre, part, []);
    }
  }

  /** The last two optional parts read back from the cursor `|pre|`. */
  lemma TailStages(b: Announce, pre: Bytes, x: Option<IC.InterfaceConfiguration>, y: Option<Org.OrgDefined>)
    requires b.interfaceConfiguration.None? && b.organizationallyDefined.None?
    requires InterfacePartValid(x) && OrgPartValid(y)
    ensures InterfaceBytes(x).Ok? && OrgBytes(y).Ok?
    ensures DecodeTail(b, pre + (InterfaceBytes(x).value + OrgBytes(y).value), |pre|)
            == Ok(b.(interfaceConfiguration := x, organizationallyDefined := y))
  {
    PartsOk(None, x, y);
    var i, o := InterfaceBytes(x).value, OrgBytes(y).value;
    var b5 := b.(interfaceConfiguration := x);
    assert DecodeInterface(b, pre + (i + o), |pre|) == Ok((b5, |pre + i|)) by {
      InterfaceStage(b, pre, x, o);
    }
    assert DecodeOrg(b5, pre + i + o, |pre + i|) == Ok((b5.(organizationallyDefined := y), |pre + i + o|)) by {
      OrgStage(b5, pre + i, y);
    }
    ConcatAssoc(pre, i, o);
  }

  /** The last three optional parts read back from the cursor `|pre|`. */
  lemma AfterRedundancyStages(b: Announce, pre: Bytes, x: Option<FI.FailureInformation>,
                              y: Option<IC.InterfaceConfiguration>, z: Option<Org.OrgDefined>)
    requires b.failureInformation.None? && b.interfaceConfiguration.None? && b.organizationallyDefined.None?
    requires FailurePartValid(x) && InterfacePartValid(y) && OrgPartValid(z)
    ensures FailureBytes(x).Ok? && InterfaceBytes(y).Ok? && OrgBytes(z).Ok?
    ensures DecodeAfterRedundancy(b, pre + (FailureBytes(x).value + (InterfaceBytes(y).value + OrgBytes(z).value)), |pre|)
            == Ok(b.(failureInformation := x, interfaceConfiguration := y, organizationallyDefined := z))
  {
    PartsOk(x, y, z);
    var f, post := FailureBytes(x).value, InterfaceBytes(y).value + OrgBytes(z).value;
    var b4 := b.(failureInformation := x);
    assert DecodeFailure(b, pre + (f + post), |pre|) == Ok((b4, |pre + f|)) by {
      Lead(InterfaceBytes(y).value, OrgBytes(z).value, FI.TypeId);
      FailureStage(b, pre, x, post);
    }
    assert DecodeTail(b4, pre + f + post, |pre + f|)
           == Ok(b4.(interfaceConfiguration := y, organizationallyDefined := z)) by {
      TailStages(b4, pre + f, y, z);
    }
    ConcatAssoc(pre, f, post);
  }

  /** Valid optional parts serialize. */
  lemma PartsOk(x: Option<FI.FailureInformation>, y: Option<IC.InterfaceConfiguration>, z: Option<Org.OrgDefined>)
    requires FailurePartValid(x) && InterfacePartValid(y) && OrgPartValid(z)
    ensures FailureBytes(x).Ok? && InterfaceBytes(y).Ok? && OrgBytes(z).Ok?
  {
  }

  /** Two parts whose first bytes differ from `t` start, together, with a
      byte other than `t`. */
  lemma Lead(p: Bytes, q: Bytes, t: Byte)
    requires p == [] || p[0] != t
    requires q == [] || q[0] != t
    ensures p + q == [] || (p + q)[0] != t
  {
    if p != [] { assert (p + q)[0] == p[0]; }
  }

  /** All four optional parts read back from the cursor `|pre|`. */
  lemma AllStages(b: Announce, pre: Bytes, w: Option<RC.RedundancyControl>, x: Option<FI.FailureInformation>,
                  y: Option<IC.InterfaceConfiguration>, z: Option<Org.OrgDefined>)
    requires b.redundancyControl.None? && b.failureInformation.None?
    requires b.interfaceConfiguration.None? && b.organizationallyDefined.None?
    requires RedundancyBytes(w).Ok?
    requires RedundancyPartValid(w)
    requires FailurePartValid(x) && InterfacePartValid(y) && OrgPartValid(z)
    ensures FailureBytes(x).Ok? && InterfaceBytes(y).Ok? && OrgBytes(z).Ok?
    ensures DecodeOptional(b, pre + (RedundancyBytes(w).value
                                     + (FailureBytes(x).value + (InterfaceBytes(y).value + OrgBytes(z).value))), |pre|)
            == Ok(b.(redundancyControl := w, failureInformation := x, interfaceConfiguration := y,
                     organizationallyDefined := z))
  {
    PartsOk(x, y, z);
    var r := RedundancyBytes(w).value;
    var f, i, o := FailureBytes(x).value, InterfaceBytes(y).value, OrgBytes(z).value;
    var post := f + (i + o);
    var b3 := b.(redundancyControl := w);
    Lead(i, o, RC.TypeId);
    Lead(f, i + o, RC.TypeId);
    RedundancyStage(b, pre, w, post);
    ConcatAssoc(pre, r, post);
    AfterRedundancyStages(b3, pre + r, x, y, z);
    assert b3.(failureInformation := x, interfaceConfiguration := y, organizationallyDefined := z)
           == b.(redundancyControl := w, failureInformation := x, interfaceConfiguration := y,
                 organizationallyDefined := z);
  }

  /** Reading the optional parts back, from the cursor `|pre|`, into an
      announce that has none of them. */
  lemma OptionalStages(b: Announce, pre: Bytes, a: Announce)
    requires b.redundancyControl.None? && b.failureInformation.None?
    requires b.interfaceConfiguration.None? && b.organizationallyDefined.None?
    requires OptionalBytes(a).Ok? && OptionalPartsValid(a)
    ensures DecodeOptional(b, pre + OptionalBytes(a).value, |pre|)
            == Ok(b.(redundancyControl := a.redundancyControl, failureInformation := a.failureInformation,
                     interfaceConfiguration := a.interfaceConfiguration,
                     organizationallyDefined := a.organizationallyDefined))
  {
    AllStages(b, pre, a.redundancyControl, a.failureInformation, a.interfaceConfiguration,
              a.organizationallyDefined);
    Assoc4(RedundancyBytes(a.redundancyControl).value, FailureBytes(a.failureInformation).value,
           InterfaceBytes(a.interfaceConfiguration).value, OrgBytes(a.organizationallyDefined).value);
  }

  lemma Assoc4(p: Bytes, q: Bytes, r: Bytes, s: Bytes)
    ensures p + q + r + s == p + (q + (r + s))
  {
    ConcatAssoc(p, q, r);
    ConcatAssoc(p, q + r, s);
    ConcatAssoc(q, r, s);
  }

  /** The optional parts start with none of the tspec types, and there are
      none exactly when every optional field is empty. */
  lemma OptionalLead(a: Announce)
    requires OptionalBytes(a).Ok?
    ensures var opt := OptionalBytes(a).value;
            && (opt == [] || (opt[0] != TB.TypeId && opt[0] != MS.TypeId))
            && (opt == [] <==> && a.redundancyControl.None? && a.failureInformation.None?
                                && a.interfaceConfiguration.None? && a.organizationallyDefined.None?)
  {
    var r, f := RedundancyBytes(a.redundancyControl).value, FailureBytes(a.failureInformation).value;
    var i, o := InterfaceBytes(a.interfaceConfiguration).value, OrgBytes(a.organizationallyDefined).value;
    Assoc4(r, f, i, o);
    Lead(i, o, TB.TypeId);
    Lead(f, i + o, TB.TypeId);
    Lead(r, f + (i + o), TB.TypeId);
    Lead(i, o, MS.TypeId);
    Lead(f, i + o, MS.TypeId);
    Lead(r, f + (i + o), MS.TypeId);
  }

  /** Where the tspec sits in a serialized value: an MSRP tspec is read
      back and the cursor moves to 31; without a tspec the cursor stays at
      24, provided an optional part follows there. */
  lemma TspecStage(a1: Announce, a: Announce, opt: Bytes)
    requires Valid(a) && HeaderBytes(a).Ok? && |a.dataFrameParameters.dstMac| == 6 && a1.msrpTspec.None?
    requires a.msrpTspec.None? ==> a.tokenBucketTspec.None? && opt != []
                                   && opt[0] != TB.TypeId && opt[0] != MS.TypeId
    ensures DecodeTspec(a1, FixedBytes(a) + opt) == Ok((a1.(msrpTspec := a.msrpTspec), |FixedBytes(a)|))
  {
    var pre := HeaderBytes(a).value + DFP.Serialize(a.dataFrameParameters);
    var ts := TspecBytes(a);
    var value := FixedBytes(a) + opt;
    assert |pre| == 24;
    ConcatAssoc(pre, ts, opt);
    Middle(pre, ts, opt);
    if a.msrpTspec.Some? {
      MS.RoundTrip(a.msrpTspec.value);
    }
  }

  /** A serialized announce read back into an object that has no optional
      part and no MSRP tspec (a fresh `TAA()`, say) gives the announce
      again, when its MAC has six bytes, its optional parts can be read
      back, and the byte at offset 24 exists and is not a token-bucket
      tspec. */
  lemma RoundTrip(prior: Announce, a: Announce)
    requires Valid(a) && Encoding(a).Ok? && |a.dataFrameParameters.dstMac| == 6 && OptionalPartsValid(a)
    requires prior.msrpTspec.None? && prior.tokenBucketTspec == a.tokenBucketTspec
    requires prior.redundancyControl.None? && prior.failureInformation.None?
    requires prior.interfaceConfiguration.None? && prior.organizationallyDefined.None?
    requires a.msrpTspec.None? ==> && a.tokenBucketTspec.None?
                                   && (|| a.redundancyControl.Some? || a.failureInformation.Some?
                                       || a.interfaceConfiguration.Some? || a.organizationallyDefined.Some?)
    ensures Decoding(prior, Encoding(a).value) == Ok(a)
  {
    var opt := OptionalBytes(a).value;
    var fixed := FixedBytes(a);
    var value := fixed + opt;
    Frame(a);
    var a1 := prior.(streamId := a.streamId, streamRank := a.streamRank,
                     accumulatedMaximumLatency := a.accumulatedMaximumLatency,
                     dataFrameParameters := a.dataFrameParameters);
    assert DecodeFixed(prior, value) == Ok(a1) by {
      FixedStage(prior, a, opt);
    }
    var a2 := a1.(msrpTspec := a.msrpTspec);
    assert DecodeTspec(a1, value) == Ok((a2, |fixed|)) by {
      OptionalLead(a);
      TspecStage(a1, a, opt);
    }
    assert DecodeOptional(a2, value, |fixed|) == Ok(a) by {
      OptionalStages(a2, fixed, a);
    }
  }

  /** A token-bucket tspec is written but cannot be read back: the
      deserializer's call passes an extra argument (TypeError). */
  lemma TokenBucketRejected(prior: Announce, a: Announce)
    requires Valid(a) && Encoding(a).Ok? && |a.dataFrameParameters.dstMac| == 6
    requires a.msrpTspec.None? && a.tokenBucketTspec.Some?
    ensures Decoding(prior, Encoding(a).value) == Err(TypeError)
  {
    var opt := OptionalBytes(a).value;
    Frame(a);
    FixedStage(prior, a, opt);
    TokenBucketAt(a, opt);
  }

  /** The serialized value is framed once, with nothing after it. */
  lemma Frame(a: Announce)
    requires Valid(a) && Encoding(a).Ok?
    ensures HeaderBytes(a).Ok? && OptionalBytes(a).Ok?
    ensures Tlv.Extract(Encoding(a).value) == Ok((FixedBytes(a) + OptionalBytes(a).value, []))
  {
    var value := FixedBytes(a) + OptionalBytes(a).value;
    var tlv := Encoding(a).value;
    Tlv.ExtractEncapsulate(TypeId, value, []);
    assert tlv + [] == tlv;
  }

  /** Without an MSRP tspec, a token-bucket tspec starts at offset 24. */
  lemma TokenBucketAt(a: Announce, opt: Bytes)
    requires Valid(a) && HeaderBytes(a).Ok? && |a.dataFrameParameters.dstMac| == 6
    requires a.msrpTspec.None? && a.tokenBucketTspec.Some?
    ensures |FixedBytes(a) + opt| > 24 && (FixedBytes(a) + opt)[24] == TB.TypeId
  {
    var fixed := FixedBytes(a);
    var pre := HeaderBytes(a).value + DFP.Serialize(a.dataFrameParameters);
    var tb := TspecBytes(a);
    assert |pre| == 24 && fixed == pre + tb;
    assert tb[0] == tb[..3][0] == TB.TypeId;
    assert fixed[24] == tb[0];
    assert (fixed + opt)[24] == fixed[24];
  }

  /** An announce with neither tspec nor optional part serializes to a
      24-byte value, and reading the tspec type at offset 24 raises
      IndexError. */
  lemma BareAnnounceRejected(prior: Announce, a: Announce)
    requires Valid(a) && Encoding(a).Ok? && |a.dataFrameParameters.dstMac| == 6
    requires a.msrpTspec.None? && a.tokenBucketTspec.None?
    requires a.redundancyControl.None? && a.failureInformation.None?
    requires a.interfaceConfiguration.None? && a.organizationallyDefined.None?
    ensures Decoding(prior, Encoding(a).value) == Err(IndexError)
  {
    var value := FixedBytes(a) + OptionalBytes(a).value;
    Frame(a);
    FixedStage(prior, a, OptionalBytes(a).value);
    assert |value| == 24;
  }

  /** The optional sub-TLVs are looked for in one fixed order: a redundancy
      control that follows a failure information is not read, and the
      object keeps the redundancy control it had. */
  lemma OutOfOrderIgnored(b: Announce, pre: Bytes, f: FI.FailureInformation, x: RC.RedundancyControl)
    requires b.failureInformation.None? && FI.Valid(f) && RedundancyBytes(Some(x)).Ok?
    ensures FailureBytes(Some(f)).Ok?
    ensures DecodeOptional(b, pre + (FailureBytes(Some(f)).value + RedundancyBytes(Some(x)).value), |pre|)
            == Ok(b.(failureInformation := Some(f)))
  {
    var fb, rb := FailureBytes(Some(f)).value, RedundancyBytes(Some(x)).value;
    var value := pre + (fb + rb);
    assert value[|pre|] == fb[0];
    assert DecodeFailure(b, value, |pre|) == Ok((b.(failureInformation := Some(f)), |pre| + |fb|)) by {
      FailureStage(b, pre, Some(f), rb);
    }
    assert value[|pre| + |fb|] == rb[0];
  }
}
