/** The TAA object: the fields of a talker announce attribute held in place,
    serialized by successive concatenation and overwritten by `deserialize`
    as its cursor walks the value. */
module TalkerAnnounceAttribute {
  import opened Wrappers
  import opened Bytes
  import opened FailureCodes
  import opened Taa
  import Tlv
  import DFP = DataFrameParametersTlv
  import MS = MsrpTspecTlv
  import TB = TokenBucketTspecTlv
  import RC = RedundancyControlTlv
  import VC = VlanContextTlv
  import FI = FailureInformationTlv
  import IC = InterfaceConfigurationTlv
  import Org = OrgDefinedTaaTlv

  /** What a read step of `deserialize` leaves: the object and the cursor,
      or the exception it raised. */
  function Stepped(err: Option<Exception>, a: Announce, next: nat): Result<(Announce, nat)> {
    if err.None? then Ok((a, next)) else Err(err.value)
  }

  /** What `deserialize` leaves: the object, or the exception it raised. */
  function Outcome(err: Option<Exception>, a: Announce): Result<Announce> {
    if err.None? then Ok(a) else Err(err.value)
  }

  class TalkerAnnounce {
    var streamId: Bytes
    var streamRank: int
    var accumulatedMaximumLatency: int
    var dataFrameParameters: DFP.DataFrameParameters
    var tokenBucketTspec: Option<TB.TokenBucketTspec>
    var msrpTspec: Option<MS.MsrpTspec>
    var redundancyControl: Option<RC.RedundancyControl>
    var failureInformation: Option<FI.FailureInformation>
    var interfaceConfiguration: Option<IC.InterfaceConfiguration>
    var organizationallyDefined: Option<Org.OrgDefined>

    /** The fields as one announce value. */
    function Value(): Announce
      reads this
    {
      Announce(streamId, streamRank, accumulatedMaximumLatency, dataFrameParameters, tokenBucketTspec,
               msrpTspec, redundancyControl, failureInformation, interfaceConfiguration,
               organizationallyDefined)
    }

    /** An object holding the given fields. */
    constructor (a: Announce)
      ensures Value() == a
    {
      streamId := a.streamId;
      streamRank := a.streamRank;
      accumulatedMaximumLatency := a.accumulatedMaximumLatency;
      dataFrameParameters := a.dataFrameParameters;
      tokenBucketTspec := a.tokenBucketTspec;
      msrpTspec := a.msrpTspec;
      redundancyControl := a.redundancyControl;
      failureInformation := a.failureInformation;
      interfaceConfiguration := a.interfaceConfiguration;
      organizationallyDefined := a.organizationallyDefined;
    }

    /** `TAA(...)`: the stream id text and the data-frame parameters are
        checked before an object exists, so a rejected text gives no
        object. */
    static method Create(streamIdText: string, streamRank: int, dstMacText: string, vlanId: nat, priority: nat,
                         msrp: Option<MS.MsrpTspec>, tokenBucket: Option<TB.TokenBucketTspec>,
                         org: Option<Org.OrgDefined>) returns (r: Result<TalkerAnnounce>)
      ensures var n := New(streamIdText, streamRank, dstMacText, vlanId, priority, msrp, tokenBucket, org);
              && (r.Ok? <==> n.Ok?)
              && (r.Ok? ==> fresh(r.value) && r.value.Value() == n.value)
              && (r.Err? ==> r.error == n.error)
    {
      var id := StreamIdFromText(streamIdText);
      if id.Err? {
        return Err(id.error);
      }
      var d := DFP.New(dstMacText, vlanId, priority);
      if d.Err? {
        return Err(d.error);
      }
      var t := new TalkerAnnounce(Announce(id.value, streamRank, 0, d.value, tokenBucket, msrp,
                                           None, None, None, org));
      return Ok(t);
    }

    /** `serialize`: the header fields, the data-frame parameters, the
        tspec and each present optional sub-TLV are appended to `value` in
        turn, and the whole is framed under type 0x01. */
    method Serialize() returns (r: Result<Bytes>)
      requires Taa.Valid(Value())
      ensures r == Encoding(Value())
    {
      if !(0 <= streamRank < 256) || !(0 <= accumulatedMaximumLatency < 0x1_0000_0000) {
        return Err(OverflowError);
      }
      Pow256Values();
      var value := streamId + ToBigEndian(streamRank as nat, 1) + ToBigEndian(accumulatedMaximumLatency as nat, 4);
      var dataFrameSpec := DFP.Serialize(dataFrameParameters);
      value := value + dataFrameSpec;
      if msrpTspec.Some? {
        value := value + MS.Serialize(msrpTspec.value);
      } else if tokenBucketTspec.Some? {
        value := value + TB.Serialize(tokenBucketTspec.value);
      }
      ghost var fixed := value;
      assert fixed == FixedBytes(Value());
      var rc := RedundancyPart();
      if rc.Err? {
        return Err(rc.error);
      }
      value := value + rc.value;
      var fi := FailurePart();
      if fi.Err? {
        return Err(fi.error);
      }
      value := value + fi.value;
      var ic := InterfacePart();
      if ic.Err? {
        return Err(ic.error);
      }
      value := value + ic.value;
      var org := OrgPart();
      if org.Err? {
        return Err(org.error);
      }
      value := value + org.value;
      assert value == fixed + OptionalBytes(Value()).value by {
        Assoc5(fixed, rc.value, fi.value, ic.value, org.value);
      }
      r := Tlv.Encapsulate(TypeId, |value|, value);
    }

    /** The serialized redundancyControl sub-TLV when present, else nothing. */
    method RedundancyPart() returns (r: Result<Bytes>)
      ensures r == RedundancyBytes(redundancyControl)
    {
      if redundancyControl.Some? {
        r := RC.Serialize(redundancyControl.value);
      } else {
        r := Ok([]);
      }
    }

    /** The serialized failureInformation sub-TLV when present, else nothing. */
    method FailurePart() returns (r: Result<Bytes>)
      ensures r == FailureBytes(failureInformation)
    {
      if failureInformation.Some? {
        r := FI.Serialize(failureInformation.value);
      } else {
        r := Ok([]);
      }
    }

    /** The serialized interfaceConfiguration sub-TLV when present, else nothing. */
    method InterfacePart() returns (r: Result<Bytes>)
      ensures r == InterfaceBytes(interfaceConfiguration)
    {
      if interfaceConfiguration.Some? {
        r := IC.Serialize(interfaceConfiguration.value);
      } else {
        r := Ok([]);
      }
    }

    /** The serialized organizationallyDefined sub-TLV when present, else nothing. */
    method OrgPart() returns (r: Result<Bytes>)
      ensures r == OrgBytes(organizationallyDefined)
    {
      if organizationallyDefined.Some? {
        r := Org.Serialize(organizationallyDefined.value);
      } else {
        r := Ok([]);
      }
    }

    /** `deserialize(tlv)`: the fixed fields are overwritten, then the
        tspec and the optional sub-TLVs found at the cursor. On an
        exception the object may be left part-way, so only the exception
        is stated then. */
    method Deserialize(tlv: Bytes) returns (err: Option<Exception>)
      modifies this
      requires Decoding(Value(), tlv) != Err(NoTermination)
      ensures Outcome(err, Value()) == Decoding(old(Value()), tlv)
    {
      var extracted := Tlv.Extract(tlv);
      if extracted.Err? {
        return Some(extracted.error);
      }
      var value := extracted.value.0;
      err := ReadFixed(value);
      if err.Some? {
        return;
      }
      var next;
      err, next := ReadTspec(value);
      if err.Some? {
        return;
      }
      err := ReadOptional(value, next);
    }

    /** The fixed fields of `deserialize`: the stream id, the rank, the
        latency and the data-frame parameters, read in that order. */
    method ReadFixed(value: Bytes) returns (err: Option<Exception>)
      modifies this
      ensures Outcome(err, Value()) == DecodeFixed(old(Value()), value)
    {
      ghost var prior := Value();
      streamId := Slice(value, 0, 8);
      if |value| < 9 {
        return Some(IndexError);
      }
      streamRank := value[8];
      Pow256Values();
      accumulatedMaximumLatency := FromBigEndian(Slice(value, 9, 13));
      var dataFrame := DFP.Deserialize(Slice(value, 13, 24));
      if dataFrame.Err? {
        return Some(dataFrame.error);
      }
      dataFrameParameters := dataFrame.value;
      assert Value() == DecodeFixed(prior, value).value;
      err := None;
    }

    /** The tspec branch of `deserialize`: the byte at 24 selects it, and
        the cursor ends after it. */
    method ReadTspec(value: Bytes) returns (err: Option<Exception>, next: nat)
      modifies this
      ensures Stepped(err, Value(), next) == DecodeTspec(old(Value()), value)
    {
      next := 24;
      if |value| <= 24 {
        return Some(IndexError), next;
      }
      if value[24] == TB.TypeId {
        // The call passes the end index as an extra argument.
        return Some(TypeError), next;
      } else if value[24] == MS.TypeId {
        next := 31;
        var m := MS.Deserialize(Slice(value, 24, next));
        if m.Err? {
          return Some(m.error), next;
        }
        msrpTspec := Some(m.value);
      }
      return None, next;
    }

    /** The four optional sub-TLV branches of `deserialize`, in their
        fixed order. */
    method ReadOptional(value: Bytes, start: nat) returns (err: Option<Exception>)
      modifies this
      requires DecodeOptional(Value(), value, start) != Err(NoTermination)
      ensures Outcome(err, Value()) == DecodeOptional(old(Value()), value, start)
    {
      var next;
      err, next := ReadRedundancy(value, start);
      if err.Some? {
        return;
      }
      err, next := ReadFailure(value, next);
      if err.Some? {
        return;
      }
      err, next := ReadInterface(value, next);
      if err.Some? {
        return;
      }
      err, next := ReadOrg(value, next);
    }

    /** The branch taken when the cursor is inside the value and points
        at a redundancy control: the sub-TLV spans its declared length plus 3
        bytes, and the cursor moves past it. */
    method ReadRedundancy(value: Bytes, start: nat) returns (err: Option<Exception>, next: nat)
      modifies this
      requires DecodeRedundancy(Value(), value, start) != Err(NoTermination)
      ensures Stepped(err, Value(), next) == DecodeRedundancy(old(Value()), value, start)
    {
      ghost var before := Value();
      next := start;
      if next < |value| && value[next] == RC.TypeId {
        if next + 2 >= |value| {
          return Some(IndexError), next;
        }
        var offset := value[next + 1] as int * 256 + value[next + 2] as int + 3;
        var end := next + offset;
        assert SubTlvAt(value, next) == Ok((Slice(value, next, end), end));
        var rc := RC.Deserialize(Slice(value, next, end));
        if rc.Err? {
          return Some(rc.error), next;
        }
        redundancyControl := Some(rc.value);
        assert Value() == before.(redundancyControl := Some(rc.value));
        next := end;
      }
      return None, next;
    }

    /** The branch taken when the cursor is inside the value and points
        at failure information: the sub-TLV spans its declared length plus 3
        bytes, and the cursor moves past it. */
    method ReadFailure(value: Bytes, start: nat) returns (err: Option<Exception>, next: nat)
      modifies this
      ensures Stepped(err, Value(), next) == DecodeFailure(old(Value()), value, start)
    {
      ghost var before := Value();
      next := start;
      if next < |value| && value[next] == FI.TypeId {
        if next + 2 >= |value| {
          return Some(IndexError), next;
        }
        var offset := value[next + 1] as int * 256 + value[next + 2] as int + 3;
        var end := next + offset;
        assert SubTlvAt(value, next) == Ok((Slice(value, next, end), end));
        var fi := FI.Deserialize(Slice(value, next, end));
        if fi.Err? {
          return Some(fi.error), next;
        }
        failureInformation := Some(fi.value.0);
        assert Value() == before.(failureInformation := Some(fi.value.0));
        next := end;
      }
      return None, next;
    }

    /** The branch taken when the cursor is inside the value and points
        at an interface configuration: the sub-TLV spans its declared length plus 3
        bytes, and the cursor moves past it. */
    method ReadInterface(value: Bytes, start: nat) returns (err: Option<Exception>, next: nat)
      modifies this
      ensures Stepped(err, Value(), next) == DecodeInterface(old(Value()), value, start)
    {
      ghost var before := Value();
      next := start;
      if next < |value| && value[next] == IC.TypeId {
        if next + 2 >= |value| {
          return Some(IndexError), next;
        }
        var offset := value[next + 1] as int * 256 + value[next + 2] as int + 3;
        var end := next + offset;
        assert SubTlvAt(value, next) == Ok((Slice(value, next, end), end));
        var ic := IC.Deserialize(Slice(value, next, end));
        if ic.Err? {
          return Some(ic.error), next;
        }
        interfaceConfiguration := Some(ic.value);
        assert Value() == before.(interfaceConfiguration := Some(ic.value));
        next := end;
      }
      return None, next;
    }

    /** The branch taken when the cursor is inside the value and points
        at an organisation-defined sub-TLV: the sub-TLV spans its declared length plus 3
        bytes, and the cursor moves past it. */
    method ReadOrg(value: Bytes, start: nat) returns (err: Option<Exception>, next: nat)
      modifies this
      ensures Stepped(err, Value(), next) == DecodeOrg(old(Value()), value, start)
    {
      ghost var before := Value();
      next := start;
      if next < |value| && value[next] == Org.TypeId {
        if next + 2 >= |value| {
          return Some(IndexError), next;
        }
        var offset := value[next + 1] as int * 256 + value[next + 2] as int + 3;
        var end := next + offset;
        assert SubTlvAt(value, next) == Ok((Slice(value, next, end), end));
        var org := Org.Deserialize(Slice(value, next, end));
        if org.Err? {
          return Some(org.error), next;
        }
        organizationallyDefined := Some(org.value);
        assert Value() == before.(organizationallyDefined := Some(org.value));
        next := end;
      }
      return None, next;
    }

    /** `increase_accumulated_latency`: adds the summand (of either sign)
        and changes nothing else. */
    method IncreaseAccumulatedLatency(summand: int)
      modifies this
      ensures Value() == old(Value()).(accumulatedMaximumLatency := old(accumulatedMaximumLatency) + summand)
    {
      accumulatedMaximumLatency := accumulatedMaximumLatency + summand;
    }

    /** `add_failure_information`: the failure information is built from
        the MAC text first, so a rejected text leaves the object as it
        was. */
    method AddFailureInformation(macText: string, code: FailureCode) returns (err: Option<Exception>)
      modifies this
      ensures err.None? <==> FI.New(macText, code).Ok?
      ensures err.None? ==> Value() == old(Value()).(failureInformation := Some(FI.New(macText, code).value))
      ensures err.Some? ==> err.value == FI.New(macText, code).error && Value() == old(Value())
    {
      var f := FI.New(macText, code);
      if f.Err? {
        return Some(f.error);
      }
      failureInformation := Some(f.value);
      return None;
    }

    /** `remove_failure_information`: only the failure information goes. */
    method RemoveFailureInformation()
      modifies this
      ensures Value() == old(Value()).(failureInformation := None)
    {
      failureInformation := None;
    }

    /** `add_redundancy_control`: a new redundancy control from the R-tag
        status and the context list replaces any earlier one. */
    method AddRedundancyControl(rTagStatus: bool, contexts: seq<VC.VlanContext>)
      modifies this
      ensures Value() == old(Value()).(redundancyControl := Some(RC.RedundancyControl(rTagStatus, contexts)))
    {
      redundancyControl := Some(RC.RedundancyControl(rTagStatus, contexts));
    }

    /** `add_org_defined`: stores the given organisation-defined sub-TLV,
        which may be None. */
    method AddOrgDefined(org: Option<Org.OrgDefined>)
      modifies this
      ensures Value() == old(Value()).(organizationallyDefined := org)
    {
      organizationallyDefined := org;
    }
  }

  lemma Assoc5(p: Bytes, q: Bytes, r: Bytes, s: Bytes, u: Bytes)
    ensures p + q + r + s + u == p + (q + r + s + u)
  {
    ConcatAssoc(p, q, r);
    ConcatAssoc(p, q + r, s);
    ConcatAssoc(p, q + r + s, u);
  }
}
