/** The listener attach attribute (LAA, type 0x02): a stream id, the
    listener attach status, an optional failure information and an optional
    interface configuration. */
module Laa {
  import opened Wrappers
  import opened Bytes
  import opened FailureCodes
  import Hex
  import Tlv
  import Taa
  import FI = FailureInformationTlv
  import IC = InterfaceConfigurationTlv

  const TypeId: Byte := 0x02

  /** The message of the ValueError raised for an unknown sub-TLV. */
  const InvalidSubTlv := "Invalid Sub TLV in LAA"

  /** The listener attach status, coded in one byte. */
  datatype ListenerStatus = NoStatus | Ready | Failed | PartialFailed

  function StatusCode(s: ListenerStatus): Byte {
    match s
    case NoStatus => 0
    case Ready => 1
    case Failed => 2
    case PartialFailed => 3
  }

  /** `Listener_status(n)`: a code outside the enumeration raises ValueError. */
  function StatusFromCode(n: int): (r: Result<ListenerStatus>)
    ensures r.Ok? <==> 0 <= n <= 3
    ensures r.Ok? ==> StatusCode(r.value) == n
    ensures r.Err? ==> r.error.ValueError?
  {
    if n == 0 then Ok(NoStatus)
    else if n == 1 then Ok(Ready)
    else if n == 2 then Ok(Failed)
    else if n == 3 then Ok(PartialFailed)
    else Err(ValueError("is not a valid Listener_status"))
  }

  lemma StatusFromCodeCode(s: ListenerStatus)
    ensures StatusFromCode(StatusCode(s)) == Ok(s)
  {
  }

  /** The fields of an LAA object. The organisation-defined field starts as
      an empty list and is only ever set by `deserialize`, to raw bytes. */
  datatype Attach = Attach(
    streamId: Bytes,
    status: ListenerStatus,
    failureInformation: Option<FI.FailureInformation>,
    interfaceConfiguration: Option<IC.InterfaceConfiguration>,
    organizationallyDefined: Bytes)

  /** The constructor: the stream id text checked as for a TAA, status
      NONE and no optional part. */
  function New(streamIdText: string): (r: Result<Attach>)
    ensures r.Ok? <==> Taa.StreamIdFromText(streamIdText).Ok?
    ensures r.Ok? ==> && r.value.streamId == Taa.StreamIdFromText(streamIdText).value && |r.value.streamId| == 8
                      && r.value.status == NoStatus
                      && r.value.failureInformation.None? && r.value.interfaceConfiguration.None?
                      && r.value.organizationallyDefined == []
    ensures r.Err? ==> r.error.ValueError?
  {
    match Taa.StreamIdFromText(streamIdText)
    case Err(e) => Err(e)
    case Ok(id) =>
      Hex.MacSeparators();
      Ok(Attach(id, NoStatus, None, None, []))
  }

  /** `get_stream_id`: the same rendering as for a TAA. */
  function GetStreamId(l: Attach): (r: Result<string>)
    ensures r.Err? <==> |l.streamId| < 8
    ensures r.Ok? ==> Hex.Canonical(r.value, Hex.StreamIdSeps)
    ensures r.Ok? ==> Hex.ParseStreamIdText(r.value) == Some(l.streamId[..8])
  {
    Taa.StreamIdText(l.streamId)
  }

  /** A present failure information or interface configuration
      serialized, an absent one as nothing. */
  function FailureBytes(x: Option<FI.FailureInformation>): (r: Result<Bytes>)
    ensures r.Ok? ==> (r.value == [] <==> x.None?)
  {
    if x.None? then Ok([]) else FI.Serialize(x.value)
  }

  function InterfaceBytes(x: Option<IC.InterfaceConfiguration>): (r: Result<Bytes>)
    ensures r.Ok? ==> (r.value == [] <==> x.None?)
  {
    if x.None? then Ok([]) else IC.Serialize(x.value)
  }

  /** What `serialize` returns: the stream id, the status byte, then the
      failure information and the interface configuration when present,
      under type 0x02 with the summed length (ValueError past 16 bits).
      The organisation-defined field is never written. */
  function Encoding(l: Attach): (r: Result<Bytes>)
    ensures r.Ok? ==> && Tlv.WellFormed(r.value) && r.value[0] == TypeId
                      && |r.value| >= 4 + |l.streamId|
                      && r.value[3..3 + |l.streamId|] == l.streamId
                      && r.value[3 + |l.streamId|] == StatusCode(l.status)
    ensures FailureBytes(l.failureInformation).Ok? && InterfaceBytes(l.interfaceConfiguration).Ok? ==>
              (r.Ok? <==> |l.streamId| + 1 + |FailureBytes(l.failureInformation).value|
                          + |InterfaceBytes(l.interfaceConfiguration).value| < 0x1_0000)
  {
    match FailureBytes(l.failureInformation)
    case Err(e) => Err(e)
    case Ok(fi) =>
      match InterfaceBytes(l.interfaceConfiguration)
      case Err(e) => Err(e)
      case Ok(ic) =>
        var value := l.streamId + [StatusCode(l.status)] + fi + ic;
        var r := Tlv.Encapsulate(TypeId, |value|, value);
        if r.Ok? then
          assert r.value[3..3 + |l.streamId|] == value[..|l.streamId|];
          r
        else r
  }

  /** The 0x26 branch of `deserialize`: a failure information at 9, and
      an interface configuration from the bytes after it, if any. */
  function DecodeFailureFirst(a: Attach, value: Bytes): (r: Result<Attach>)
    requires |value| > 9
    ensures r.Ok? ==> r.value.streamId == a.streamId && r.value.status == a.status
  {
    match DecodeFailure(a, value)
    case Err(e) => Err(e)
    case Ok((a2, next)) => DecodeTrailingInterface(a2, value, next)
  }

  /** The failure information at 9 taken into `a`, and the position after
      it (its declared length plus 3, clipped, past 9). */
  function DecodeFailure(a: Attach, value: Bytes): (r: Result<(Attach, nat)>)
    requires |value| > 9
    ensures r.Ok? ==> r.value.0 == a.(failureInformation := r.value.0.failureInformation)
                      && r.value.0.failureInformation.Some? && r.value.1 >= 9
  {
    match FI.Deserialize(value[9..])
    case Err(e) => Err(e)
    case Ok((f, failLength)) => Ok((a.(failureInformation := Some(f)), 9 + failLength))
  }

  /** After the failure information: an interface configuration is read
      from `from` on only when bytes remain there. */
  function DecodeTrailingInterface(a: Attach, value: Bytes, from: nat): (r: Result<Attach>)
    ensures |value| <= from ==> r == Ok(a)
    ensures r.Ok? ==> r.value == a.(interfaceConfiguration := r.value.interfaceConfiguration)
  {
    if |value| > from then
      match IC.Deserialize(Drop(value, from))
      case Err(e) => Err(e)
      case Ok(ic) => Ok(a.(interfaceConfiguration := Some(ic)))
    else Ok(a)
  }

  /** The optional part of `deserialize`, once the value is longer than 9
      bytes: a failure information at 9 (and then an interface
      configuration from whatever follows it), an interface configuration
      at 9, or type 0x27, which extracts a TLV from the bytes AFTER the
      LAA frame instead of from the value; any other type raises
      ValueError. */
  function DecodeOptional(a: Attach, value: Bytes, rest: Bytes): (r: Result<Attach>)
    requires |value| > 9
    ensures value[9] != FI.TypeId && value[9] != IC.TypeId && value[9] != 0x27 ==>
              r == Err(ValueError(InvalidSubTlv))
    ensures r.Ok? ==> r.value.streamId == a.streamId && r.value.status == a.status
  {
    if value[9] == FI.TypeId then DecodeFailureFirst(a, value)
    else if value[9] == IC.TypeId then
      match IC.Deserialize(value[9..])
      case Err(e) => Err(e)
      case Ok(ic) => Ok(a.(interfaceConfiguration := Some(ic)))
    else if value[9] == 0x27 then
      match Tlv.Extract(rest)
      case Err(e) => Err(e)
      case Ok((org, _)) => Ok(a.(organizationallyDefined := org))
    else Err(ValueError(InvalidSubTlv))
  }

  /** What `deserialize(tlv)` leaves in an object that held `prior`: the
      stream id [0:8] and the status byte [8] are replaced; the optional
      parts only when found. */
  function Decoding(prior: Attach, tlv: Bytes): (r: Result<Attach>)
    ensures |tlv| < 3 ==> r == Err(IndexError)
    ensures Tlv.Extract(tlv).Ok? ==>
              var value := Tlv.Extract(tlv).value.0;
              && (|value| < 9 ==> r == Err(IndexError))
              && (|value| >= 9 && StatusFromCode(value[8]).Err? ==> r == Err(StatusFromCode(value[8]).error))
              && (|value| == 9 && StatusFromCode(value[8]).Ok? ==>
                    r == Ok(prior.(streamId := value[..8], status := StatusFromCode(value[8]).value)))
              && (r.Ok? ==> |value| >= 9 && r.value.streamId == value[..8]
                            && Ok(r.value.status) == StatusFromCode(value[8]))
    ensures r.Ok? ==> |r.value.streamId| == 8
  {
    match Tlv.Extract(tlv)
    case Err(e) => Err(e)
    case Ok((value, rest)) =>
      if |value| < 9 then Err(IndexError)
      else match StatusFromCode(value[8])
        case Err(e) => Err(e)
        case Ok(s) =>
          var a1 := prior.(streamId := value[0..8], status := s);
          if |value| > 9 then DecodeOptional(a1, value, rest) else Ok(a1)
  }

  // ---------------------------------------------------------------------
  // properties

  /** What an LAA needs to be carried and read back: an 8-byte stream id
      and optional parts that round-trip. */
  predicate Valid(l: Attach) {
    && |l.streamId| == 8
    && (l.failureInformation.None? || FI.Valid(l.failureInformation.value))
    && (l.interfaceConfiguration.None? || IC.Valid(l.interfaceConfiguration.value))
  }

  /** The value of a serialized LAA, and the frame around it. */
  lemma Frame(l: Attach, rest: Bytes)
    requires Encoding(l).Ok?
    ensures FailureBytes(l.failureInformation).Ok? && InterfaceBytes(l.interfaceConfiguration).Ok?
    ensures Tlv.Extract(Encoding(l).value + rest)
            == Ok((l.streamId + [StatusCode(l.status)] + FailureBytes(l.failureInformation).value
                   + InterfaceBytes(l.interfaceConfiguration).value, rest))
  {
    var value := l.streamId + [StatusCode(l.status)] + FailureBytes(l.failureInformation).value
                 + InterfaceBytes(l.interfaceConfiguration).value;
    Tlv.ExtractEncapsulate(TypeId, value, []);
    Tlv.ExtractEncapsulate(TypeId, value, rest);
  }

  /** A serialized LAA read back into an object without optional parts
      restores the stream id, the status and the presence and contents of
      the failure information and the interface configuration, in all
      four combinations; the organisation-defined field is kept. */
  lemma RoundTrip(prior: Attach, l: Attach, rest: Bytes)
    requires Valid(l) && Encoding(l).Ok?
    requires prior.failureInformation.None? && prior.interfaceConfiguration.None?
    ensures Decoding(prior, Encoding(l).value + rest)
            == Ok(l.(organizationallyDefined := prior.organizationallyDefined))
  {
    Frame(l, rest);
    var f, i := FailureBytes(l.failureInformation).value, InterfaceBytes(l.interfaceConfiguration).value;
    var head := l.streamId + [StatusCode(l.status)];
    var value := head + f + i;
    HeadSplit(head, f + i);
    ConcatAssoc(head, f, i);
    StatusFromCodeCode(l.status);
    var a1 := prior.(streamId := l.streamId, status := l.status);
    if |value| > 9 {
      OptionalRoundTrip(a1, l, value, rest);
    }
  }

  /** The stream id and status of a value, and what follows them. */
  lemma HeadSplit(head: Bytes, tail: Bytes)
    requires |head| == 9
    ensures (head + tail)[..8] == head[..8] && (head + tail)[8] == head[8]
    ensures (head + tail)[9..] == tail
  {
  }

  /** The optional part of a serialized LAA is read back. */
  lemma OptionalRoundTrip(a1: Attach, l: Attach, value: Bytes, rest: Bytes)
    requires Valid(l) && FailureBytes(l.failureInformation).Ok? && InterfaceBytes(l.interfaceConfiguration).Ok?
    requires a1.failureInformation.None? && a1.interfaceConfiguration.None?
    requires |value| > 9
    requires value[9..] == FailureBytes(l.failureInformation).value + InterfaceBytes(l.interfaceConfiguration).value
    ensures DecodeOptional(a1, value, rest)
            == Ok(a1.(failureInformation := l.failureInformation, interfaceConfiguration := l.interfaceConfiguration))
  {
    var f, i := FailureBytes(l.failureInformation).value, InterfaceBytes(l.interfaceConfiguration).value;
    if l.failureInformation.Some? {
      FI.RoundTrip(l.failureInformation.value, i);
      assert value[9] == f[0];
      if l.interfaceConfiguration.Some? {
        IC.RoundTrip(l.interfaceConfiguration.value);
        assert Drop(value, 21) == i;
      }
    } else {
      IC.RoundTrip(l.interfaceConfiguration.value);
      assert value[9..] == i;
    }
  }

  /** The 0x27 branch reads the TLV that FOLLOWS the LAA frame: the value's
      own organisation-defined bytes are ignored, and a frame with fewer
      than 3 bytes after it raises IndexError. */
  lemma OrgBranchReadsRest(prior: Attach, value: Bytes, rest: Bytes)
    requires |value| > 9 && value[9] == 0x27 && 0 <= value[8] <= 3 && |value| < 0x1_0000
    ensures Tlv.Encapsulate(TypeId, |value|, value).Ok?
    ensures var r := Decoding(prior, Tlv.Encapsulate(TypeId, |value|, value).value + rest);
            && (|rest| < 3 ==> r == Err(IndexError))
            && (|rest| >= 3 ==> r.Ok? && r.value.organizationallyDefined == Tlv.Extract(rest).value.0)
  {
    Tlv.ExtractEncapsulate(TypeId, value, rest);
  }

  /** A sub-TLV at 9 of any other type than 0x26, 0xFF or 0x27 is rejected. */
  lemma InvalidSubTlvRejected(prior: Attach, value: Bytes, rest: Bytes)
    requires |value| > 9 && 0 <= value[8] <= 3 && |value| < 0x1_0000
    requires value[9] != FI.TypeId && value[9] != IC.TypeId && value[9] != 0x27
    ensures Tlv.Encapsulate(TypeId, |value|, value).Ok?
    ensures Decoding(prior, Tlv.Encapsulate(TypeId, |value|, value).value + rest) == Err(ValueError(InvalidSubTlv))
  {
    Tlv.ExtractEncapsulate(TypeId, value, rest);
  }

  /** The state a `deserialize` call leaves: the object's fields, or the
      exception it raised. */
  function Outcome(err: Option<Exception>, l: Attach): Result<Attach> {
    if err.None? then Ok(l) else Err(err.value)
  }

  /** The state a step of `deserialize` leaves, with the position it
      reached, or the exception it raised. */
  function Stepped(err: Option<Exception>, l: Attach, next: nat): Result<(Attach, nat)> {
    if err.None? then Ok((l, next)) else Err(err.value)
  }

  // ---------------------------------------------------------------------
  // the object

  class ListenerAttach {
    var streamId: Bytes
    var listenerAttachStatus: ListenerStatus
    var failureInformation: Option<FI.FailureInformation>
    var interfaceConfiguration: Option<IC.InterfaceConfiguration>
    var organizationallyDefined: Bytes

    function Value(): Attach
      reads this
    {
      Attach(streamId, listenerAttachStatus, failureInformation, interfaceConfiguration, organizationallyDefined)
    }

    /** An object holding the given fields. */
    constructor (l: Attach)
      ensures Value() == l
    {
      streamId := l.streamId;
      listenerAttachStatus := l.status;
      failureInformation := l.failureInformation;
      interfaceConfiguration := l.interfaceConfiguration;
      organizationallyDefined := l.organizationallyDefined;
    }

    /** `LAA(stream_id)`: a rejected stream id text gives no object. */
    static method Create(streamIdText: string) returns (r: Result<ListenerAttach>)
      ensures r.Ok? <==> New(streamIdText).Ok?
      ensures r.Ok? ==> fresh(r.value) && r.value.Value() == New(streamIdText).value
      ensures r.Err? ==> r.error == New(streamIdText).error
    {
      var id := Taa.StreamIdFromText(streamIdText);
      if id.Err? {
        return Err(id.error);
      }
      var l := new ListenerAttach(Attach(id.value, NoStatus, None, None, []));
      return Ok(l);
    }

    /** `serialize`: the value and its length grow together as each
        present part is appended. */
    method Serialize() returns (r: Result<Bytes>)
      ensures r == Encoding(Value())
    {
      var length := |streamId| + 1;
      var value := streamId + [StatusCode(listenerAttachStatus)];
      ghost var head := value;
      if failureInformation.Some? {
        var failureBytes := FI.Serialize(failureInformation.value);
        if failureBytes.Err? {
          return Err(failureBytes.error);
        }
        length := length + |failureBytes.value|;
        value := value + failureBytes.value;
      }
      assert FailureBytes(failureInformation).Ok? && value == head + FailureBytes(failureInformation).value;
      ghost var withFailure := value;
      if interfaceConfiguration.Some? {
        var interConf := IC.Serialize(interfaceConfiguration.value);
        if interConf.Err? {
          return Err(interConf.error);
        }
        length := length + |interConf.value|;
        value := value + interConf.value;
      }
      assert InterfaceBytes(interfaceConfiguration).Ok? && value == withFailure + InterfaceBytes(interfaceConfiguration).value;
      assert length == |value|;
      r := Tlv.Encapsulate(TypeId, length, value);
    }

    /** `deserialize(tlv)`: on an exception the object may be left
        part-way, so only the exception is stated then. */
    method Deserialize(tlv: Bytes) returns (err: Option<Exception>)
      modifies this
      ensures Outcome(err, Value()) == Decoding(old(Value()), tlv)
    {
      var extracted := Tlv.Extract(tlv);
      if extracted.Err? {
        return Some(extracted.error);
      }
      var value, rest := extracted.value.0, extracted.value.1;
      streamId := Slice(value, 0, 8);
      if |value| < 9 {
        return Some(IndexError);
      }
      var status := StatusFromCode(value[8]);
      if status.Err? {
        return Some(status.error);
      }
      listenerAttachStatus := status.value;
      if |value| > 9 {
        err := ReadOptional(value, rest);
        return;
      }
      return None;
    }

    /** The optional part of `deserialize`, past the status byte. */
    method ReadOptional(value: Bytes, rest: Bytes) returns (err: Option<Exception>)
      modifies this
      requires |value| > 9
      ensures Outcome(err, Value()) == DecodeOptional(old(Value()), value, rest)
    {
      if value[9] == FI.TypeId {
        err := ReadFailureBranch(value);
        return;
      } else if value[9] == IC.TypeId {
        var interConf := IC.Deserialize(value[9..]);
        if interConf.Err? {
          return Some(interConf.error);
        }
        interfaceConfiguration := Some(interConf.value);
      } else if value[9] == 0x27 {
        var org := Tlv.Extract(rest);
        if org.Err? {
          return Some(org.error);
        }
        organizationallyDefined := org.value.0;
      } else {
        return Some(ValueError(InvalidSubTlv));
      }
      return None;
    }

    /** The 0x26 branch of `deserialize`. */
    method ReadFailureBranch(value: Bytes) returns (err: Option<Exception>)
      modifies this
      requires |value| > 9
      ensures Outcome(err, Value()) == DecodeFailureFirst(old(Value()), value)
    {
      var next;
      err, next := ReadFailureFirst(value);
      if err.None? {
        err := ReadTrailingInterface(value, next);
      }
    }

    /** The failure information at 9: the object takes it, and the
        position after it comes back. */
    method ReadFailureFirst(value: Bytes) returns (err: Option<Exception>, next: nat)
      modifies this
      requires |value| > 9
      ensures Stepped(err, Value(), next) == DecodeFailure(old(Value()), value)
    {
      ghost var before := Value();
      var failObj := FI.Deserialize(value[9..]);
      if failObj.Err? {
        return Some(failObj.error), 0;
      }
      failureInformation := Some(failObj.value.0);
      assert Value() == before.(failureInformation := Some(failObj.value.0));
      return None, 9 + failObj.value.1;
    }

    /** The interface configuration after a failure information. */
    method ReadTrailingInterface(value: Bytes, from: nat) returns (err: Option<Exception>)
      modifies this
      ensures Outcome(err, Value()) == DecodeTrailingInterface(old(Value()), value, from)
    {
      if |value| > from {
        var interConf := IC.Deserialize(Drop(value, from));
        if interConf.Err? {
          return Some(interConf.error);
        }
        interfaceConfiguration := Some(interConf.value);
      }
      return None;
    }

    /** `add_failure_information`: a rejected MAC text leaves the object
        as it was. */
    method AddFailureInformation(macText: string, code: FailureCode) returns (err: Option<Exception>)
      modifies this
      ensures err.None? <==> FI.New(macText, code).Ok?
      ensures err.None? ==> Value() == old(Value()).(failureInformation := Some(FI.New(macText, code).value))
      ensures err.Some? ==> err.value == FI.New(macText, code).error && Value() == old(Value())
    {
      var f := FI.New(macText, code);
      if f.Err? {
        return Some(f.error);
      }
      failureInformation := Some(f.value);
      return None;
    }

    /** `remove_failure_information`: only the failure information goes. */
    method RemoveFailureInformation()
      modifies this
      ensures Value() == old(Value()).(failureInformation := None)
    {
      failureInformation := None;
    }

    /** `update_status`: only the status changes. */
    method UpdateStatus(status: ListenerStatus)
      modifies this
      ensures Value() == old(Value()).(status := status)
    {
      listenerAttachStatus := status;
    }
  }
}
