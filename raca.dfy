/** The resource allocation class attribute (RACA, type 0x00): a list of
    class descriptors (type 0x20), each a priority byte and a 4-byte
    resource set id. */
module Raca {
  import opened Wrappers
  import opened Bytes
  import Hex
  import Tlv

  const TypeId: Byte := 0x00
  const DescriptorTypeId: Byte := 0x20

  /** The resource set id a descriptor gets when none is given. */
  const DefaultRsidText: string := "00-80-C2-01"

  /** A class descriptor: the priority as stored (any integer; only
      `serialize` checks that it fits in a byte) and the resource set id
      bytes. The organisation-defined sub-TLV slot is always empty and is
      never written, so it is not a field here. */
  datatype Descriptor = Descriptor(priority: int, rsid: Bytes)

  /** What the wire format carries and reads back: a byte-sized priority
      and a 4-byte resource set id. */
  predicate Valid(d: Descriptor) {
    0 <= d.priority < 256 && |d.rsid| == 4
  }

  /** `Ra_class_descriptor(rsid, priority)`: the id text with its dashes
      removed is read as hex (ValueError otherwise); its length is not
      checked. */
  function NewDescriptor(rsidText: string, priority: int): (r: Result<Descriptor>)
    ensures r.Ok? <==> Hex.ParseDashed(rsidText).Some?
    ensures r.Ok? ==> r.value.rsid == Hex.ParseDashed(rsidText).value && r.value.priority == priority
    ensures r.Err? ==> r.error.ValueError?
  {
    match Hex.ParseDashed(rsidText)
    case None => Err(ValueError("non-hexadecimal number found in fromhex() arg"))
    case Some(rsid) => Ok(Descriptor(priority, rsid))
  }

  /** `get_rsid`: the first four id bytes as lower-case hex pairs joined by
      dashes; a shorter id raises IndexError. The text reads back as those
      bytes. */
  function GetRsid(d: Descriptor): (r: Result<string>)
    ensures r.Err? <==> |d.rsid| < 4
    ensures r.Ok? ==> Hex.Canonical(r.value, Hex.ResourceSetIdSeps)
    ensures r.Ok? ==> NewDescriptor(r.value, d.priority) == Ok(d.(rsid := d.rsid[..4]))
  {
    if |d.rsid| < 4 then Err(IndexError)
    else
      Hex.MacSeparators();
      Hex.ParseRender(d.rsid[..4], Hex.ResourceSetIdSeps, {'-'});
      Hex.RenderCanonical(d.rsid[..4], Hex.ResourceSetIdSeps);
      Ok(Hex.Render(d.rsid[..4], Hex.ResourceSetIdSeps))
  }

  /** `Ra_class_descriptor.serialize`: the priority byte and the id under
      type 0x20. A priority outside a byte makes `bytearray` raise
      ValueError, as does an id too long for the 16-bit length. */
  function SerializeDescriptor(d: Descriptor): (r: Result<Bytes>)
    ensures r.Ok? <==> 0 <= d.priority < 256 && 1 + |d.rsid| < 0x1_0000
    ensures r.Err? ==> r.error.ValueError?
    ensures r.Ok? ==> && Tlv.WellFormed(r.value) && r.value[0] == DescriptorTypeId
                      && |r.value| == 4 + |d.rsid| && r.value[3] == d.priority && r.value[4..] == d.rsid
  {
    if !(0 <= d.priority < 256) then Err(ValueError("byte must be in range(0, 256)"))
    else Tlv.Encapsulate(DescriptorTypeId, 1 + |d.rsid|, [d.priority] + d.rsid)
  }

  /** `Ra_class_descriptor.deserialize(value)` on a fresh descriptor: the
      value is already unwrapped; its first byte is the priority and the
      next four (fewer if the value is short) the id. An empty value
      raises IndexError. */
  function DescriptorFromValue(value: Bytes): (r: Result<Descriptor>)
    ensures r.Err? <==> value == []
    ensures r.Err? ==> r.error == IndexError
    ensures r.Ok? ==> r.value.priority == value[0] && r.value.rsid == Slice(value, 1, 5)
  {
    if value == [] then Err(IndexError)
    else Ok(Descriptor(value[0], Slice(value, 1, 5)))
  }

  /** A valid descriptor is 8 bytes on the wire, declares length 5, and
      reads back unchanged, whatever follows it. */
  lemma DescriptorRoundTrip(d: Descriptor, rest: Bytes)
    requires Valid(d)
    ensures SerializeDescriptor(d).Ok? && |SerializeDescriptor(d).value| == 8
    ensures Tlv.DeclaredLength(SerializeDescriptor(d).value) == 5
    ensures Tlv.Extract(SerializeDescriptor(d).value + rest) == Ok(([d.priority] + d.rsid, rest))
    ensures DescriptorFromValue([d.priority] + d.rsid) == Ok(d)
  {
    Tlv.ExtractEncapsulate(DescriptorTypeId, [d.priority] + d.rsid, rest);
    assert Slice([d.priority] + d.rsid, 1, 5) == d.rsid;
  }

  // ---------------------------------------------------------------------
  // the attribute

  /** The descriptors serialized one after the other, in list order; the
      first descriptor that cannot be serialized decides the error. */
  function Concat(ds: seq<Descriptor>): (r: Result<Bytes>)
    ensures r.Err? ==> r.error.ValueError?
  {
    if ds == [] then Ok([])
    else match SerializeDescriptor(ds[0])
      case Err(e) => Err(e)
      case Ok(b) =>
        match Concat(ds[1..])
        case Err(e) => Err(e)
        case Ok(tail) => Ok(b + tail)
  }

  /** What `RACA.serialize` returns: the concatenation under type 0x00;
      ValueError when it is too long for the 16-bit length. */
  function Encoding(ds: seq<Descriptor>): (r: Result<Bytes>)
    ensures Concat(ds).Ok? ==> (r.Ok? <==> |Concat(ds).value| < 0x1_0000)
    ensures r.Ok? ==> && Concat(ds).Ok? && Tlv.WellFormed(r.value) && r.value[0] == TypeId
                      && r.value[3..] == Concat(ds).value
  {
    match Concat(ds)
    case Err(e) => Err(e)
    case Ok(value) => Tlv.Encapsulate(TypeId, |value|, value)
  }

  /** The descriptors read from `value` one sub-TLV after the other until
      no byte is left, in wire order. Each step consumes at least the
      3-byte header, so the reading ends. A tail of one or two bytes, or a
      sub-TLV with an empty value, raises IndexError. */
  function DecodeList(value: Bytes): (r: Result<seq<Descriptor>>)
    ensures r.Ok? ==> 3 * |r.value| <= |value|
    decreases |value|
  {
    if value == [] then Ok([])
    else match Tlv.Extract(value)
      case Err(e) => Err(e)
      case Ok((v, rest)) =>
        match DescriptorFromValue(v)
        case Err(e) => Err(e)
        case Ok(d) =>
          match DecodeList(rest)
          case Err(e) => Err(e)
          case Ok(ds) => Ok([d] + ds)
  }

  /** What `RACA.deserialize(tlv)` leaves in an attribute that held
      `prior`: the decoded descriptors APPENDED to the existing list. The
      type byte is not checked and bytes after the frame are ignored. */
  function Decoding(prior: seq<Descriptor>, tlv: Bytes): (r: Result<seq<Descriptor>>)
    ensures r.Ok? ==> |r.value| >= |prior| && r.value[..|prior|] == prior
    ensures |tlv| < 3 ==> r == Err(IndexError)
  {
    match Tlv.Extract(tlv)
    case Err(e) => Err(e)
    case Ok((value, _)) =>
      match DecodeList(value)
      case Err(e) => Err(e)
      case Ok(ds) => Ok(prior + ds)
  }

  /** An empty attribute serializes to the bare header [0, 0, 0], which
      reads back as no descriptor. */
  lemma EmptyAttribute(prior: seq<Descriptor>)
    ensures Encoding([]) == Ok([0, 0, 0])
    ensures Decoding(prior, [0, 0, 0]) == Ok(prior)
  {
    assert Tlv.Extract([0, 0, 0]) == Ok(([], []));
    assert prior + [] == prior;
  }

  /** What makes the reading fail: one or two stray bytes at the end of
      the value, or a descriptor sub-TLV that declares an empty value. */
  lemma MalformedRejected(t: Byte, tail: Bytes, rest: Bytes)
    requires 0 < |tail| < 3
    ensures DecodeList(tail) == Err(IndexError)
    ensures DecodeList([t, 0, 0] + rest) == Err(IndexError)
  {
    assert Tlv.Extract([t, 0, 0] + rest).value.0 == [];
  }

  /** The concatenation of valid descriptors is 8 bytes per descriptor and
      reads back as the same descriptors in the same order. */
  lemma {:induction false} ConcatRoundTrip(ds: seq<Descriptor>)
    requires forall i :: 0 <= i < |ds| ==> Valid(ds[i])
    ensures Concat(ds).Ok? && |Concat(ds).value| == 8 * |ds|
    ensures DecodeList(Concat(ds).value) == Ok(ds)
  {
    if ds != [] {
      assert forall i :: 0 <= i < |ds[1..]| ==> ds[1..][i] == ds[i + 1];
      ConcatRoundTrip(ds[1..]);
      var tail := Concat(ds[1..]).value;
      DescriptorRoundTrip(ds[0], tail);
      var b := SerializeDescriptor(ds[0]).value;
      assert Concat(ds).value == b + tail;
      assert [ds[0]] + ds[1..] == ds;
    }
  }

  /** A serialized list of valid descriptors read into an attribute that
      already holds `prior` leaves `prior` followed by the same descriptors
      in the same order. */
  lemma RoundTrip(prior: seq<Descriptor>, ds: seq<Descriptor>)
    requires forall i :: 0 <= i < |ds| ==> Valid(ds[i])
    requires 8 * |ds| < 0x1_0000
    ensures Encoding(ds).Ok? && |Encoding(ds).value| == 3 + 8 * |ds|
    ensures Decoding(prior, Encoding(ds).value) == Ok(prior + ds)
  {
    ConcatRoundTrip(ds);
    Tlv.ExtractEncapsulate(TypeId, Concat(ds).value, []);
    assert Encoding(ds).value + [] == Encoding(ds).value;
  }

  /** `prefix` followed by the bytes of `r`, or the error of `r`. */
  function After(prefix: Bytes, r: Result<Bytes>): Result<Bytes> {
    if r.Err? then r else Ok(prefix + r.value)
  }

  /** Appending one descriptor appends its serialization. */
  lemma {:induction false} ConcatSnoc(ds: seq<Descriptor>, d: Descriptor)
    requires Concat(ds).Ok?
    ensures Concat(ds + [d]) == After(Concat(ds).value, SerializeDescriptor(d))
    decreases |ds|, 1
  {
    if ds == [] {
      ConcatSingle(d);
      assert ds + [d] == [d];
    } else {
      ConcatSnocCons(ds, d);
    }
  }

  lemma ConcatSingle(d: Descriptor)
    ensures Concat([d]) == After([], SerializeDescriptor(d))
  {
    assert [d][1..] == [];
    if SerializeDescriptor(d).Ok? {
      var b := SerializeDescriptor(d).value;
      assert b + [] == [] + b;
    }
  }

  lemma {:induction false} ConcatSnocCons(ds: seq<Descriptor>, d: Descriptor)
    requires Concat(ds).Ok? && ds != []
    ensures Concat(ds + [d]) == After(Concat(ds).value, SerializeDescriptor(d))
    decreases |ds|, 0
  {
    var b0 := SerializeDescriptor(ds[0]).value;
    var tail := Concat(ds[1..]).value;
    assert (ds + [d])[0] == ds[0] && (ds + [d])[1..] == ds[1..] + [d];
    assert Concat(ds + [d]) == After(b0, Concat(ds[1..] + [d]));
    ConcatSnoc(ds[1..], d);
    AfterAfter(b0, tail, SerializeDescriptor(d));
  }

  lemma AfterAfter(p: Bytes, q: Bytes, r: Result<Bytes>)
    ensures After(p, After(q, r)) == After(p + q, r)
  {
    if r.Ok? {
      assert p + (q + r.value) == (p + q) + r.value;
    }
  }

  /** Once a prefix of the list fails to serialize, the whole list fails
      with the same error. */
  lemma {:induction false} ConcatPrefixErr(ds: seq<Descriptor>, k: nat)
    requires k <= |ds| && Concat(ds[..k]).Err?
    ensures Concat(ds) == Concat(ds[..k])
  {
    if k < |ds| && k > 0 {
      assert ds[..k][0] == ds[0] && ds[..k][1..] == ds[1..][..k - 1];
      if SerializeDescriptor(ds[0]).Ok? {
        ConcatPrefixErr(ds[1..], k - 1);
      }
    } else if k == |ds| {
      assert ds[..k] == ds;
    }
  }

  /** A decoding that has read `done` and still has `rest` to read. */
  function Continue(done: seq<Descriptor>, r: Result<seq<Descriptor>>): Result<seq<Descriptor>> {
    if r.Err? then r else Ok(done + r.value)
  }

  /** One descriptor read off the front of `rest`: it moves from the part
      still to read to the part already read, and at least three bytes are
      consumed. */
  lemma DecodeStep(rest: Bytes, done: seq<Descriptor>)
    requires rest != [] && Tlv.Extract(rest).Ok? && DescriptorFromValue(Tlv.Extract(rest).value.0).Ok?
    ensures |Tlv.Extract(rest).value.1| + 3 <= |rest|
    ensures Continue(done, DecodeList(rest))
            == Continue(done + [DescriptorFromValue(Tlv.Extract(rest).value.0).value], DecodeList(Tlv.Extract(rest).value.1))
  {
    var d := DescriptorFromValue(Tlv.Extract(rest).value.0).value;
    var tail := DecodeList(Tlv.Extract(rest).value.1);
    if tail.Ok? {
      assert done + ([d] + tail.value) == (done + [d]) + tail.value;
    }
  }

  /** A sub-TLV that cannot be read, or that holds no descriptor, ends the
      list with its exception. */
  lemma DecodeFails(rest: Bytes, done: seq<Descriptor>)
    requires rest != []
    ensures Tlv.Extract(rest).Err? ==> Continue(done, DecodeList(rest)) == Err(Tlv.Extract(rest).error)
    ensures Tlv.Extract(rest).Ok? && DescriptorFromValue(Tlv.Extract(rest).value.0).Err? ==>
              Continue(done, DecodeList(rest)) == Err(DescriptorFromValue(Tlv.Extract(rest).value.0).error)
  {
  }

  /** Nothing left to read: the list read so far is the result. */
  lemma DecodeDone(done: seq<Descriptor>)
    ensures Continue(done, DecodeList([])) == Ok(done)
  {
    assert done + [] == done;
  }

  /** The outcome of a `deserialize` call: the list, or the exception. */
  function Outcome(err: Option<Exception>, ds: seq<Descriptor>): Result<seq<Descriptor>> {
    if err.None? then Ok(ds) else Err(err.value)
  }

  class Attribute {
    var descriptors: seq<Descriptor>

    /** `RACA(raca_list)`. */
    constructor (ds: seq<Descriptor>)
      ensures descriptors == ds
    {
      descriptors := ds;
    }

    /** `serialize`: each descriptor's bytes appended in list order, then
        the whole wrapped as type 0x00. */
    method Serialize() returns (r: Result<Bytes>)
      ensures r == Encoding(descriptors)
    {
      var value: Bytes := [];
      var i := 0;
      while i < |descriptors|
        invariant 0 <= i <= |descriptors|
        invariant Concat(descriptors[..i]) == Ok(value)
      {
        var b := SerializeDescriptor(descriptors[i]);
        ConcatSnoc(descriptors[..i], descriptors[i]);
        assert descriptors[..i + 1] == descriptors[..i] + [descriptors[i]];
        if b.Err? {
          ConcatPrefixErr(descriptors, i + 1);
          return Err(b.error);
        }
        value := value + b.value;
        i := i + 1;
      }
      assert descriptors[..i] == descriptors;
      r := Tlv.Encapsulate(TypeId, |value|, value);
    }

    /** `deserialize(tlv)`: the sub-TLVs of the value are read one by one
        and each descriptor is appended to the list as it is read; on an
        exception the list keeps what was appended before it. */
    method Deserialize(tlv: Bytes) returns (err: Option<Exception>)
      modifies this
      ensures Outcome(err, descriptors) == Decoding(old(descriptors), tlv)
    {
      var extracted := Tlv.Extract(tlv);
      if extracted.Err? {
        return Some(extracted.error);
      }
      var rest := extracted.value.0;
      while rest != []
        invariant Decoding(old(descriptors), tlv) == Continue(descriptors, DecodeList(rest))
        decreases |rest|
      {
        ghost var here := rest;
        var next := Tlv.Extract(rest);
        if next.Err? {
          DecodeFails(here, descriptors);
          return Some(next.error);
        }
        var value := next.value.0;
        rest := next.value.1;
        var d := DescriptorFromValue(value);
        if d.Err? {
          DecodeFails(here, descriptors);
          return Some(d.error);
        }
        DecodeStep(here, descriptors);
        descriptors := descriptors + [d.value];
      }
      DecodeDone(descriptors);
      return None;
    }
  }
}
