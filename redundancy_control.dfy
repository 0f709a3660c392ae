/** The redundancy-control sub-TLV (type 0x24): one byte whose top bit is
    the R-tag status, then a sequence of VLAN-context sub-TLVs. */
module RedundancyControlTlv {
  import opened Wrappers
  import opened Bytes
  import VC = VlanContextTlv
  import Tlv

  const TypeId: Byte := 0x24

  /** The constructor stores both arguments and never rejects: its guard
      `r_tag_status is False or True` always holds. */
  datatype RedundancyControl = RedundancyControl(rTagStatus: bool, vlanContexts: seq<VC.VlanContext>)

  /** The serialized contexts, concatenated in list order; the first one
      that fails to serialize decides the error. */
  function ContextsBytes(cs: seq<VC.VlanContext>): (r: Result<Bytes>)
  {
    if cs == [] then Ok([])
    else match ContextsBytes(cs[..|cs| - 1])
      case Err(e) => Err(e)
      case Ok(front) =>
        match VC.Serialize(cs[|cs| - 1])
        case Err(e) => Err(e)
        case Ok(last) => Ok(front + last)
  }

  /** The R-tag byte, `int(r_tag_status) << 7`. */
  function RTagByte(rTagStatus: bool): Byte {
    if rTagStatus then 0x80 else 0
  }

  /** What `serialize` produces: the R-tag byte and every context, under
      type 0x24 with length 1 plus the sizes of the contexts. */
  function Encoding(rc: RedundancyControl): (r: Result<Bytes>)
    ensures r.Ok? ==> Tlv.WellFormed(r.value) && |r.value| >= 4
                      && r.value[0] == TypeId && r.value[3] == RTagByte(rc.rTagStatus)
    ensures r.Ok? ==> Ok(r.value[4..]) == ContextsBytes(rc.vlanContexts)
  {
    match ContextsBytes(rc.vlanContexts)
    case Err(e) => Err(e)
    case Ok(contexts) =>
      var value := [RTagByte(rc.rTagStatus)] + contexts;
      var r := Tlv.Encapsulate(TypeId, |value|, value);
      if r.Ok? then
        assert r.value[4..] == contexts;
        r
      else r
  }

  /** `serialize`: accumulates the value and its length context by context. */
  method Serialize(rc: RedundancyControl) returns (r: Result<Bytes>)
    ensures r == Encoding(rc)
  {
    var cs := rc.vlanContexts;
    var length := 1;
    var value: Bytes := [RTagByte(rc.rTagStatus)];
    assert cs[..0] == [] && value[1..] == [];
    for i := 0 to |cs|
      invariant length == |value| >= 1 && value[0] == RTagByte(rc.rTagStatus)
      invariant ContextsBytes(cs[..i]) == Ok(value[1..])
    {
      var vlanBytes := VC.Serialize(cs[i]);
      if vlanBytes.Err? {
        EncodingStop(rc, i);
        return Err(vlanBytes.error);
      }
      ContextsBytesNext(cs, i);
      length := length + |vlanBytes.value|;
      ghost var before := value;
      value := value + vlanBytes.value;
      TailAppend(before, vlanBytes.value);
    }
    EncodingOf(rc, value);
    r := Tlv.Encapsulate(TypeId, length, value);
  }

  /** One more context appended to a prefix that serializes. */
  lemma ContextsBytesNext(cs: seq<VC.VlanContext>, i: nat)
    requires i < |cs| && ContextsBytes(cs[..i]).Ok? && VC.Serialize(cs[i]).Ok?
    ensures ContextsBytes(cs[..i + 1]) == Ok(ContextsBytes(cs[..i]).value + VC.Serialize(cs[i]).value)
  {
    assert cs[..i + 1][..i] == cs[..i];
  }

  /** The first context that fails to serialize decides the error. */
  lemma EncodingStop(rc: RedundancyControl, i: nat)
    requires i < |rc.vlanContexts| && ContextsBytes(rc.vlanContexts[..i]).Ok? && VC.Serialize(rc.vlanContexts[i]).Err?
    ensures Encoding(rc) == Err(VC.Serialize(rc.vlanContexts[i]).error)
  {
    var cs := rc.vlanContexts;
    assert cs[..i + 1][..i] == cs[..i];
    ContextsBytesFailure(cs, i + 1);
  }

  /** The R-tag byte followed by all the contexts, encapsulated. */
  lemma EncodingOf(rc: RedundancyControl, value: Bytes)
    requires |value| >= 1 && value[0] == RTagByte(rc.rTagStatus)
    requires ContextsBytes(rc.vlanContexts[..|rc.vlanContexts|]) == Ok(value[1..])
    ensures Encoding(rc) == Tlv.Encapsulate(TypeId, |value|, value)
  {
    assert rc.vlanContexts[..|rc.vlanContexts|] == rc.vlanContexts;
    assert [value[0]] + value[1..] == value;
  }

  /** Once a prefix fails to serialize, every longer prefix fails the same
      way. */
  lemma {:induction false} ContextsBytesFailure(cs: seq<VC.VlanContext>, i: nat)
    requires i <= |cs| && ContextsBytes(cs[..i]).Err?
    ensures ContextsBytes(cs) == ContextsBytes(cs[..i])
    decreases |cs| - i
  {
    if i < |cs| {
      assert cs[..i + 1][..i] == cs[..i];
      ContextsBytesFailure(cs, i + 1);
    } else {
      assert cs[..i] == cs;
    }
  }

  /** The concatenation read from the front: the first context's bytes,
      then the rest. */
  lemma {:induction false} ContextsBytesCons(c: VC.VlanContext, cs: seq<VC.VlanContext>)
    requires VC.Serialize(c).Ok? && ContextsBytes(cs).Ok?
    ensures ContextsBytes([c] + cs) == Ok(VC.Serialize(c).value + ContextsBytes(cs).value)
    decreases |cs|
  {
    var all := [c] + cs;
    if cs != [] {
      var init := cs[..|cs| - 1];
      assert all[..|all| - 1] == [c] + init;
      assert all[|all| - 1] == cs[|cs| - 1];
      assert ContextsBytes(init).Ok?;
      ContextsBytesCons(c, init);
      var sc := VC.Serialize(c).value;
      var bi := ContextsBytes(init).value;
      var last := VC.Serialize(cs[|cs| - 1]).value;
      assert ContextsBytes(cs).value == bi + last;
      assert ContextsBytes(all).value == (sc + bi) + last;
      ConcatAssoc(sc, bi, last);
    } else {
      assert all[..0] == [];
      assert [] + VC.Serialize(c).value == VC.Serialize(c).value + [];
    }
  }

  /** Reading the contexts from `start` on, as the `while` loop of
      `deserialize` does: each 0x25 sub-TLV is decoded from its declared
      length plus 3 bytes and the cursor moves past it; a header cut short
      raises IndexError; any other sub-TLV type leaves the cursor where it
      is, so the loop never ends (NoTermination). */
  function Scan(value: Bytes, start: nat): (r: Result<seq<VC.VlanContext>>)
    decreases |value| - start
  {
    if start >= |value| - 1 then Ok([])
    else if start + 2 >= |value| then Err(IndexError)
    else
      var offset := value[start + 1] as int * 256 + value[start + 2] as int + 2;
      if value[start] != VC.TypeId then Err(NoTermination)
      else match VC.Deserialize(VC.Default, Slice(value, start, start + offset + 1))
        case Err(e) => Err(e)
        case Ok(c) =>
          match Scan(value, start + offset + 1)
          case Err(e) => Err(e)
          case Ok(rest) => Ok([c] + rest)
  }

  /** What `deserialize` leaves in the object: the R-tag must be set
      (`(x is 1) or 0` is falsy for a cleared bit, so ValueError), then the
      contexts found by the scan. */
  function Decoding(tlv: Bytes): (r: Result<RedundancyControl>)
    ensures |tlv| < 3 ==> r == Err(IndexError)
    ensures Tlv.Extract(tlv).Ok? ==>
              var value := Tlv.Extract(tlv).value.0;
              && ((|value| == 0 || value[0] < 128) ==> r == Err(ValueError("Invalid r tag status")))
              && (r.Ok? ==> Scan(value, 1) == Ok(r.value.vlanContexts))
    ensures r.Ok? ==> r.value.rTagStatus
  {
    match Tlv.Extract(tlv)
    case Err(e) => Err(e)
    case Ok((value, _)) =>
      if FromBigEndian(Slice(value, 0, 1)) / 128 != 1 then Err(ValueError("Invalid r tag status"))
      else if |value| > 1 then
        match Scan(value, 1)
        case Err(e) => Err(e)
        case Ok(cs) => Ok(RedundancyControl(true, cs))
      else Ok(RedundancyControl(true, []))
  }

  function Prepend(front: seq<VC.VlanContext>, r: Result<seq<VC.VlanContext>>): Result<seq<VC.VlanContext>> {
    match r
    case Err(e) => Err(e)
    case Ok(rest) => Ok(front + rest)
  }

  /** `deserialize`: checks the R-tag, then runs the cursor loop. It ends
      only when the scan does, which callers must ensure. */
  method Deserialize(tlv: Bytes) returns (r: Result<RedundancyControl>)
    requires Decoding(tlv) != Err(NoTermination)
    ensures r == Decoding(tlv)
  {
    var extracted := Tlv.Extract(tlv);
    if extracted.Err? {
      return Err(extracted.error);
    }
    var value := extracted.value.0;
    if FromBigEndian(Slice(value, 0, 1)) / 128 != 1 {
      return Err(ValueError("Invalid r tag status"));
    }
    var contexts: seq<VC.VlanContext> := [];
    if |value| > 1 {
      var scanned := ScanLoop(value);
      if scanned.Err? {
        return Err(scanned.error);
      }
      contexts := scanned.value;
    }
    return Ok(RedundancyControl(true, contexts));
  }

  /** The cursor just past the sub-TLV whose header is at `start`. */
  function SubTlvEnd(value: Bytes, start: nat): nat
    requires start + 2 < |value|
  {
    start + value[start + 1] as int * 256 + value[start + 2] as int + 3
  }

  lemma ScanStep(value: Bytes, start: nat, c: VC.VlanContext)
    requires start + 2 < |value| && value[start] == VC.TypeId
    requires VC.Deserialize(VC.Default, Slice(value, start, SubTlvEnd(value, start))) == Ok(c)
    ensures Scan(value, start) == Prepend([c], Scan(value, SubTlvEnd(value, start)))
  {
  }

  lemma ScanStepError(value: Bytes, start: nat, next: nat)
    requires start + 2 < |value| && value[start] == VC.TypeId && next == SubTlvEnd(value, start)
    requires VC.Deserialize(VC.Default, Slice(value, start, next)).Err?
    ensures Scan(value, start) == Err(VC.Deserialize(VC.Default, Slice(value, start, next)).error)
  {
  }

  lemma PrependAppend(front: seq<VC.VlanContext>, c: VC.VlanContext, r: Result<seq<VC.VlanContext>>)
    ensures Prepend(front, Prepend([c], r)) == Prepend(front + [c], r)
  {
    if r.Ok? {
      assert (front + [c]) + r.value == front + ([c] + r.value);
    }
  }

  /** The `while start < len(value) - 1` loop, appending each decoded
      context to the list. */
  method ScanLoop(value: Bytes) returns (r: Result<seq<VC.VlanContext>>)
    requires Scan(value, 1) != Err(NoTermination)
    ensures r == Scan(value, 1)
  {
    var contexts: seq<VC.VlanContext> := [];
    var start: nat := 1;
    PrependEmpty(contexts, Scan(value, 1));
    while start < |value| - 1
      invariant Scan(value, 1) == Prepend(contexts, Scan(value, start))
      decreases |value| - start
    {
      if start + 2 >= |value| {
        ScanShortHeader(value, start, contexts);
        return Err(IndexError);
      }
      var offset := value[start + 1] as int * 256 + value[start + 2] as int + 2;
      if value[start] == VC.TypeId {
        var next := start + offset + 1;
        var vlan := VC.Deserialize(VC.Default, Slice(value, start, next));
        if vlan.Err? {
          ScanStepError(value, start, next);
          return Err(vlan.error);
        }
        ScanAdvance(value, start, next, contexts, vlan.value);
        contexts := contexts + [vlan.value];
        start := next;
      } else {
        ScanForeign(value, start, contexts);
        assert false;
      }
    }
    ScanDone(value, start, contexts);
    return Ok(contexts);
  }

  /** One VLAN context read: the scan so far extends by it. */
  lemma ScanAdvance(value: Bytes, start: nat, next: nat, front: seq<VC.VlanContext>, c: VC.VlanContext)
    requires start + 2 < |value| && value[start] == VC.TypeId && next == SubTlvEnd(value, start)
    requires VC.Deserialize(VC.Default, Slice(value, start, next)) == Ok(c)
    requires Scan(value, 1) == Prepend(front, Scan(value, start))
    ensures Scan(value, 1) == Prepend(front + [c], Scan(value, next))
  {
    ScanStep(value, start, c);
    PrependAppend(front, c, Scan(value, next));
  }

  lemma PrependEmpty(front: seq<VC.VlanContext>, r: Result<seq<VC.VlanContext>>)
    requires front == []
    ensures Prepend(front, r) == r
  {
    if r.Ok? {
      assert [] + r.value == r.value;
    }
  }

  /** The scan stops with IndexError on a header cut short. */
  lemma ScanShortHeader(value: Bytes, start: nat, front: seq<VC.VlanContext>)
    requires start < |value| - 1 && start + 2 >= |value|
    ensures Prepend(front, Scan(value, start)) == Err(IndexError)
  {
  }

  /** A sub-TLV that is not a VLAN context stalls the scan. */
  lemma ScanForeign(value: Bytes, start: nat, front: seq<VC.VlanContext>)
    requires start + 2 < |value| && value[start] != VC.TypeId
    ensures Prepend(front, Scan(value, start)) == Err(NoTermination)
  {
  }

  /** At the end of the value the scan has found everything. */
  lemma ScanDone(value: Bytes, start: nat, front: seq<VC.VlanContext>)
    requires start >= |value| - 1
    ensures Prepend(front, Scan(value, start)) == Ok(front)
  {
    assert front + [] == front;
  }

  predicate AllValid(cs: seq<VC.VlanContext>) {
    forall i :: 0 <= i < |cs| ==> VC.Valid(cs[i])
  }

  /** Valid contexts serialize to at most 17 bytes each. */
  lemma {:induction false} ContextsBytesSize(cs: seq<VC.VlanContext>)
    requires AllValid(cs)
    ensures ContextsBytes(cs).Ok? && |ContextsBytes(cs).value| <= 17 * |cs|
    decreases |cs|
  {
    if cs != [] {
      ContextsBytesSize(cs[..|cs| - 1]);
    }
  }

  /** Scanning the serialized contexts placed after any prefix gives the
      contexts back. */
  lemma {:induction false} ScanContexts(prefix: Bytes, cs: seq<VC.VlanContext>)
    requires AllValid(cs)
    ensures ContextsBytes(cs).Ok? && Scan(prefix + ContextsBytes(cs).value, |prefix|) == Ok(cs)
    decreases |cs|
  {
    ContextsBytesSize(cs);
    if cs == [] {
      assert prefix + [] == prefix;
    } else {
      var c := cs[0];
      var tail := cs[1..];
      assert cs == [c] + tail;
      assert AllValid(tail);
      ContextsBytesSize(tail);
      ContextsBytesCons(c, tail);
      var sc := VC.Serialize(c).value;
      var bt := ContextsBytes(tail).value;
      var value := prefix + (sc + bt);
      var start := |prefix|;
      assert value[start..start + |sc|] == sc;
      assert value[start] == sc[0] && value[start + 1] == sc[1] && value[start + 2] == sc[2];
      assert SubTlvEnd(value, start) == start + |sc|;
      VC.RoundTrip(c);
      ScanStep(value, start, c);
      ScanContexts(prefix + sc, tail);
      ConcatAssoc(prefix, sc, bt);
    }
  }


  /** A redundancy control with the R-tag set and valid contexts (few
      enough to fit a 16-bit length) decodes to itself. */
  lemma RoundTrip(rc: RedundancyControl)
    requires rc.rTagStatus && AllValid(rc.vlanContexts) && 17 * |rc.vlanContexts| + 1 < 0x1_0000
    ensures Encoding(rc).Ok?
    ensures Decoding(Encoding(rc).value) == Ok(rc)
  {
    ScanContexts([0x80], rc.vlanContexts);
    ContextsBytesSize(rc.vlanContexts);
    var b := ContextsBytes(rc.vlanContexts).value;
    var value := [0x80] + b;
    assert Encoding(rc) == Tlv.Encapsulate(TypeId, |value|, value);
    var s := Encoding(rc).value;
    assert Tlv.Extract(s).value.0 == value;
    assert Slice(value, 0, 1) == [0x80];
    assert FromBigEndian([0x80]) == 0x80 by {
      assert [0x80][..0] == [];
    }
  }

  /** A cleared R-tag is serialized but rejected by `deserialize`. */
  lemma ClearedRTagRejected(rc: RedundancyControl)
    requires !rc.rTagStatus && Encoding(rc).Ok?
    ensures Decoding(Encoding(rc).value) == Err(ValueError("Invalid r tag status"))
  {
    var s := Encoding(rc).value;
    var value := Tlv.Extract(s).value.0;
    assert value == s[3..];
    assert Slice(value, 0, 1) == [0];
    assert FromBigEndian([0]) == 0 by {
      assert [0][..0] == [];
    }
  }

  /** An empty list is not refused: it gives the four-byte TLV. */
  lemma EmptyList(rTagStatus: bool)
    ensures Encoding(RedundancyControl(rTagStatus, [])) == Ok([TypeId, 0, 1, RTagByte(rTagStatus)])
  {
    assert ContextsBytes([]) == Ok([]);
    assert [RTagByte(rTagStatus)] + [] == [RTagByte(rTagStatus)];
    assert [TypeId, 1 / 256, 1 % 256] + [RTagByte(rTagStatus)] == [TypeId, 0, 1, RTagByte(rTagStatus)];
  }

  /** A sub-TLV other than a VLAN context makes the loop spin forever. */
  lemma ForeignSubTlvDoesNotTerminate()
    ensures Decoding([TypeId, 0, 4, 0x80, 0x26, 0, 0]) == Err(NoTermination)
  {
    var tlv: Bytes := [TypeId, 0, 4, 0x80, 0x26, 0, 0];
    var value := tlv[3..];
    assert Tlv.Extract(tlv).value.0 == value;
    assert Slice(value, 0, 1) == [0x80];
    assert FromBigEndian([0x80]) == 0x80 by {
      assert [0x80][..0] == [];
    }
  }
}
