/** The stream requirement database of the stream management task: for
    each end-station MAC, the talker or listener requirements it
    registered, keyed by stream id. */
module StreamRequirementDatabase {
  import opened Wrappers
  import Status = StreamStatusDatabase

  /** The kind of end station behind an entry ("talker" or "listener"). */
  datatype EndStation = Talker | Listener

  /** One entry: the kind of end station and its requirements, which the
      database stores and hands back without looking inside. */
  datatype Item<R> = Item(kind: EndStation, requirements: R)

  /** The event `add_requirement` reports: "NEW_" or "UDT_" followed by the
      upper-cased kind. */
  function RegistrationEvent(updated: bool, kind: EndStation): (e: Status.Event)
    ensures e.NewTalker? || e.UdtTalker? || e.NewListener? || e.UdtListener?
    ensures (e.UdtTalker? || e.UdtListener?) <==> updated
    ensures (e.NewTalker? || e.UdtTalker?) <==> kind == Talker
  {
    match kind
    case Talker => if updated then Status.UdtTalker else Status.NewTalker
    case Listener => if updated then Status.UdtListener else Status.NewListener
  }

  /** The entries of the MAC `mac`, or none when the MAC is unknown. */
  function EntriesOf<R>(data: map<string, map<string, Item<R>>>, mac: string): map<string, Item<R>> {
    if mac in data then data[mac] else map[]
  }

  /** The table after the entry for (mac, stream) is set to `item`: that
      entry holds `item`, every other entry is kept and none is added. */
  function Added<R>(data: map<string, map<string, Item<R>>>, mac: string, streamId: string, item: Item<R>)
    : (r: map<string, map<string, Item<R>>>)
    ensures r.Keys == data.Keys + {mac}
    ensures streamId in r[mac] && r[mac][streamId] == item
    ensures forall m, s :: m in data && s in data[m] && (m != mac || s != streamId) ==> s in r[m] && r[m][s] == data[m][s]
    ensures forall m, s :: m in r && s in r[m] && (m != mac || s != streamId) ==> m in data && s in data[m]
  {
    data[mac := EntriesOf(data, mac)[streamId := item]]
  }

  /** The table after the entry for (mac, stream) is dropped: every other
      entry is kept, and the MAC stays even without entries. */
  function Removed<R>(data: map<string, map<string, Item<R>>>, mac: string, streamId: string)
    : (r: map<string, map<string, Item<R>>>)
    requires mac in data
    ensures r.Keys == data.Keys && streamId !in r[mac]
    ensures forall m, s :: m in data && s in data[m] && (m != mac || s != streamId) ==> s in r[m] && r[m][s] == data[m][s]
    ensures forall m, s :: m in r && s in r[m] ==> s in data[m]
  {
    data[mac := data[mac] - {streamId}]
  }

  /** The MAC `mac` holds an entry of kind `kind` for the stream. */
  predicate Holds<R>(data: map<string, map<string, Item<R>>>, mac: string, streamId: string, kind: EndStation) {
    mac in data && streamId in data[mac] && data[mac][streamId].kind == kind
  }

  /** The talker requirements for the stream: those of the first MAC, in
      insertion order, that holds a talker entry for it. */
  function TalkerOf<R>(macs: seq<string>, data: map<string, map<string, Item<R>>>, streamId: string): Option<R>
  {
    if macs == [] then None
    else if Holds(data, macs[0], streamId, Talker) then Some(data[macs[0]][streamId].requirements)
    else TalkerOf(macs[1..], data, streamId)
  }

  /** The listener requirements for the stream, one per MAC that holds a
      listener entry for it, in MAC insertion order. */
  function ListenersOf<R>(macs: seq<string>, data: map<string, map<string, Item<R>>>, streamId: string): seq<R>
  {
    if macs == [] then []
    else
      var last := macs[|macs| - 1];
      ListenersOf(macs[..|macs| - 1], data, streamId)
      + (if Holds(data, last, streamId, Listener) then [data[last][streamId].requirements] else [])
  }

  /** The talker found is the first talker entry for the stream in MAC
      order; none is found exactly when no MAC holds one. */
  lemma {:induction false} TalkerOfFirst<R>(macs: seq<string>, data: map<string, map<string, Item<R>>>, streamId: string)
    ensures TalkerOf(macs, data, streamId).None? <==> forall i :: 0 <= i < |macs| ==> !Holds(data, macs[i], streamId, Talker)
    ensures TalkerOf(macs, data, streamId).Some? ==>
              exists i :: && 0 <= i < |macs| && Holds(data, macs[i], streamId, Talker)
                          && TalkerOf(macs, data, streamId).value == data[macs[i]][streamId].requirements
                          && forall j :: 0 <= j < i ==> !Holds(data, macs[j], streamId, Talker)
  {
    if macs != [] {
      TalkerOfFirst(macs[1..], data, streamId);
      if !Holds(data, macs[0], streamId, Talker) {
        assert forall i :: 1 <= i < |macs| ==> macs[i] == macs[1..][i - 1];
        if TalkerOf(macs, data, streamId).Some? {
          var k :| && 0 <= k < |macs[1..]| && Holds(data, macs[1..][k], streamId, Talker)
                   && TalkerOf(macs[1..], data, streamId).value == data[macs[1..][k]][streamId].requirements
                   && forall j :: 0 <= j < k ==> !Holds(data, macs[1..][j], streamId, Talker);
          assert forall j :: 0 <= j < k + 1 ==> !Holds(data, macs[j], streamId, Talker) by {
            forall j | 0 <= j < k + 1
              ensures !Holds(data, macs[j], streamId, Talker)
            {
              if j > 0 {
                assert macs[j] == macs[1..][j - 1];
              }
            }
          }
          assert Holds(data, macs[k + 1], streamId, Talker);
        }
      }
    }
  }

  /** No listener is found exactly when no MAC holds a listener entry for
      the stream, and never more than one per MAC. */
  lemma {:induction false} ListenersOfNone<R>(macs: seq<string>, data: map<string, map<string, Item<R>>>, streamId: string)
    ensures ListenersOf(macs, data, streamId) == [] <==> forall i :: 0 <= i < |macs| ==> !Holds(data, macs[i], streamId, Listener)
    ensures |ListenersOf(macs, data, streamId)| <= |macs|
  {
    if macs != [] {
      var init := macs[..|macs| - 1];
      ListenersOfNone(init, data, streamId);
      assert forall i :: 0 <= i < |init| ==> init[i] == macs[i];
    }
  }

  /** Entries of a MAC outside the list do not change what is found. */
  lemma {:induction false} ListenersOfFrame<R>(macs: seq<string>, data: map<string, map<string, Item<R>>>,
                                               mac: string, entries: map<string, Item<R>>, streamId: string)
    requires mac !in macs
    ensures ListenersOf(macs, data[mac := entries], streamId) == ListenersOf(macs, data, streamId)
  {
    if macs != [] {
      ListenersOfFrame(macs[..|macs| - 1], data, mac, entries, streamId);
    }
  }

  /** A listener registered from a MAC seen for the first time comes last
      in the listener list of its stream. */
  lemma NewMacListenerLast<R>(macs: seq<string>, data: map<string, map<string, Item<R>>>,
                              mac: string, streamId: string, r: R)
    requires mac !in macs
    ensures ListenersOf(macs + [mac], data[mac := map[streamId := Item(Listener, r)]], streamId)
            == ListenersOf(macs, data, streamId) + [r]
  {
    var after := data[mac := map[streamId := Item(Listener, r)]];
    assert (macs + [mac])[..|macs|] == macs;
    ListenersOfFrame(macs, data, mac, map[streamId := Item(Listener, r)], streamId);
    assert Holds(after, mac, streamId, Listener);
  }

  class RequirementDb<R> {
    /** The MACs in the order they were first registered: the key order of
        the outer dictionary. MACs are never removed. */
    var macs: seq<string>
    var data: map<string, map<string, Item<R>>>

    ghost predicate Valid()
      reads this
    {
      && (forall i, j :: 0 <= i < j < |macs| ==> macs[i] != macs[j])
      && (forall m :: m in data <==> m in macs)
    }

    constructor ()
      ensures Valid() && macs == [] && data == map[]
    {
      macs := [];
      data := map[];
    }

    /** `add_requirement`: the entry for (mac, stream) is written over
        whatever was there, talker or listener; the event says whether one
        was there. A new MAC goes to the end of the order. */
    method AddRequirement(streamId: string, mac: string, kind: EndStation, requirements: R) returns (event: Status.Event)
      requires Valid()
      modifies this
      ensures Valid()
      ensures event == RegistrationEvent(mac in old(data) && streamId in old(data)[mac], kind)
      ensures data == Added(old(data), mac, streamId, Item(kind, requirements))
      ensures macs == if mac in old(data) then old(macs) else old(macs) + [mac]
    {
      var updated := false;
      if mac !in data || |data[mac]| == 0 {
        if mac !in data {
          macs := macs + [mac];
        }
        data := data[mac := map[]];
      }
      if streamId in data[mac] {
        updated := true;
      }
      data := data[mac := data[mac][streamId := Item(kind, requirements)]];
      event := RegistrationEvent(updated, kind);
    }

    /** `remove_requirement`: an existing entry is removed and returned;
        otherwise nothing changes. The MAC stays even when its last entry
        goes. */
    method RemoveRequirement(mac: string, streamId: string) returns (r: Option<Item<R>>)
      requires Valid()
      modifies this
      ensures Valid() && macs == old(macs)
      ensures r.Some? <==> mac in old(data) && streamId in old(data)[mac]
      ensures r.Some? ==> && r.value == old(data)[mac][streamId]
                          && data == Removed(old(data), mac, streamId)
      ensures r.None? ==> data == old(data)
    {
      r := None;
      if mac in data && |data[mac]| != 0 {
        if streamId in data[mac] {
          r := Some(data[mac][streamId]);
          data := data[mac := data[mac] - {streamId}];
        }
      }
    }

    /** `get_talker_by_stream_id`: MACs are visited in order and the first
        talker entry for the stream is returned. */
    method GetTalker(streamId: string) returns (r: Option<R>)
      ensures r == TalkerOf(macs, data, streamId)
    {
      var i := 0;
      while i < |macs|
        invariant 0 <= i <= |macs|
        invariant TalkerOf(macs, data, streamId) == TalkerOf(macs[i..], data, streamId)
      {
        assert macs[i..][1..] == macs[i + 1..];
        var mac := macs[i];
        if mac in data && streamId in data[mac] && data[mac][streamId].kind == Talker {
          return Some(data[mac][streamId].requirements);
        }
        i := i + 1;
      }
      return None;
    }

    /** `get_listeners_by_stream_id`: MACs are visited in order and every
        listener entry for the stream is collected. */
    method GetListeners(streamId: string) returns (listeners: seq<R>)
      ensures listeners == ListenersOf(macs, data, streamId)
    {
      listeners := [];
      var i := 0;
      while i < |macs|
        invariant 0 <= i <= |macs|
        invariant listeners == ListenersOf(macs[..i], data, streamId)
      {
        assert macs[..i + 1][..i] == macs[..i];
        var mac := macs[i];
        if mac in data && streamId in data[mac] && data[mac][streamId].kind == Listener {
          listeners := listeners + [data[mac][streamId].requirements];
        }
        i := i + 1;
      }
      assert macs[..i] == macs;
    }

    /** `get_endstations_by_stream_id`: the talker and the listeners. */
    method GetEndStations(streamId: string) returns (talker: Option<R>, listeners: seq<R>)
      ensures talker == TalkerOf(macs, data, streamId)
      ensures listeners == ListenersOf(macs, data, streamId)
    {
      talker := GetTalker(streamId);
      listeners := GetListeners(streamId);
    }
  }
}
