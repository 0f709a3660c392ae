/** The stream management task: it records the requirements the protocol
    connector registers, drives each stream through its lifecycle, asks the
    CNC connector for reservations and withdrawals, and reports results
    back to the protocol connector. Sending onto a queue is modelled as
    appending to an outbox. */
module StreamManagement {
  import opened Wrappers
  import opened MsgTypes
  import Req = StreamRequirementDatabase
  import Status = StreamStatusDatabase

  /** The queue a packet is sent to. */
  datatype Destination = CncConnector | ProtocolConnector

  /** A reservation result as the CNC connector reports it. */
  datatype ReservationResult<C> = ReservationResult(streamId: string, talkerConf: C, listenersConf: seq<C>,
                                                    streamStatus: Status.StreamStatus)

  /** The message dictionaries the handlers send; NoPayload is a message
      of None. */
  datatype Payload<R, C> =
    | NoPayload
    | StreamSnapshot(streamId: string, talker: Option<R>, listeners: seq<R>)
    | ListenerRequirement(streamId: string, requirement: R)
    | StreamOnly(streamId: string)
    | ListenerMac(streamId: string, mac: string)
    | ReservationReport(result: ReservationResult<C>, state: Status.StreamState)

  datatype Packet<R, C> = Packet(destination: Destination, msgType: Option<MsgType>, payload: Payload<R, C>)

  /** The payload a listener registration sends for the request type it
      caused: the whole stream for a new stream, the listener's own
      requirement for an added or updated listener. */
  function ListenerPayload<R, C>(msgType: MsgType, streamId: string, requirement: R, talker: Option<R>, listeners: seq<R>)
    : (p: Payload<R, C>)
    ensures msgType == CcAddStreamReq ==> p == StreamSnapshot(streamId, talker, listeners)
    ensures msgType in {CcAddListenerReq, CcUpdateListenerReq} ==> p == ListenerRequirement(streamId, requirement)
    ensures msgType !in {CcAddStreamReq, CcAddListenerReq, CcUpdateListenerReq} ==> p == NoPayload
  {
    if msgType == CcAddStreamReq then StreamSnapshot(streamId, talker, listeners)
    else if msgType == CcAddListenerReq || msgType == CcUpdateListenerReq then ListenerRequirement(streamId, requirement)
    else NoPayload
  }

  /** The event a deregistration raises on a stream that is not withdrawn:
      a listener left over keeps the stream with one listener less; with no
      listener left the stream is removed, keeping a remnant when a talker
      is still registered. */
  function DeregistrationEvent(listenersLeft: bool, talkerLeft: bool): (e: Status.Event)
    ensures e == Status.RemListener <==> listenersLeft
    ensures e == Status.RemStream <==> !listenersLeft && !talkerLeft
    ensures e == Status.RemStreamWithRemnant <==> !listenersLeft && talkerLeft
  {
    if listenersLeft then Status.RemListener
    else if talkerLeft then Status.RemStreamWithRemnant
    else Status.RemStream
  }

  /** The payload a listener deregistration sends for the request type it
      caused. */
  function RemovalPayload<R, C>(msgType: Option<MsgType>, streamId: string, mac: string): (p: Payload<R, C>)
    ensures msgType == Some(CcRemListenerReq) ==> p == ListenerMac(streamId, mac)
    ensures msgType == Some(CcRemoveStreamReq) ==> p == StreamOnly(streamId)
    ensures msgType !in {Some(CcRemListenerReq), Some(CcRemoveStreamReq)} ==> p == NoPayload
  {
    if msgType == Some(CcRemListenerReq) then ListenerMac(streamId, mac)
    else if msgType == Some(CcRemoveStreamReq) then StreamOnly(streamId)
    else NoPayload
  }

  /** The status table once a reservation result is stored for a known
      stream, before the result event is applied. */
  function Stored<C>(data: map<string, Status.Item<C>>, result: ReservationResult<C>): (r: map<string, Status.Item<C>>)
    requires result.streamId in data
    ensures r.Keys == data.Keys
    ensures forall k :: k in data && k != result.streamId ==> r[k] == data[k]
    ensures r[result.streamId].state == data[result.streamId].state
    ensures r[result.streamId].status == Some(result.streamStatus)
    ensures r[result.streamId].talkerConfig == Some(result.talkerConf)
    ensures r[result.streamId].listenerConfigs == result.listenersConf
  {
    var item := data[result.streamId];
    data[result.streamId := item.(status := Some(result.streamStatus), talkerConfig := Some(result.talkerConf),
                                  listenerConfigs := result.listenersConf)]
  }

  class StreamManagementSM<R, C> {
    const srdb: Req.RequirementDb<R>
    const ssdb: Status.StatusDb<C>
    /** Every packet sent so far, oldest first. */
    var outbox: seq<Packet<R, C>>

    ghost predicate Valid()
      reads srdb
    {
      srdb.Valid()
    }

    constructor ()
      ensures Valid() && fresh(srdb) && fresh(ssdb)
      ensures srdb.macs == [] && srdb.data == map[] && ssdb.data == map[] && outbox == []
    {
      srdb := new Req.RequirementDb();
      ssdb := new Status.StatusDb();
      outbox := [];
    }

    /** The first two steps of both registrations: the requirement is
        stored and the stream advanced by the event that reports; a
        registration event never fails to apply. */
    method Register(streamId: string, mac: string, kind: Req.EndStation, requirement: R)
      returns (msgType: Result<Option<MsgType>>)
      requires Valid()
      modifies srdb, ssdb
      ensures Valid()
      ensures srdb.data == Req.Added(old(srdb.data), mac, streamId, Req.Item(kind, requirement))
      ensures srdb.macs == if mac in old(srdb.data) then old(srdb.macs) else old(srdb.macs) + [mac]
      ensures var advanced := Status.Advance(old(ssdb.data), Req.RegistrationEvent(mac in old(srdb.data) && streamId in old(srdb.data)[mac], kind), streamId);
              ssdb.data == advanced.0 && msgType == advanced.1 && msgType.Ok?
    {
      ghost var status0 := ssdb.data;
      var event := srdb.AddRequirement(streamId, mac, kind, requirement);
      assert ssdb.data == status0;
      msgType := ssdb.AdvanceState(event, streamId);
    }

    /** `register_talker_requirements`: store the talker's requirement,
        advance the stream by the registration event, and send the whole
        stream to the CNC connector exactly when that produced a request. */
    method RegisterTalker(streamId: string, mac: string, requirement: R)
      requires Valid()
      modifies this, srdb, ssdb
      ensures Valid()
      ensures srdb.data == Req.Added(old(srdb.data), mac, streamId, Req.Item(Req.Talker, requirement))
      ensures srdb.macs == if mac in old(srdb.data) then old(srdb.macs) else old(srdb.macs) + [mac]
      ensures var advanced := Status.Advance(old(ssdb.data), Req.RegistrationEvent(mac in old(srdb.data) && streamId in old(srdb.data)[mac], Req.Talker), streamId);
              && ssdb.data == advanced.0 && advanced.1.Ok?
              && outbox == old(outbox) + if advanced.1.value.None? then [] else
                   [Packet(CncConnector, advanced.1.value,
                           StreamSnapshot(streamId, Req.TalkerOf(srdb.macs, srdb.data, streamId),
                                          Req.ListenersOf(srdb.macs, srdb.data, streamId)))]
    {
      var msgType := Register(streamId, mac, Req.Talker, requirement);
      if msgType.value.Some? {
        SendStreamSnapshot(msgType.value.value, streamId);
      }
    }

    /** The packet a talker registration sends: the whole stream. */
    method SendStreamSnapshot(msgType: MsgType, streamId: string)
      modifies this
      ensures outbox == old(outbox) + [Packet(CncConnector, Some(msgType),
                                              StreamSnapshot(streamId, Req.TalkerOf(srdb.macs, srdb.data, streamId),
                                                             Req.ListenersOf(srdb.macs, srdb.data, streamId)))]
    {
      var talker, listeners := srdb.GetEndStations(streamId);
      outbox := outbox + [Packet(CncConnector, Some(msgType), StreamSnapshot(streamId, talker, listeners))];
    }

    /** `register_listener_requirements`: store the listener's requirement,
        advance the stream, and send one packet to the CNC connector exactly
        when that produced a request. */
    method RegisterListener(streamId: string, mac: string, requirement: R)
      requires Valid()
      modifies this, srdb, ssdb
      ensures Valid()
      ensures srdb.data == Req.Added(old(srdb.data), mac, streamId, Req.Item(Req.Listener, requirement))
      ensures srdb.macs == if mac in old(srdb.data) then old(srdb.macs) else old(srdb.macs) + [mac]
      ensures var advanced := Status.Advance(old(ssdb.data), Req.RegistrationEvent(mac in old(srdb.data) && streamId in old(srdb.data)[mac], Req.Listener), streamId);
              && ssdb.data == advanced.0 && advanced.1.Ok?
              && outbox == old(outbox) + if advanced.1.value.None? then [] else
                   [Packet(CncConnector, advanced.1.value,
                           ListenerPayload(advanced.1.value.value, streamId, requirement,
                                           Req.TalkerOf(srdb.macs, srdb.data, streamId),
                                           Req.ListenersOf(srdb.macs, srdb.data, streamId)))]
    {
      var msgType := Register(streamId, mac, Req.Listener, requirement);
      if msgType.value.Some? {
        SendListenerRequest(msgType.value.value, streamId, requirement);
      }
    }

    /** The packet a listener registration sends for the request type
        `msgType`. */
    method SendListenerRequest(msgType: MsgType, streamId: string, requirement: R)
      modifies this
      ensures outbox == old(outbox) + [Packet(CncConnector, Some(msgType),
                                              ListenerPayload(msgType, streamId, requirement,
                                                              Req.TalkerOf(srdb.macs, srdb.data, streamId),
                                                              Req.ListenersOf(srdb.macs, srdb.data, streamId)))]
    {
      var message: Payload<R, C> := NoPayload;
      if msgType == CcAddStreamReq {
        var talker, listeners := srdb.GetEndStations(streamId);
        message := StreamSnapshot(streamId, talker, listeners);
      } else if msgType == CcAddListenerReq || msgType == CcUpdateListenerReq {
        message := ListenerRequirement(streamId, requirement);
      }
      outbox := outbox + [Packet(CncConnector, Some(msgType), message)];
    }

    /** `deregister_talker_requirements`: drop the talker's entry; unless the
        stream is withdrawn, remove the stream (keeping a remnant when
        listeners remain) and send one packet to the CNC connector. */
    method DeregisterTalker(streamId: string, mac: string)
      requires Valid()
      modifies this, srdb, ssdb
      ensures Valid() && srdb.macs == old(srdb.macs)
      ensures srdb.data == if mac in old(srdb.data) && streamId in old(srdb.data)[mac]
                           then Req.Removed(old(srdb.data), mac, streamId) else old(srdb.data)
      ensures old(ssdb.IsState(streamId, Status.Withdrawn)) ==> ssdb.data == old(ssdb.data) && outbox == old(outbox)
      ensures !old(ssdb.IsState(streamId, Status.Withdrawn)) ==>
                var listenersLeft := Req.ListenersOf(srdb.macs, srdb.data, streamId) != [];
                var event := if listenersLeft then Status.RemStreamWithRemnant else Status.RemStream;
                var advanced := Status.Advance(old(ssdb.data), event, streamId);
                && ssdb.data == advanced.0 && advanced.1.Ok?
                && outbox == old(outbox) + [Packet(CncConnector, advanced.1.value, StreamOnly(streamId))]
    {
      var _ := srdb.RemoveRequirement(mac, streamId);
      if !ssdb.IsState(streamId, Status.Withdrawn) {
        var listeners := srdb.GetListeners(streamId);
        var event := if |listeners| == 0 then Status.RemStream else Status.RemStreamWithRemnant;
        var msgType := ssdb.AdvanceState(event, streamId);
        if msgType.Ok? {
          outbox := outbox + [Packet(CncConnector, msgType.value, StreamOnly(streamId))];
        }
      }
    }

    /** `deregister_listener_requirements`: drop the listener's entry;
        unless the stream is withdrawn, remove the listener, or the stream
        when no listener is left; always send one packet to the CNC
        connector, of no type when nothing was requested. */
    method DeregisterListener(streamId: string, mac: string)
      requires Valid()
      modifies this, srdb, ssdb
      ensures Valid() && srdb.macs == old(srdb.macs)
      ensures srdb.data == if mac in old(srdb.data) && streamId in old(srdb.data)[mac]
                           then Req.Removed(old(srdb.data), mac, streamId) else old(srdb.data)
      ensures old(ssdb.IsState(streamId, Status.Withdrawn)) ==>
                ssdb.data == old(ssdb.data) && outbox == old(outbox) + [Packet(CncConnector, None, NoPayload)]
      ensures !old(ssdb.IsState(streamId, Status.Withdrawn)) ==>
                var event := DeregistrationEvent(Req.ListenersOf(srdb.macs, srdb.data, streamId) != [],
                                                 Req.TalkerOf(srdb.macs, srdb.data, streamId).Some?);
                var advanced := Status.Advance(old(ssdb.data), event, streamId);
                && ssdb.data == advanced.0 && advanced.1.Ok?
                && outbox == old(outbox) + [Packet(CncConnector, advanced.1.value,
                                                   RemovalPayload(advanced.1.value, streamId, mac))]
    {
      var _ := srdb.RemoveRequirement(mac, streamId);
      var listeners := srdb.GetListeners(streamId);
      var msgType: Option<MsgType> := None;
      if !ssdb.IsState(streamId, Status.Withdrawn) {
        var event := Status.RemListener;
        if |listeners| == 0 {
          var talker := srdb.GetTalker(streamId);
          event := if talker.None? then Status.RemStream else Status.RemStreamWithRemnant;
        }
        var advanced := ssdb.AdvanceState(event, streamId);
        if advanced.Ok? {
          msgType := advanced.value;
        }
      }
      var message: Payload<R, C> := NoPayload;
      if msgType == Some(CcRemListenerReq) {
        message := ListenerMac(streamId, mac);
      } else if msgType == Some(CcRemoveStreamReq) {
        message := StreamOnly(streamId);
      }
      outbox := outbox + [Packet(CncConnector, msgType, message)];
    }

    /** The first steps of `process_reservation_result`: the status, the
        talker configuration and the listener configurations are stored in
        turn; the first store raises KeyError for an unknown stream. */
    method StoreResult(result: ReservationResult<C>) returns (err: Option<Exception>)
      modifies ssdb
      ensures err.Some? <==> result.streamId !in old(ssdb.data)
      ensures err.Some? ==> err.value == KeyError && ssdb.data == old(ssdb.data)
      ensures err.None? ==> ssdb.data == Stored(old(ssdb.data), result)
    {
      var streamId := result.streamId;
      err := ssdb.UpdateStatus(streamId, result.streamStatus);
      if err.Some? {
        return;
      }
      err := ssdb.UpdateTalkerConf(streamId, result.talkerConf);
      err := ssdb.UpdateListenerConfs(streamId, result.listenersConf);
      assert ssdb.data == Stored(old(ssdb.data), result);
    }

    /** `process_reservation_result`: store the reported status and
        configurations, apply the result event, and report the result with
        the stream's new state to the protocol connector. An unknown stream
        raises KeyError before anything changes; a status without a
        failure code raises KeyError after the report was stored. */
    method ProcessReservationResult(result: ReservationResult<C>) returns (err: Option<Exception>)
      modifies this, ssdb
      ensures result.streamId !in old(ssdb.data) ==>
                err == Some(KeyError) && ssdb.data == old(ssdb.data) && outbox == old(outbox)
      ensures result.streamId in old(ssdb.data) ==>
                var advanced := Status.Advance(Stored(old(ssdb.data), result), Status.NewResult, result.streamId);
                && ssdb.data == advanced.0
                && (advanced.1.Err? ==> err == Some(advanced.1.error) && outbox == old(outbox))
                && (advanced.1.Ok? ==>
                      && err.None?
                      && outbox == old(outbox) + [Packet(ProtocolConnector, advanced.1.value,
                                                         ReservationReport(result, ssdb.data[result.streamId].state))])
    {
      var streamId := result.streamId;
      err := StoreResult(result);
      if err.Some? {
        return;
      }
      var msgType := ssdb.AdvanceState(Status.NewResult, streamId);
      if msgType.Err? {
        return Some(msgType.error);
      }
      var state := ssdb.data[streamId].state;
      outbox := outbox + [Packet(ProtocolConnector, msgType.value, ReservationReport(result, state))];
    }
  }
}
