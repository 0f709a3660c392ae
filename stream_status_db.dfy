/** The stream status database of the stream management task: the
    lifecycle state of every stream and the configuration the last
    reservation result reported for it. */
module StreamStatusDatabase {
  import opened Wrappers
  import opened MsgTypes

  datatype StreamState = New | Pending | Deployed | Withdrawn | Error

  /** A stream status as a reservation result reports it. Only the
      "failure-code" entry of its status info is ever read; None stands
      for a status info without that key. */
  datatype StreamStatus = StreamStatus(failureCode: Option<int>)

  /** One stream: its state, the last reported status and the talker and
      listener configurations reported with it. */
  datatype Item<C> = Item(state: StreamState, status: Option<StreamStatus>,
                          talkerConfig: Option<C>, listenerConfigs: seq<C>)

  /** The events `advance_state` reacts to; Unrecognized stands for every
      other event text. */
  datatype Event =
    | NewTalker
    | UdtTalker
    | NewListener
    | UdtListener
    | RemStream
    | RemStreamWithRemnant
    | RemListener
    | NewResult
    | Unrecognized

  /** The entry `add_stream` creates. */
  function NewItem<C>(): (item: Item<C>)
    ensures item.state == New && item.status.None? && item.talkerConfig.None? && item.listenerConfigs == []
  {
    Item(New, None, None, [])
  }

  /** The reservation succeeded: the status reports failure code 0. Reading
      a missing status raises AttributeError and a missing failure code
      raises KeyError. */
  function Succeeded(status: Option<StreamStatus>): (r: Result<bool>)
    ensures r.Err? <==> status.None? || status.value.failureCode.None?
    ensures r.Err? ==> r.error == if status.None? then AttributeError else KeyError
    ensures r.Ok? ==> (r.value <==> status.value.failureCode.value == 0)
  {
    if status.None? then Err(AttributeError)
    else if status.value.failureCode.None? then Err(KeyError)
    else Ok(status.value.failureCode.value == 0)
  }

  /** The lifecycle of a known stream: its next state and the request type
      to emit, if any, for one event. */
  function Transition(state: StreamState, status: Option<StreamStatus>, event: Event): (r: Result<(StreamState, Option<MsgType>)>)
    // a withdrawn stream restarts as new, whatever the event
    ensures state == Withdrawn ==> r == Ok((New, None))
    // only a result for a stream that awaits or holds a reservation reads the status
    ensures r.Err? <==> event == NewResult && state in {Pending, Deployed, Error} && Succeeded(status).Err?
    ensures r.Err? ==> r.error == Succeeded(status).error
    // an event that does not apply changes nothing and emits nothing
    ensures event == Unrecognized && state != Withdrawn ==> r == Ok((state, None))
    ensures r.Ok? && r.value.1.None? ==> r.value.0 == state || state == Withdrawn
    // a new stream is requested exactly when a new end station joins a new stream
    ensures r.Ok? && r.value.1 == Some(CcAddStreamReq) <==> state == New && event in {NewTalker, NewListener}
    // every request sent to the CNC leaves the stream pending, withdrawn or new again
    ensures r.Ok? && r.value.1.Some? && IsCncRequest(r.value.1.value) ==>
              r.value.0 == (match event
                            case RemStream => Withdrawn
                            case RemStreamWithRemnant => New
                            case _ => Pending)
    // a result is always reported back, and nothing else is
    ensures state != Withdrawn && event == NewResult ==> r.Ok? ==> r.value.1 == Some(SmStreamStatusInd)
    ensures r.Ok? && r.value.1 == Some(SmStreamStatusInd) ==> event == NewResult
    // a stream is deployed only by a successful result, or stays deployed
    ensures r.Ok? && r.value.0 == Deployed ==>
              state == Deployed || (event == NewResult && Succeeded(status) == Ok(true))
    ensures r.Ok? && r.value.0 == Error ==> state == Error || event == NewResult
    ensures r.Ok? && r.value.0 == Withdrawn ==> event == RemStream
  {
    if state == Withdrawn then Ok((New, None))
    else match event
      case NewTalker =>
        if state == New then Ok((Pending, Some(CcAddStreamReq))) else Ok((state, None))
      case UdtTalker =>
        if state != New then Ok((Pending, Some(CcUpdateStreamReq))) else Ok((state, None))
      case NewListener =>
        if state == New then Ok((Pending, Some(CcAddStreamReq)))
        else if state == Pending then Ok((Pending, Some(CcAddListenerReq)))
        else if state == Error then Ok((Pending, Some(CcAddListenerReq)))
        else Ok((state, None))
      case UdtListener =>
        if state != New then Ok((Pending, Some(CcUpdateListenerReq))) else Ok((state, None))
      case RemStream => Ok((Withdrawn, Some(CcRemoveStreamReq)))
      case RemStreamWithRemnant => Ok((New, Some(CcRemoveStreamReq)))
      case RemListener => Ok((Pending, Some(CcRemListenerReq)))
      case NewResult =>
        if state == Pending || state == Deployed || state == Error then
          match Succeeded(status)
          case Err(e) => Err(e)
          case Ok(success) => Ok((if success then Deployed else Error, Some(SmStreamStatusInd)))
        else Ok((state, Some(SmStreamStatusInd)))
      case Unrecognized => Ok((state, None))
  }

  /** `advance_state` on the whole table: an unknown stream is added as new
      and nothing is emitted, whatever the event; a known one follows
      Transition, and only its state changes. */
  function Advance<C>(data: map<string, Item<C>>, event: Event, streamId: string): (r: (map<string, Item<C>>, Result<Option<MsgType>>))
    ensures streamId !in data ==> r == (data[streamId := NewItem()], Ok(None))
    ensures streamId in r.0 && r.0.Keys == data.Keys + {streamId}
    ensures forall k :: k in data && k != streamId ==> r.0[k] == data[k]
    ensures streamId in data ==> r.0[streamId] == data[streamId].(state := r.0[streamId].state)
    ensures r.1.Err? ==> r.0 == data && event == NewResult
  {
    if streamId !in data then (data[streamId := NewItem()], Ok(None))
    else match Transition(data[streamId].state, data[streamId].status, event)
      case Err(e) => (data, Err(e))
      case Ok((state, msgType)) => (data[streamId := data[streamId].(state := state)], Ok(msgType))
  }

  /** A deployed stream whose status reports success stays deployed under
      further results, repeated talker registrations and unrecognised
      events. */
  lemma {:induction false} DeployedStable(status: Option<StreamStatus>, events: seq<Event>)
    requires Succeeded(status) == Ok(true)
    requires forall i :: 0 <= i < |events| ==> events[i] in {NewResult, NewTalker, Unrecognized}
    ensures Replay(Deployed, status, events) == Ok(Deployed)
  {
    if events != [] {
      DeployedStable(status, events[1..]);
    }
  }

  /** The state reached from `state` by a sequence of events, or the first
      exception raised on the way. */
  function Replay(state: StreamState, status: Option<StreamStatus>, events: seq<Event>): (r: Result<StreamState>)
    // a stream is deployed only by a successful result, withdrawn only by a removal
    ensures r.Ok? && r.value == Deployed ==> state == Deployed || (NewResult in events && Succeeded(status) == Ok(true))
    ensures r.Ok? && r.value == Withdrawn ==> state == Withdrawn || RemStream in events
    decreases |events|
  {
    if events == [] then Ok(state)
    else match Transition(state, status, events[0])
      case Err(e) => Err(e)
      case Ok((next, _)) => Replay(next, status, events[1..])
  }

  /** Advance on a known stream whose transition is known. */
  lemma AdvanceKnown<C>(data: map<string, Item<C>>, event: Event, streamId: string,
                        state: StreamState, msgType: Option<MsgType>)
    requires streamId in data
    requires Transition(data[streamId].state, data[streamId].status, event) == Ok((state, msgType))
    ensures Advance(data, event, streamId) == (data[streamId := data[streamId].(state := state)], Ok(msgType))
  {
  }

  /** Advance on a known stream whose transition fails. */
  lemma AdvanceFails<C>(data: map<string, Item<C>>, event: Event, streamId: string, e: Exception)
    requires streamId in data
    requires Transition(data[streamId].state, data[streamId].status, event) == Err(e)
    ensures Advance(data, event, streamId) == (data, Err(e))
  {
  }

  class StatusDb<C> {
    var data: map<string, Item<C>>

    constructor ()
      ensures data == map[]
    {
      data := map[];
    }

    /** `is_state`: false for an unknown stream. */
    function IsState(streamId: string, state: StreamState): (r: bool)
      reads this
      ensures r <==> streamId in data && data[streamId].state == state
    {
      if streamId in data then data[streamId].state == state else false
    }

    /** `add_stream`: the stream starts over as a new entry. */
    method AddStream(streamId: string)
      modifies this
      ensures data == old(data)[streamId := NewItem()]
    {
      data := data[streamId := NewItem()];
    }

    /** `update_stream_state`: a missing stream raises KeyError. */
    method UpdateStreamState(streamId: string, state: StreamState) returns (err: Option<Exception>)
      modifies this
      ensures err.Some? <==> streamId !in old(data)
      ensures err.Some? ==> err.value == KeyError && data == old(data)
      ensures err.None? ==> data == old(data)[streamId := old(data)[streamId].(state := state)]
    {
      if streamId !in data {
        return Some(KeyError);
      }
      data := data[streamId := data[streamId].(state := state)];
      return None;
    }

    /** `update_talker_conf`: a missing stream raises KeyError. */
    method UpdateTalkerConf(streamId: string, configuration: C) returns (err: Option<Exception>)
      modifies this
      ensures err.Some? <==> streamId !in old(data)
      ensures err.Some? ==> err.value == KeyError && data == old(data)
      ensures err.None? ==> data == old(data)[streamId := old(data)[streamId].(talkerConfig := Some(configuration))]
    {
      if streamId !in data {
        return Some(KeyError);
      }
      data := data[streamId := data[streamId].(talkerConfig := Some(configuration))];
      return None;
    }

    /** `update_listeners_confs`: a missing stream raises KeyError. */
    method UpdateListenerConfs(streamId: string, configurations: seq<C>) returns (err: Option<Exception>)
      modifies this
      ensures err.Some? <==> streamId !in old(data)
      ensures err.Some? ==> err.value == KeyError && data == old(data)
      ensures err.None? ==> data == old(data)[streamId := old(data)[streamId].(listenerConfigs := configurations)]
    {
      if streamId !in data {
        return Some(KeyError);
      }
      data := data[streamId := data[streamId].(listenerConfigs := configurations)];
      return None;
    }

    /** `update_status`: a missing stream raises KeyError. */
    method UpdateStatus(streamId: string, status: StreamStatus) returns (err: Option<Exception>)
      modifies this
      ensures err.Some? <==> streamId !in old(data)
      ensures err.Some? ==> err.value == KeyError && data == old(data)
      ensures err.None? ==> data == old(data)[streamId := old(data)[streamId].(status := Some(status))]
    {
      if streamId !in data {
        return Some(KeyError);
      }
      data := data[streamId := data[streamId].(status := Some(status))];
      return None;
    }

    /** `advance_state`: moves the stream along its lifecycle and returns
        the request type to emit. */
    method AdvanceState(event: Event, streamId: string) returns (r: Result<Option<MsgType>>)
      modifies this
      ensures (data, r) == Advance(old(data), event, streamId)
    {
      if streamId in data {
        ghost var before := data;
        var current := data[streamId].state;
        if current == Withdrawn {
          data := data[streamId := data[streamId].(state := New)];
          AdvanceKnown(before, event, streamId, New, None);
          return Ok(None);
        }
        match event {
          case NewTalker => r := AdvanceTalker(event, streamId);
          case UdtTalker => r := AdvanceTalker(event, streamId);
          case NewListener => r := AdvanceListener(event, streamId);
          case UdtListener => r := AdvanceListener(event, streamId);
          case RemStream => r := AdvanceRemoval(event, streamId);
          case RemStreamWithRemnant => r := AdvanceRemoval(event, streamId);
          case RemListener => r := AdvanceRemoval(event, streamId);
          case NewResult => r := AdvanceResult(streamId);
          case Unrecognized =>
            assert data == before[streamId := before[streamId].(state := current)];
            AdvanceKnown(before, event, streamId, current, None);
            r := Ok(None);
        }
      } else {
        AddStream(streamId);
        return Ok(None);
      }
    }

    /** The talker arms of `advance_state`, for a stream that is not withdrawn. */
    method AdvanceTalker(event: Event, streamId: string) returns (r: Result<Option<MsgType>>)
      modifies this
      requires event == NewTalker || event == UdtTalker
      requires streamId in data && data[streamId].state != Withdrawn
      ensures (data, r) == Advance(old(data), event, streamId)
    {
      ghost var before := data;
      var current := data[streamId].state;
      if event == NewTalker {
        if current == New {
          data := data[streamId := data[streamId].(state := Pending)];
          AdvanceKnown(before, event, streamId, Pending, Some(CcAddStreamReq));
          return Ok(Some(CcAddStreamReq));
        }
      }
      if event == UdtTalker {
        if current != New {
          data := data[streamId := data[streamId].(state := Pending)];
          AdvanceKnown(before, event, streamId, Pending, Some(CcUpdateStreamReq));
          return Ok(Some(CcUpdateStreamReq));
        }
      }
      assert data == before[streamId := before[streamId].(state := current)];
      AdvanceKnown(before, event, streamId, current, None);
      return Ok(None);
    }

    /** The listener arms of `advance_state`, for a stream that is not withdrawn. */
    method AdvanceListener(event: Event, streamId: string) returns (r: Result<Option<MsgType>>)
      modifies this
      requires event == NewListener || event == UdtListener
      requires streamId in data && data[streamId].state != Withdrawn
      ensures (data, r) == Advance(old(data), event, streamId)
    {
      ghost var before := data;
      var current := data[streamId].state;
      if event == NewListener {
        if current == New {
          data := data[streamId := data[streamId].(state := Pending)];
          AdvanceKnown(before, event, streamId, Pending, Some(CcAddStreamReq));
          return Ok(Some(CcAddStreamReq));
        } else if current == Pending {
          assert data == before[streamId := before[streamId].(state := Pending)];
          AdvanceKnown(before, event, streamId, Pending, Some(CcAddListenerReq));
          return Ok(Some(CcAddListenerReq));
        } else if current == Error {
          data := data[streamId := data[streamId].(state := Pending)];
          AdvanceKnown(before, event, streamId, Pending, Some(CcAddListenerReq));
          return Ok(Some(CcAddListenerReq));
        }
      } else if current != New {
        data := data[streamId := data[streamId].(state := Pending)];
        AdvanceKnown(before, event, streamId, Pending, Some(CcUpdateListenerReq));
        return Ok(Some(CcUpdateListenerReq));
      }
      assert data == before[streamId := before[streamId].(state := current)];
      AdvanceKnown(before, event, streamId, current, None);
      return Ok(None);
    }

    /** The removal arms of `advance_state`, for a stream that is not withdrawn. */
    method AdvanceRemoval(event: Event, streamId: string) returns (r: Result<Option<MsgType>>)
      modifies this
      requires event == RemStream || event == RemStreamWithRemnant || event == RemListener
      requires streamId in data && data[streamId].state != Withdrawn
      ensures (data, r) == Advance(old(data), event, streamId)
    {
      ghost var before := data;
      if event == RemStream {
        data := data[streamId := data[streamId].(state := Withdrawn)];
        AdvanceKnown(before, event, streamId, Withdrawn, Some(CcRemoveStreamReq));
        return Ok(Some(CcRemoveStreamReq));
      } else if event == RemStreamWithRemnant {
        data := data[streamId := data[streamId].(state := New)];
        AdvanceKnown(before, event, streamId, New, Some(CcRemoveStreamReq));
        return Ok(Some(CcRemoveStreamReq));
      } else {
        data := data[streamId := data[streamId].(state := Pending)];
        AdvanceKnown(before, event, streamId, Pending, Some(CcRemListenerReq));
        return Ok(Some(CcRemListenerReq));
      }
    }

    /** The result arm of `advance_state`, for a stream that is not withdrawn:
        reading the failure code of a missing status raises. */
    method AdvanceResult(streamId: string) returns (r: Result<Option<MsgType>>)
      modifies this
      requires streamId in data && data[streamId].state != Withdrawn
      ensures (data, r) == Advance(old(data), NewResult, streamId)
    {
      ghost var before := data;
      var current := data[streamId].state;
      if current == Pending || current == Deployed || current == Error {
        var status := data[streamId].status;
        if status.None? {
          AdvanceFails(before, NewResult, streamId, AttributeError);
          return Err(AttributeError);
        }
        if status.value.failureCode.None? {
          AdvanceFails(before, NewResult, streamId, KeyError);
          return Err(KeyError);
        }
        if status.value.failureCode.value == 0 {
          data := data[streamId := data[streamId].(state := Deployed)];
          AdvanceKnown(before, NewResult, streamId, Deployed, Some(SmStreamStatusInd));
        } else {
          data := data[streamId := data[streamId].(state := Error)];
          AdvanceKnown(before, NewResult, streamId, Error, Some(SmStreamStatusInd));
        }
      } else {
        assert data == before[streamId := before[streamId].(state := current)];
        AdvanceKnown(before, NewResult, streamId, current, Some(SmStreamStatusInd));
      }
      return Ok(Some(SmStreamStatusInd));
    }
  }
}
