/** One control binding owned by one worker attempt. */
module WorkerControl {
  import opened Prelude

  /** A handler function, by identity. */
  type Handler = nat

  datatype ChannelError = ChannelClosed | AlreadyBound

  /** What `deliver` returns; `Delivered` is whatever the handler, or its timeout, made of the request. */
  datatype Delivery = NotReady | Delivered(uncertain: bool, accepted: bool)

  /** How a handler call ends: its own answer, an exception, or the timeout that overtakes it. */
  datatype HandlerEnd = Answered(accepted: bool) | Threw | TimedOut

  class AttemptWorkerControlChannel {
    var handler: Option<Handler>
    var closed: bool
    /** The closures that `bind` returned: the handler each was made for and whether it is still bound. */
    var bindings: seq<(Handler, bool)>
    /** Which handler got which request, in order. */
    ghost var calls: seq<(Handler, string)>

    /** A handler is set exactly when its own binding is the one still bound. */
    ghost predicate Valid()
      reads this
    {
      && (closed ==> handler == None)
      && (handler.Some? ==>
            && bindings != [] && bindings[|bindings| - 1] == (handler.value, true))
      && (!closed ==> forall i | 0 <= i < |bindings| && bindings[i].1 :: handler.Some? && i == |bindings| - 1)
    }

    constructor ()
      ensures Valid() && handler == None && !closed && bindings == [] && calls == []
    {
      handler, closed, bindings, calls := None, false, [], [];
    }

    predicate Ready()
      reads this
    {
      !closed && handler.Some?
    }

    method Bind(h: Handler) returns (r: Result<nat, ChannelError>)
      requires Valid()
      modifies this
      ensures Valid() && calls == old(calls) && closed == old(closed)
      ensures r.Ok? <==> !old(closed) && old(handler) == None
      ensures r.Ok? ==>
        Ready() && handler == Some(h) && bindings == old(bindings) + [(h, true)] && r.value == |old(bindings)|
      ensures r.Err? ==> handler == old(handler) && bindings == old(bindings)
      ensures r.Err? ==> r.error == if old(closed) then ChannelClosed else AlreadyBound
    {
      if closed {
        return Err(ChannelClosed);
      }
      if handler.Some? {
        return Err(AlreadyBound);
      }
      handler := Some(h);
      bindings := bindings + [(h, true)];
      return Ok(|bindings| - 1);
    }

    /** The closure of binding i: it takes back its own binding once, and never a later one. */
    method Unbind(i: nat)
      requires Valid() && i < |bindings|
      modifies this
      ensures Valid() && calls == old(calls) && closed == old(closed)
      ensures handler == if old(Ready()) && i == |bindings| - 1 then None else old(handler)
      ensures bindings == old(bindings)[i := (old(bindings)[i].0, false)]
    {
      if !bindings[i].1 {
        assert bindings == bindings[i := (bindings[i].0, false)];
        return;
      }
      var h := bindings[i].0;
      bindings := bindings[i := (h, false)];
      if handler == Some(h) {
        handler := None;
      }
    }

    method Deliver(request: string, end: HandlerEnd) returns (delivery: Delivery)
      requires Valid()
      modifies this`calls
      ensures Valid()
      ensures delivery.NotReady? <==> !old(Ready())
      ensures calls == if old(Ready()) then old(calls) + [(handler.value, request)] else old(calls)
      ensures delivery.Delivered? ==>
        && (delivery.uncertain <==> !end.Answered?)
        && (delivery.accepted <==> end == Answered(true))
    {
      if closed || handler == None {
        return NotReady;
      }
      calls := calls + [(handler.value, request)];
      match end
      case Answered(accepted) => return Delivered(false, accepted);
      case Threw => return Delivered(true, false);
      case TimedOut => return Delivered(true, false);
    }

    /** A closed channel stays closed: it can be neither bound nor delivered to again. */
    method Close()
      requires Valid()
      modifies this
      ensures Valid() && closed && !Ready() && calls == old(calls) && bindings == old(bindings)
    {
      closed := true;
      handler := None;
    }
  }
}
