// The client side's connection handler of the request-response protocol
// (protocols/volans-request/src/client/handler.rs). Requests wait in
// `pendingOutbound` until a stream is asked for, then in
// `requestedOutbound` until the stream is negotiated, and are then in
// flight. The exchanges in flight are futures outside the model: which
// one finishes at a poll, and how, is an input.
module RequestClientHandler {
  import opened Wrappers
  import opened Io
  import opened Time
  import opened SwarmHandler
  import opened Request

  /// The bound `FuturesMap::new` is given: at most ten exchanges in
  /// flight.
  const MAX_IN_FLIGHT: nat := 10

  /// The error text of an exchange that finds no room.
  const MAX_STREAMS_MESSAGE: string := "max sub-streams reached"

  /// The handler's `Event`.
  datatype HandlerEvent<S> =
    | Response(requestId: RequestId, response: S)
    | Unsupported(requestId: RequestId)
    | Timeout(requestId: RequestId)
    | StreamError(requestId: RequestId, error: IoError)

  /// How an exchange in flight ends: answered, broken by an I/O error,
  /// or out of time.
  datatype Finished<S> = Answered(response: S) | Broken(error: IoError) | Expired

  /// The event an exchange's end is reported as.
  function FinishedEvent<S>(id: RequestId, f: Finished<S>): (e: HandlerEvent<S>)
    ensures e.requestId == id
    ensures f.Answered? <==> e.Response?
    ensures f.Answered? ==> e.response == f.response
    ensures f.Broken? <==> e.StreamError?
    ensures f.Broken? ==> e.error == f.error
    ensures f.Expired? <==> e.Timeout?
  {
    match f
    case Answered(s) => Response(id, s)
    case Broken(e) => StreamError(id, e)
    case Expired => HandlerEvent.Timeout(id)
  }

  /// The event a failed upgrade of a request's stream queues, if any:
  /// a timeout, an unsupported protocol, or an I/O error; the upgrade's
  /// own error gives none.
  function UpgradeErrorEvent<S>(id: RequestId, error: StreamUpgradeError<()>): Option<HandlerEvent<S>>
  {
    match error
    case Timeout => Some(HandlerEvent.Timeout(id))
    case NegotiationFailed => Some(Unsupported(id))
    case Apply(_) => None
    case Io(e) => Some(StreamError(id, e))
  }

  /// Each kind of upgrade error and the event it queues.
  lemma UpgradeErrorEventCases<S>(id: RequestId, error: StreamUpgradeError<()>)
    ensures error.Apply? <==> UpgradeErrorEvent<S>(id, error).None?
    ensures error.Timeout? ==> UpgradeErrorEvent<S>(id, error) == Some(HandlerEvent.Timeout(id))
    ensures error.NegotiationFailed? ==> UpgradeErrorEvent<S>(id, error) == Some(Unsupported(id))
    ensures error.Io? ==> UpgradeErrorEvent<S>(id, error) == Some(StreamError(id, error.ioError))
  {
  }

  /// Every event an upgrade error queues is about the request whose stream
  /// failed.
  lemma UpgradeErrorNamesRequest<S>(id: RequestId, error: StreamUpgradeError<()>)
    ensures UpgradeErrorEvent<S>(id, error).Some? ==> UpgradeErrorEvent<S>(id, error).value.requestId == id
  {
  }

  /// The handler.
  class Handler<R, S, P> {
    const streamTimeout: Duration
    var pendingOutbound: seq<OutboundRequest<R, P>>
    var requestedOutbound: seq<OutboundRequest<R, P>>
    var pendingEvents: seq<HandlerEvent<S>>
    /// The ids of the exchanges in flight.
    var requesting: set<RequestId>

    ghost predicate Valid()
      reads this
    {
      |requesting| <= MAX_IN_FLIGHT
    }

    /// `Handler::new`.
    constructor(streamTimeout: Duration)
      ensures Valid() && this.streamTimeout == streamTimeout
      ensures pendingOutbound == [] && requestedOutbound == [] && pendingEvents == [] && requesting == {}
    {
      this.streamTimeout := streamTimeout;
      pendingOutbound := [];
      requestedOutbound := [];
      pendingEvents := [];
      requesting := {};
    }

    /// `handle_action`: a request joins the back of the queue.
    method HandleAction(action: OutboundRequest<R, P>)
      modifies this
      ensures pendingOutbound == old(pendingOutbound) + [action]
      ensures requestedOutbound == old(requestedOutbound) && pendingEvents == old(pendingEvents) && requesting == old(requesting)
    {
      pendingOutbound := pendingOutbound + [action];
    }

    /// `poll_close`: the queued events, oldest first, then the end.
    method PollClose() returns (r: Poll<Option<HandlerEvent<S>>>)
      modifies this
      ensures old(pendingEvents) == [] ==> r == Ready(None) && pendingEvents == []
      ensures old(pendingEvents) != [] ==> r == Ready(Some(old(pendingEvents)[0])) && pendingEvents == old(pendingEvents)[1..]
      ensures pendingOutbound == old(pendingOutbound) && requestedOutbound == old(requestedOutbound) && requesting == old(requesting)
    {
      if pendingEvents == [] {
        return Ready(None);
      }
      r := Ready(Some(pendingEvents[0]));
      pendingEvents := pendingEvents[1..];
    }

    /// `poll`: an exchange that has finished is reported first and leaves
    /// the map; otherwise the oldest queued event.
    method Poll(finished: Option<(RequestId, Finished<S>)>) returns (r: Poll<ConnectionHandlerEvent<HandlerEvent<S>>>)
      requires Valid()
      requires finished.Some? ==> finished.value.0 in requesting
      modifies this
      ensures Valid()
      ensures finished.Some? ==>
                r == Ready(Notify(FinishedEvent(finished.value.0, finished.value.1)))
                && requesting == old(requesting) - {finished.value.0} && pendingEvents == old(pendingEvents)
      ensures finished.None? && old(pendingEvents) != [] ==>
                r == Ready(Notify(old(pendingEvents)[0])) && pendingEvents == old(pendingEvents)[1..] && requesting == old(requesting)
      ensures finished.None? && old(pendingEvents) == [] ==>
                r.Pending? && pendingEvents == [] && requesting == old(requesting)
      ensures pendingOutbound == old(pendingOutbound) && requestedOutbound == old(requestedOutbound)
    {
      if finished.Some? {
        var (id, f) := finished.value;
        requesting := requesting - {id};
        return Ready(Notify(FinishedEvent(id, f)));
      }
      if pendingEvents != [] {
        r := Ready(Notify(pendingEvents[0]));
        pendingEvents := pendingEvents[1..];
        return;
      }
      return Pending;
    }

    /// `on_fully_negotiated`: the stream belongs to the oldest request
    /// asked for, whose exchange starts if there is room; otherwise an
    /// error is queued for it. A stream with no request waiting panics.
    method OnFullyNegotiated()
      requires Valid()
      requires requestedOutbound != []
      modifies this
      ensures Valid()
      ensures requestedOutbound == old(requestedOutbound)[1..]
      ensures var id := old(requestedOutbound)[0].requestId;
              && (|old(requesting)| < MAX_IN_FLIGHT ==> requesting == old(requesting) + {id} && pendingEvents == old(pendingEvents))
              && (|old(requesting)| >= MAX_IN_FLIGHT ==>
                    requesting == old(requesting)
                    && pendingEvents == old(pendingEvents) + [StreamError(id, IoError(ErrorKind.Other, MAX_STREAMS_MESSAGE))])
      ensures pendingOutbound == old(pendingOutbound)
    {
      var message := requestedOutbound[0];
      requestedOutbound := requestedOutbound[1..];
      if |requesting| < MAX_IN_FLIGHT {
        requesting := requesting + {message.requestId};
      } else {
        pendingEvents := pendingEvents + [StreamError(message.requestId, IoError(ErrorKind.Other, MAX_STREAMS_MESSAGE))];
      }
    }

    /// `on_upgrade_error`: the failure belongs to the oldest request asked
    /// for, and is queued for it as its upgrade error says. No request
    /// waiting panics.
    method OnUpgradeError(error: StreamUpgradeError<()>)
      requires requestedOutbound != []
      modifies this
      ensures requestedOutbound == old(requestedOutbound)[1..]
      ensures var e := UpgradeErrorEvent<S>(old(requestedOutbound)[0].requestId, error);
              pendingEvents == old(pendingEvents) + (if e.Some? then [e.value] else [])
      ensures pendingOutbound == old(pendingOutbound) && requesting == old(requesting)
    {
      var outbound := requestedOutbound[0];
      requestedOutbound := requestedOutbound[1..];
      var e := UpgradeErrorEvent<S>(outbound.requestId, error);
      if e.Some? {
        pendingEvents := pendingEvents + [e.value];
      }
    }

    /// `poll_outbound_request`: the oldest waiting request moves to the
    /// back of those asked for, and a stream for its protocol alone is
    /// requested.
    method PollOutboundRequest() returns (r: Poll<SubstreamProtocol<seq<P>, ()>>)
      modifies this
      ensures old(pendingOutbound) == [] ==> r.Pending? && pendingOutbound == [] && requestedOutbound == old(requestedOutbound)
      ensures old(pendingOutbound) != [] ==>
                var request := old(pendingOutbound)[0];
                && r == Ready(NewSubstreamProtocol(SingleUpgrade(request.protocol), ()))
                && pendingOutbound == old(pendingOutbound)[1..]
                && requestedOutbound == old(requestedOutbound) + [request]
      ensures pendingEvents == old(pendingEvents) && requesting == old(requesting)
    {
      if pendingOutbound == [] {
        return Pending;
      }
      var request := pendingOutbound[0];
      pendingOutbound := pendingOutbound[1..];
      requestedOutbound := requestedOutbound + [request];
      return Ready(NewSubstreamProtocol(SingleUpgrade(request.protocol), ()));
    }
  }

  /// Streams are matched with requests in the order the requests were
  /// made: two requests whose upgrades time out are reported in that
  /// order.
  method RequestsPairInOrder<R, S, P>(h: Handler<R, S, P>, a: OutboundRequest<R, P>, b: OutboundRequest<R, P>)
    returns (first: Poll<ConnectionHandlerEvent<HandlerEvent<S>>>, second: Poll<ConnectionHandlerEvent<HandlerEvent<S>>>)
    requires h.Valid() && h.pendingOutbound == [] && h.requestedOutbound == [] && h.pendingEvents == []
    modifies h
    ensures first == Ready(Notify(HandlerEvent.Timeout(a.requestId)))
    ensures second == Ready(Notify(HandlerEvent.Timeout(b.requestId)))
  {
    h.HandleAction(a);
    h.HandleAction(b);
    var _ := h.PollOutboundRequest();
    var _ := h.PollOutboundRequest();
    h.OnUpgradeError(StreamUpgradeError.Timeout);
    h.OnUpgradeError(StreamUpgradeError.Timeout);
    first := h.Poll(None);
    second := h.Poll(None);
  }
}
