// The server side's behaviour of the request-response protocol
// (protocols/volans-request/src/server.rs). A request a connection
// receives is handed to the user with a responder and awaits its answer;
// every later report about it settles it and becomes one event.
module RequestServer {
  import opened Wrappers
  import opened Io
  import opened Time
  import opened Identity
  import opened SwarmConnection
  import opened SwarmNotify
  import opened Request

  /// The way back to the remote for one request's response: the
  /// `oneshot::Sender` the handler made for it. The channel itself is not
  /// modelled; the responder names the request it answers.
  datatype Responder = Responder(requestId: RequestId)

  /// The server handler's `Event` (server/handler.rs), as the behaviour
  /// receives it.
  datatype HandlerEvent<Q> =
    | Request(requestId: RequestId, request: Q, sender: Responder)
    | Error(requestId: RequestId, error: IoError)
    | Response(requestId: RequestId)
    | Discard(requestId: RequestId)
    | Timeout(requestId: RequestId)

  /// The server's `Event`.
  datatype Event<Q> =
    | Request(peer: PeerId, connection: ConnectionId, requestId: RequestId, request: Q, responder: Responder)
    | Failure(peer: PeerId, connection: ConnectionId, requestId: RequestId, cause: InboundFailure)
    | ResponseSent(peer: PeerId, connection: ConnectionId, requestId: RequestId)

  /// What `Handler::new` is given for each connection.
  datatype HandlerSetup<P> = HandlerSetup(protocols: seq<P>, streamTimeout: Duration)

  /// The event a handler's report becomes: about the same request, from
  /// the same peer and connection, of the matching kind and cause.
  function EventOf<Q>(id: ConnectionId, peer: PeerId, ev: HandlerEvent<Q>): (e: Event<Q>)
    ensures e.peer == peer && e.connection == id && e.requestId == ev.requestId
    ensures ev.Request? <==> e.Request?
    ensures ev.Request? ==> e.request == ev.request && e.responder == ev.sender
    ensures ev.Response? <==> e.ResponseSent?
    ensures ev.Discard? ==> e == Failure(peer, id, ev.requestId, InboundFailure.Discard)
    ensures ev.Timeout? ==> e == Failure(peer, id, ev.requestId, InboundFailure.Timeout)
    ensures ev.Error? ==> e == Failure(peer, id, ev.requestId, InboundFailure.Io(ev.error))
  {
    match ev
    case Request(rid, q, sender) => Event.Request(peer, id, rid, q, sender)
    case Discard(rid) => Failure(peer, id, rid, InboundFailure.Discard)
    case Response(rid) => ResponseSent(peer, id, rid)
    case Error(rid, error) => Failure(peer, id, rid, InboundFailure.Io(error))
    case Timeout(rid) => Failure(peer, id, rid, InboundFailure.Timeout)
  }

  /// The behaviour.
  class Behavior<Q, P> {
    const protocols: seq<P>
    const config: Config
    var pendingEvent: seq<Event<Q>>
    /// The requests handed to the user whose outcome is not known yet.
    var pendingResponse: set<RequestId>

    /// `Behavior::with_codec`.
    constructor(protocols: seq<P>, config: Config)
      ensures this.protocols == protocols && this.config == config
      ensures pendingEvent == [] && pendingResponse == {}
    {
      this.protocols := protocols;
      this.config := config;
      pendingEvent := [];
      pendingResponse := {};
    }

    /// `on_connection_handler_event`: a new request awaits its outcome;
    /// any other report settles its request. Either way one event is
    /// queued.
    method OnConnectionHandlerEvent(id: ConnectionId, peer: PeerId, event: HandlerEvent<Q>)
      modifies this
      ensures event.Request? ==> pendingResponse == old(pendingResponse) + {event.requestId}
      ensures !event.Request? ==> pendingResponse == old(pendingResponse) - {event.requestId}
      ensures pendingEvent == old(pendingEvent) + [EventOf(id, peer, event)]
    {
      if event.Request? {
        pendingResponse := pendingResponse + {event.requestId};
      } else {
        pendingResponse := pendingResponse - {event.requestId};
      }
      pendingEvent := pendingEvent + [EventOf(id, peer, event)];
    }

    /// `poll`: the oldest queued event.
    method Poll() returns (r: Poll<BehaviorEvent<Event<Q>, ()>>)
      modifies this
      ensures old(pendingEvent) != [] ==> r == Ready(BehaviorOut(old(pendingEvent)[0])) && pendingEvent == old(pendingEvent)[1..]
      ensures old(pendingEvent) == [] ==> r.Pending? && pendingEvent == []
      ensures pendingResponse == old(pendingResponse)
    {
      if pendingEvent == [] {
        return Pending;
      }
      r := Ready(BehaviorOut(pendingEvent[0]));
      pendingEvent := pendingEvent[1..];
    }

    /// `handle_established_connection`: every connection's handler gets
    /// the behaviour's protocols and request timeout, and none is refused.
    method HandleEstablishedConnection() returns (r: Result<HandlerSetup<P>, ()>)
      ensures r == Ok(HandlerSetup(protocols, config.requestTimeout))
    {
      return Ok(HandlerSetup(protocols, config.requestTimeout));
    }
  }

  /// A request received and answered leaves nothing pending, and the user
  /// sees it as a request and then as a response sent, in that order.
  method RequestThenResponse<Q, P>(b: Behavior<Q, P>, conn: ConnectionId, peer: PeerId, rid: RequestId, q: Q)
    returns (first: Poll<BehaviorEvent<Event<Q>, ()>>, second: Poll<BehaviorEvent<Event<Q>, ()>>)
    requires b.pendingEvent == [] && rid !in b.pendingResponse
    modifies b
    ensures b.pendingResponse == old(b.pendingResponse) && b.pendingEvent == []
    ensures first == Ready(BehaviorOut(Event.Request(peer, conn, rid, q, Responder(rid))))
    ensures second == Ready(BehaviorOut(ResponseSent(peer, conn, rid)))
  {
    b.OnConnectionHandlerEvent(conn, peer, HandlerEvent.Request(rid, q, Responder(rid)));
    b.OnConnectionHandlerEvent(conn, peer, HandlerEvent.Response(rid));
    first := b.Poll();
    second := b.Poll();
  }
}
