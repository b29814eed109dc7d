// The client side's behaviour of the request-response protocol
// (protocols/volans-request/src/client.rs). A request to a connected
// peer goes straight to one of its connections; a request to any other
// peer waits for a dial, and fails when the dial does. Each answer from a
// handler settles its request and becomes one event for the user.
module RequestClient {
  import opened Wrappers
  import opened Identity
  import opened SwarmConnection
  import opened SwarmError
  import opened SwarmNotify
  import opened Request
  import opened RequestClientHandler

  /// The client's `Event`.
  datatype Event<S> =
    | Response(peer: PeerId, connection: ConnectionId, requestId: RequestId, response: S)
    | Failure(peer: PeerId, connection: ConnectionId, requestId: RequestId, cause: OutboundFailure)

  type ClientEvent<R, S, P> = BehaviorEvent<Event<S>, OutboundRequest<R, P>>

  /// `retain(|x| *x != id)`: the list without `x`, in its order.
  function Without(s: seq<ConnectionId>, x: ConnectionId): (r: seq<ConnectionId>)
    ensures forall y :: y in r <==> y in s && y != x
    ensures x !in s ==> r == s
    ensures |r| <= |s|
  {
    if s == [] then []
    else if s[0] == x then Without(s[1..], x)
    else [s[0]] + Without(s[1..], x)
  }

  /// The event a handler's answer becomes: a response, or a failure of
  /// the matching cause, always about the same request.
  function EventOf<S>(id: ConnectionId, peer: PeerId, ev: HandlerEvent<S>): (e: Event<S>)
    ensures e.peer == peer && e.connection == id && e.requestId == ev.requestId
    ensures ev.Response? <==> e.Response?
    ensures ev.Response? ==> e.response == ev.response
    ensures ev.Unsupported? ==> e.cause == OutboundFailure.UnsupportedProtocols
    ensures ev.Timeout? ==> e.cause == OutboundFailure.Timeout
    ensures ev.StreamError? ==> e.cause == OutboundFailure.Io(ev.error)
  {
    match ev
    case Response(rid, s) => Event.Response(peer, id, rid, s)
    case Unsupported(rid) => Failure(peer, id, rid, OutboundFailure.UnsupportedProtocols)
    case StreamError(rid, error) => Failure(peer, id, rid, OutboundFailure.Io(error))
    case Timeout(rid) => Failure(peer, id, rid, OutboundFailure.Timeout)
  }

  /// The events a failed dial gives the requests waiting for it: one
  /// DialFailure each, in the order they were made.
  function DialFailures<R, S, P>(peer: PeerId, id: ConnectionId, waiting: seq<OutboundRequest<R, P>>): seq<ClientEvent<R, S, P>>
  {
    if waiting == [] then []
    else DialFailures<R, S, P>(peer, id, waiting[..|waiting| - 1])
         + [BehaviorOut(Failure(peer, id, waiting[|waiting| - 1].requestId, DialFailure))]
  }

  /// The actions `try_send_request` queues for some requests to a peer
  /// with connections `conns`: each request to the connection its id
  /// picks, in order.
  function Dispatches<R, S, P>(peer: PeerId, conns: seq<ConnectionId>, requests: seq<OutboundRequest<R, P>>): seq<ClientEvent<R, S, P>>
    requires conns != []
  {
    if requests == [] then []
    else
      var last := requests[|requests| - 1];
      Dispatches<R, S, P>(peer, conns, requests[..|requests| - 1])
      + [HandlerAction(peer, ToOne(conns[ConnectionIndex(last.requestId, |conns|)]), last)]
  }

  /// The ids of some requests.
  function IdsOf<R, P>(requests: seq<OutboundRequest<R, P>>): (r: set<RequestId>)
    ensures forall id :: id in r <==> exists i :: 0 <= i < |requests| && requests[i].requestId == id
  {
    if requests == [] then {}
    else
      var last := requests[|requests| - 1];
      assert forall i :: 0 <= i < |requests| - 1 ==> requests[..|requests| - 1][i] == requests[i];
      IdsOf(requests[..|requests| - 1]) + {last.requestId}
  }

  /// A failed dial gives each waiting request one DialFailure, in the
  /// order they were made.
  lemma {:induction false} DialFailuresEach<R, S, P>(peer: PeerId, id: ConnectionId, waiting: seq<OutboundRequest<R, P>>)
    ensures |DialFailures<R, S, P>(peer, id, waiting)| == |waiting|
    ensures forall i :: 0 <= i < |waiting| ==>
              DialFailures<R, S, P>(peer, id, waiting)[i] == BehaviorOut(Failure(peer, id, waiting[i].requestId, DialFailure))
  {
    if waiting != [] {
      var front := waiting[..|waiting| - 1];
      DialFailuresEach<R, S, P>(peer, id, front);
      assert forall i :: 0 <= i < |front| ==> front[i] == waiting[i];
    }
  }

  /// Each request is handed to the connection its id picks, in order.
  lemma {:induction false} DispatchesEach<R, S, P>(peer: PeerId, conns: seq<ConnectionId>, requests: seq<OutboundRequest<R, P>>)
    requires conns != []
    ensures |Dispatches<R, S, P>(peer, conns, requests)| == |requests|
    ensures forall i :: 0 <= i < |requests| ==>
              Dispatches<R, S, P>(peer, conns, requests)[i]
              == HandlerAction(peer, ToOne(conns[ConnectionIndex(requests[i].requestId, |conns|)]), requests[i])
  {
    if requests != [] {
      var front := requests[..|requests| - 1];
      DispatchesEach<R, S, P>(peer, conns, front);
      assert forall i :: 0 <= i < |front| ==> front[i] == requests[i];
    }
  }

  /// One more request sent: the actions and ids of a longer prefix.
  lemma DispatchStep<R, S, P>(peer: PeerId, conns: seq<ConnectionId>, requests: seq<OutboundRequest<R, P>>, i: nat)
    requires conns != [] && i < |requests|
    ensures Dispatches<R, S, P>(peer, conns, requests[..i + 1])
            == Dispatches<R, S, P>(peer, conns, requests[..i])
               + [HandlerAction(peer, ToOne(conns[ConnectionIndex(requests[i].requestId, |conns|)]), requests[i])]
    ensures IdsOf(requests[..i + 1]) == IdsOf(requests[..i]) + {requests[i].requestId}
  {
    assert requests[..i + 1][..i] == requests[..i];
  }

  /// The loop of the connection-established handler that sends the
  /// requests waiting for a peer: the actions it queues and the ids that
  /// then await an answer.
  method SendAll<R, S, P>(peer: PeerId, conns: seq<ConnectionId>, waiting: seq<OutboundRequest<R, P>>)
    returns (sent: seq<ClientEvent<R, S, P>>, ids: set<RequestId>)
    requires conns != []
    ensures sent == Dispatches<R, S, P>(peer, conns, waiting) && ids == IdsOf(waiting)
  {
    sent, ids := [], {};
    var i := 0;
    while i < |waiting|
      invariant 0 <= i <= |waiting|
      invariant sent == Dispatches<R, S, P>(peer, conns, waiting[..i])
      invariant ids == IdsOf(waiting[..i])
    {
      var request := waiting[i];
      DispatchStep<R, S, P>(peer, conns, waiting, i);
      ids := ids + {request.requestId};
      sent := sent + [HandlerAction(peer, ToOne(conns[ConnectionIndex(request.requestId, |conns|)]), request)];
      i := i + 1;
    }
    assert waiting[..|waiting|] == waiting;
  }

  /// The behaviour.
  class Behavior<R, S, P> {
    /// `clients`: each peer's open connections, oldest first.
    var clients: map<PeerId, seq<ConnectionId>>
    const config: Config
    var pendingEvent: seq<ClientEvent<R, S, P>>
    var pendingResponse: set<RequestId>
    var pendingRequests: map<PeerId, seq<OutboundRequest<R, P>>>
    var pendingDial: set<PeerId>
    const ids: RequestIdCounter

    /// A peer is listed only while it has a connection.
    ghost predicate Valid()
      reads this, ids
    {
      && ids.Valid()
      && (forall p :: p in clients ==> clients[p] != [])
    }

    /// `Behavior::with_codec`.
    constructor(config: Config, ids: RequestIdCounter)
      requires ids.Valid()
      ensures Valid() && this.config == config && this.ids == ids
      ensures clients == map[] && pendingEvent == [] && pendingResponse == {} && pendingRequests == map[] && pendingDial == {}
    {
      clients := map[];
      this.config := config;
      pendingEvent := [];
      pendingResponse := {};
      pendingRequests := map[];
      pendingDial := {};
      this.ids := ids;
    }

    /// `try_send_request`: a peer with a connection gets the request on
    /// one of them, picked by the request id, and the id awaits its
    /// answer; otherwise the request is handed back.
    method TrySendRequest(peer: PeerId, request: OutboundRequest<R, P>) returns (rest: Option<OutboundRequest<R, P>>)
      modifies this
      ensures peer !in old(clients) || old(clients)[peer] == [] ==>
                rest == Some(request) && pendingEvent == old(pendingEvent) && pendingResponse == old(pendingResponse)
      ensures peer in old(clients) && old(clients)[peer] != [] ==>
                var conns := old(clients)[peer];
                && rest.None?
                && pendingResponse == old(pendingResponse) + {request.requestId}
                && pendingEvent == old(pendingEvent)
                     + [HandlerAction(peer, ToOne(conns[ConnectionIndex(request.requestId, |conns|)]), request)]
      ensures clients == old(clients) && pendingRequests == old(pendingRequests) && pendingDial == old(pendingDial)
    {
      if peer in clients {
        var connections := clients[peer];
        if connections == [] {
          return Some(request);
        }
        var index := ConnectionIndex(request.requestId, |connections|);
        pendingResponse := pendingResponse + {request.requestId};
        pendingEvent := pendingEvent + [HandlerAction(peer, ToOne(connections[index]), request)];
        return None;
      }
      return Some(request);
    }

    /// `send_request`: a fresh id; the request goes out at once to a
    /// connected peer, or waits for a dial of the peer.
    method SendRequest(peer: PeerId, protocol: P, request: R) returns (id: RequestId)
      requires Valid()
      modifies this, ids
      ensures Valid()
      ensures id == RequestId(old(ids.next)) && ids.next == Successor(old(ids.next))
      ensures peer in old(clients) ==>
                var conns := old(clients)[peer];
                && pendingResponse == old(pendingResponse) + {id}
                && pendingEvent == old(pendingEvent)
                     + [HandlerAction(peer, ToOne(conns[ConnectionIndex(id, |conns|)]), OutboundRequest(id, request, protocol))]
                && pendingRequests == old(pendingRequests) && pendingDial == old(pendingDial)
      ensures peer !in old(clients) ==>
                && pendingDial == old(pendingDial) + {peer}
                && pendingRequests == old(pendingRequests)[peer :=
                     (if peer in old(pendingRequests) then old(pendingRequests)[peer] else []) + [OutboundRequest(id, request, protocol)]]
                && pendingEvent == old(pendingEvent) && pendingResponse == old(pendingResponse)
      ensures clients == old(clients)
    {
      id := ids.Next();
      var rest := TrySendRequest(peer, OutboundRequest(id, request, protocol));
      if rest.Some? {
        pendingDial := pendingDial + {peer};
        var waiting := if peer in pendingRequests then pendingRequests[peer] else [];
        pendingRequests := pendingRequests[peer := waiting + [rest.value]];
      }
    }

    /// `send_request` as written: `RequestId::next` always hands out 0 (see
    /// `Request.NextRequestIdAsWritten`); the rest is `send_request`. With
    /// id 0, `id & len` and `id % len` both pick the first connection.
    method SendRequestAsWritten(peer: PeerId, protocol: P, request: R) returns (id: RequestId)
      requires Valid()
      modifies this
      ensures Valid()
      ensures id == RequestId(0)
      ensures peer in old(clients) ==>
                && pendingResponse == old(pendingResponse) + {id}
                && pendingEvent == old(pendingEvent)
                     + [HandlerAction(peer, ToOne(old(clients)[peer][0]), OutboundRequest(id, request, protocol))]
                && pendingRequests == old(pendingRequests) && pendingDial == old(pendingDial)
      ensures peer !in old(clients) ==>
                && pendingDial == old(pendingDial) + {peer}
                && pendingRequests == old(pendingRequests)[peer :=
                     (if peer in old(pendingRequests) then old(pendingRequests)[peer] else []) + [OutboundRequest(id, request, protocol)]]
                && pendingEvent == old(pendingEvent) && pendingResponse == old(pendingResponse)
      ensures clients == old(clients)
    {
      id := NextRequestIdAsWritten();
      var rest := TrySendRequest(peer, OutboundRequest(id, request, protocol));
      if rest.Some? {
        pendingDial := pendingDial + {peer};
        var waiting := if peer in pendingRequests then pendingRequests[peer] else [];
        pendingRequests := pendingRequests[peer := waiting + [rest.value]];
      }
    }

    /// `on_connection_handler_event`: the request is settled and its
    /// outcome queued for the user.
    method OnConnectionHandlerEvent(id: ConnectionId, peer: PeerId, event: HandlerEvent<S>)
      modifies this
      ensures pendingResponse == old(pendingResponse) - {event.requestId}
      ensures pendingEvent == old(pendingEvent) + [BehaviorOut(EventOf(id, peer, event))]
      ensures clients == old(clients) && pendingRequests == old(pendingRequests) && pendingDial == old(pendingDial)
    {
      pendingResponse := pendingResponse - {event.requestId};
      pendingEvent := pendingEvent + [BehaviorOut(EventOf(id, peer, event))];
    }

    /// `poll`: the oldest queued event.
    method Poll() returns (r: Poll<ClientEvent<R, S, P>>)
      modifies this
      ensures old(pendingEvent) != [] ==> r == Ready(old(pendingEvent)[0]) && pendingEvent == old(pendingEvent)[1..]
      ensures old(pendingEvent) == [] ==> r.Pending? && pendingEvent == []
      ensures clients == old(clients) && pendingResponse == old(pendingResponse)
      ensures pendingRequests == old(pendingRequests) && pendingDial == old(pendingDial)
    {
      if pendingEvent == [] {
        return Pending;
      }
      r := Ready(pendingEvent[0]);
      pendingEvent := pendingEvent[1..];
    }

    /// `handle_established_connection`: every connection gets a handler
    /// with the configured request timeout.
    method HandleEstablishedConnection() returns (h: Handler<R, S, P>)
      ensures fresh(h) && h.Valid() && h.streamTimeout == config.requestTimeout
      ensures h.pendingOutbound == [] && h.requestedOutbound == [] && h.pendingEvents == [] && h.requesting == {}
    {
      h := new Handler(config.requestTimeout);
    }

    /// `on_connection_established` as written: the connection joins the
    /// peer's list, and nothing else happens. Requests that were waiting
    /// for a dial of the peer stay in `pendingRequests`, which only a
    /// failed dial ever empties: after a successful dial they are never
    /// sent and never answered.
    method OnConnectionEstablishedAsWritten(id: ConnectionId, peer: PeerId)
      requires Valid()
      modifies this
      ensures Valid()
      ensures clients == old(clients)[peer := (if peer in old(clients) then old(clients)[peer] else []) + [id]]
      ensures pendingEvent == old(pendingEvent) && pendingResponse == old(pendingResponse)
      ensures pendingRequests == old(pendingRequests) && pendingDial == old(pendingDial)
    {
      var conns := if peer in clients then clients[peer] else [];
      clients := clients[peer := conns + [id]];
    }

    /// `on_connection_established`, corrected: the connection joins the
    /// peer's list, and every request waiting for the peer is then sent
    /// as `try_send_request` would, in the order the requests were made.
    method OnConnectionEstablished(id: ConnectionId, peer: PeerId)
      requires Valid()
      modifies this
      ensures Valid()
      ensures clients == old(clients)[peer := (if peer in old(clients) then old(clients)[peer] else []) + [id]]
      ensures peer !in old(pendingRequests) ==>
                pendingEvent == old(pendingEvent) && pendingResponse == old(pendingResponse) && pendingRequests == old(pendingRequests)
      ensures peer in old(pendingRequests) ==>
                var waiting := old(pendingRequests)[peer];
                && pendingRequests == old(pendingRequests) - {peer}
                && pendingEvent == old(pendingEvent) + Dispatches<R, S, P>(peer, clients[peer], waiting)
                && pendingResponse == old(pendingResponse) + IdsOf(waiting)
      ensures pendingDial == old(pendingDial)
    {
      var conns := (if peer in clients then clients[peer] else []) + [id];
      var waiting := if peer in pendingRequests then pendingRequests[peer] else [];
      var sent, ids := SendAll<R, S, P>(peer, conns, waiting);
      clients := clients[peer := conns];
      if peer in pendingRequests {
        pendingRequests := pendingRequests - {peer};
        pendingEvent := pendingEvent + sent;
        pendingResponse := pendingResponse + ids;
      }
    }

    /// `on_connection_closed`: the connection leaves the peer's list, and
    /// a peer left with none leaves the table.
    method OnConnectionClosed(id: ConnectionId, peer: PeerId)
      requires Valid()
      modifies this
      ensures Valid()
      ensures peer !in old(clients) ==> clients == old(clients)
      ensures peer in old(clients) ==>
                var rest := Without(old(clients)[peer], id);
                clients == if rest == [] then old(clients) - {peer} else old(clients)[peer := rest]
      ensures pendingEvent == old(pendingEvent) && pendingResponse == old(pendingResponse)
      ensures pendingRequests == old(pendingRequests) && pendingDial == old(pendingDial)
    {
      var rest := Without(if peer in clients then clients[peer] else [], id);
      if rest == [] {
        clients := clients - {peer};
      } else {
        clients := clients[peer := rest];
      }
    }

    /// `on_dial_failure`: every request waiting for the peer fails with
    /// DialFailure, in order, and none waits any more.
    method OnDialFailure(id: ConnectionId, peer: Option<PeerId>)
      modifies this
      ensures peer.None? || peer.value !in old(pendingRequests) ==>
                pendingEvent == old(pendingEvent) && pendingRequests == old(pendingRequests)
      ensures peer.Some? && peer.value in old(pendingRequests) ==>
                && pendingRequests == old(pendingRequests) - {peer.value}
                && pendingEvent == old(pendingEvent) + DialFailures<R, S, P>(peer.value, id, old(pendingRequests)[peer.value])
      ensures clients == old(clients) && pendingResponse == old(pendingResponse) && pendingDial == old(pendingDial)
    {
      if peer.None? || peer.value !in pendingRequests {
        return;
      }
      var p := peer.value;
      var pending := pendingRequests[p];
      pendingRequests := pendingRequests - {p};
      var failed: seq<ClientEvent<R, S, P>> := [];
      var i := 0;
      while i < |pending|
        invariant 0 <= i <= |pending|
        invariant failed == DialFailures<R, S, P>(p, id, pending[..i])
      {
        assert pending[..i + 1][..i] == pending[..i];
        failed := failed + [BehaviorOut(Failure(p, id, pending[i].requestId, DialFailure))];
        i := i + 1;
      }
      assert pending[..|pending|] == pending;
      pendingEvent := pendingEvent + failed;
    }

    /// `poll_dial`: some peer waiting for a dial is dialled, with no
    /// address, and waits no more.
    method PollDial() returns (r: Poll<DialRequest>)
      modifies this
      ensures old(pendingDial) == {} <==> r.Pending?
      ensures r.Ready? ==>
                && r.value.addr.None? && r.value.condition == Always && r.value.peer.Some?
                && r.value.peer.value in old(pendingDial) && pendingDial == old(pendingDial) - {r.value.peer.value}
      ensures r.Pending? ==> pendingDial == old(pendingDial)
      ensures clients == old(clients) && pendingEvent == old(pendingEvent)
      ensures pendingResponse == old(pendingResponse) && pendingRequests == old(pendingRequests)
    {
      if pendingDial == {} {
        return Pending;
      }
      var peer :| peer in pendingDial;
      pendingDial := pendingDial - {peer};
      return Ready(DialRequest(None, Some(peer), Always));
    }
  }

  /// A request sent to a connected peer answers its own id: the handler's
  /// response settles it and reaches the user as its response.
  method RequestIsAnswered<R, S, P>(b: Behavior<R, S, P>, peer: PeerId, conn: ConnectionId, protocol: P, request: R, response: S)
    returns (id: RequestId, ev: Poll<ClientEvent<R, S, P>>)
    requires b.Valid() && b.pendingEvent == [] && b.pendingResponse == {} && peer in b.clients
    modifies b, b.ids
    ensures b.pendingResponse == {}
    ensures ev.Ready? && ev.value.HandlerAction? && ev.value.action == OutboundRequest(id, request, protocol)
    ensures b.pendingEvent == [BehaviorOut(Event.Response(peer, conn, id, response))]
  {
    id := b.SendRequest(peer, protocol, request);
    ev := b.Poll();
    b.OnConnectionHandlerEvent(conn, peer, RequestClientHandler.Response(id, response));
  }

  /// As written, two requests to a connected peer both get id 0, so the
  /// answer to the first settles the id the second still waits on: the
  /// second's answer is no longer expected.
  method AsWrittenSecondAnswerUnknown<R, S, P>(b: Behavior<R, S, P>, peer: PeerId, conn: ConnectionId, protocol: P,
                                              first: R, second: R, response: S)
    returns (a: RequestId, c: RequestId)
    requires b.Valid() && b.pendingResponse == {} && peer in b.clients
    modifies b
    ensures a == c && c !in b.pendingResponse && b.pendingResponse == {}
    ensures b.pendingEvent == old(b.pendingEvent)
              + [HandlerAction(peer, ToOne(old(b.clients)[peer][0]), OutboundRequest(a, first, protocol)),
                 HandlerAction(peer, ToOne(old(b.clients)[peer][0]), OutboundRequest(c, second, protocol)),
                 BehaviorOut(Event.Response(peer, conn, a, response))]
  {
    a := b.SendRequestAsWritten(peer, protocol, first);
    c := b.SendRequestAsWritten(peer, protocol, second);
    b.OnConnectionHandlerEvent(conn, peer, RequestClientHandler.Response(a, response));
  }

  /// Corrected, the two requests get distinct ids, and the second is still
  /// awaited once the first is answered.
  method SecondRequestStillPending<R, S, P>(b: Behavior<R, S, P>, peer: PeerId, conn: ConnectionId, protocol: P,
                                            first: R, second: R, response: S)
    returns (a: RequestId, c: RequestId)
    requires b.Valid() && b.pendingResponse == {} && peer in b.clients
    modifies b, b.ids
    ensures a != c && b.pendingResponse == {c}
  {
    a := b.SendRequest(peer, protocol, first);
    c := b.SendRequest(peer, protocol, second);
    SuccessorDiffers(a.value);
    b.OnConnectionHandlerEvent(conn, peer, RequestClientHandler.Response(a, response));
  }

  /// As written, a request made before the peer is connected is still
  /// waiting, and nothing was queued for it, once a connection is up.
  method AsWrittenWaitingRequestStuck<R, S, P>(b: Behavior<R, S, P>, peer: PeerId, conn: ConnectionId, protocol: P, request: R)
    returns (id: RequestId)
    requires b.Valid() && b.pendingEvent == [] && b.clients == map[] && b.pendingRequests == map[]
    modifies b, b.ids
    ensures b.pendingEvent == [] && b.pendingResponse == old(b.pendingResponse)
    ensures b.pendingRequests == map[peer := [OutboundRequest(id, request, protocol)]]
  {
    id := b.SendRequest(peer, protocol, request);
    assert [] + [OutboundRequest(id, request, protocol)] == [OutboundRequest(id, request, protocol)];
    b.OnConnectionEstablishedAsWritten(conn, peer);
  }

  /// Corrected, the same request goes out on the new connection once it
  /// is up, and awaits its answer.
  method WaitingRequestIsSent<R, S, P>(b: Behavior<R, S, P>, peer: PeerId, conn: ConnectionId, protocol: P, request: R)
    returns (id: RequestId)
    requires b.Valid() && b.pendingEvent == [] && b.clients == map[] && b.pendingRequests == map[]
    modifies b, b.ids
    ensures b.pendingEvent == [HandlerAction(peer, ToOne(conn), OutboundRequest(id, request, protocol))]
    ensures b.pendingResponse == old(b.pendingResponse) + {id}
    ensures b.pendingRequests == map[]
  {
    id := b.SendRequest(peer, protocol, request);
    b.OnConnectionEstablished(conn, peer);
    assert IdsOf([OutboundRequest(id, request, protocol)]) == {id};
  }
}
