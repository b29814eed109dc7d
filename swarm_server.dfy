// The server swarm (volans-swarm/src/server.rs): it listens through a
// transport, accepts incoming connections into its pool, keeps the
// addresses each listener reports, and turns what the pool, the listeners
// and the behaviour report into events for its user. As in the client
// swarm, what the behaviour is told is a log of calls and what the
// behaviour, the transport and the listeners answer is an input. Only
// incoming connections enter a server's pool, so the dialer arms of the
// pool-event handler are unreachable, which the invariant proves.
module SwarmServer {
  import opened Wrappers
  import opened Io
  import opened CoreConnection
  import opened SwarmError
  import opened SwarmConnection
  import opened SwarmPool
  import opened SwarmNotify
  import Transport
  import SwarmListener

  type ListenerId = SwarmListener.ListenerId

  // ---------------------------------------------------------------------
  // The address table

  /// No address twice in one list.
  predicate NoDuplicates(s: seq<Url>)
  {
    forall i, j :: 0 <= i < j < |s| ==> s[i] != s[j]
  }

  /// Every listener's list of addresses is free of duplicates.
  predicate Distinct(table: map<ListenerId, seq<Url>>)
  {
    forall id :: id in table ==> NoDuplicates(table[id])
  }

  function AddressesOf(table: map<ListenerId, seq<Url>>, id: ListenerId): seq<Url>
  {
    if id in table then table[id] else []
  }

  /// The table after a listener reports an address: appended to that
  /// listener's list (made if missing) unless it is already there.
  function WithListened(table: map<ListenerId, seq<Url>>, id: ListenerId, addr: Url): (r: map<ListenerId, seq<Url>>)
    ensures r.Keys == table.Keys + {id}
    ensures forall k :: k in table && k != id ==> r[k] == table[k]
    ensures addr in AddressesOf(table, id) ==> r[id] == AddressesOf(table, id)
    ensures addr !in AddressesOf(table, id) ==> r[id] == AddressesOf(table, id) + [addr]
  {
    var known := AddressesOf(table, id);
    table[id := if addr in known then known else known + [addr]]
  }

  /// Reporting an address keeps the lists free of duplicates, puts the
  /// address in the list, and reporting it again changes nothing.
  lemma ListenedKeepsDistinct(table: map<ListenerId, seq<Url>>, id: ListenerId, addr: Url)
    requires Distinct(table)
    ensures Distinct(WithListened(table, id, addr))
    ensures addr in WithListened(table, id, addr)[id]
    ensures WithListened(WithListened(table, id, addr), id, addr) == WithListened(table, id, addr)
  {
    var r := WithListened(table, id, addr);
    var known := AddressesOf(table, id);
    if addr !in known {
      assert r[id] == known + [addr];
      forall i, j | 0 <= i < j < |r[id]|
        ensures r[id][i] != r[id][j]
      {
        if j == |known| {
          assert r[id][i] == known[i] && known[i] in known;
        }
      }
    }
    assert r[id][|r[id]| - 1] == addr || addr in known;
  }

  /// The calls that tell the behaviour each address of a closed listener
  /// has expired, in the order of the list.
  function ExpiryCalls<HEv>(id: ListenerId, addrs: seq<Url>): seq<BehaviorCall<HEv>>
    decreases |addrs|
  {
    if addrs == [] then []
    else ExpiryCalls(id, addrs[..|addrs| - 1]) + [OnListenerEvent(SwarmListener.ExpiredListenAddr(id, addrs[|addrs| - 1]))]
  }

  /// One ExpiredListenAddr call per address, in the order of the list.
  lemma {:induction false} ExpiryCallsEach<HEv>(id: ListenerId, addrs: seq<Url>)
    ensures |ExpiryCalls<HEv>(id, addrs)| == |addrs|
    ensures forall i :: 0 <= i < |addrs| ==>
              ExpiryCalls<HEv>(id, addrs)[i] == OnListenerEvent(SwarmListener.ExpiredListenAddr(id, addrs[i]))
    decreases |addrs|
  {
    if addrs != [] {
      var front := addrs[..|addrs| - 1];
      ExpiryCallsEach<HEv>(id, front);
      assert forall i :: 0 <= i < |front| ==> front[i] == addrs[i];
    }
  }

  // ---------------------------------------------------------------------
  // Events

  /// What a behaviour is told an error of a listener was: the error
  /// `listen_on` got from the transport, or an error a listener reported.
  datatype ListenFailure = ListenOnFailure(transport: TransportFailure) | ListenerIoFailure(io: IoError)

  /// The server's `SwarmEvent`, without the time a connection took.
  datatype SwarmEvent<Ev> =
    | Behavior(event: Ev)
    | NewListenAddr(listenerId: ListenerId, addr: Url)
    | ListenerClosed(listenerId: ListenerId, reason: Result<(), IoError>)
    | ListenerError(listenerId: ListenerId, error: IoError)
    | IncomingConnection(id: ConnectionId, localAddr: Url, remoteAddr: Url)
    | IncomingConnectionError(id: ConnectionId, localAddr: Url, remoteAddr: Url, listenError: ListenError, incomingPeer: Option<PeerId>)
    | ConnectionEstablished(peer: PeerId, id: ConnectionId, localAddr: Url, remoteAddr: Url, numEstablished: nat)
    | ConnectionClosed(id: ConnectionId, peer: PeerId, localAddr: Url, remoteAddr: Url, numRemaining: nat,
                       closeError: Option<ConnectionError>)

  /// What the server tells the behaviour.
  datatype BehaviorCall<HEv> =
    | OnListenerEvent(listenerEvent: SwarmListener.SwarmListenerEvent<Url, ListenFailure>)
    | OnListenFailure(id: ConnectionId, incomingPeer: Option<PeerId>, localAddr: Url, remoteAddr: Url, listenError: ListenError)
    | OnConnectionEstablished(id: ConnectionId, peer: PeerId, localAddr: Url, remoteAddr: Url)
    | OnConnectionClosed(id: ConnectionId, peer: PeerId, localAddr: Url, remoteAddr: Url, closeError: Option<ConnectionError>)
    | OnHandlerEvent(id: ConnectionId, peer: PeerId, event: HEv)

  /// Every connection of the pool, pending or established, came in
  /// through a listener, and no id is both pending and established.
  ghost predicate IncomingOnly<A>(pending: map<ConnectionId, PendingConnection>, established: map<ConnectionId, EstablishedConnection<A>>)
  {
    && (forall c :: c in pending ==> pending[c].endpoint.ListenerPoint?)
    && (forall c :: c in established ==> established[c].endpoint.ListenerPoint?)
    && pending.Keys !! established.Keys
  }

  /// Dropping connections keeps the pool to incoming ones.
  lemma IncomingOnlyAfterRemoval<A>(pending: map<ConnectionId, PendingConnection>, established: map<ConnectionId, EstablishedConnection<A>>,
                                    x: set<ConnectionId>, y: set<ConnectionId>)
    requires IncomingOnly(pending, established)
    ensures IncomingOnly(pending - x, established - y)
  {
  }

  /// What the environment gives at one pass of `poll_next_event`: the
  /// readiness of the established connections, the behaviour's next
  /// event, its answer to a newly established connection, the pool's
  /// next events, the next event of any listener, and the behaviour's
  /// answer to the connection that event may bring in.
  datatype Turn<Ev, A, HEv, U> = Turn(
    status: map<ConnectionId, Readiness>,
    behavior: Poll<BehaviorEvent<Ev, A>>,
    admit: Result<(), ConnectionDenied>,
    established: Poll<Option<EstablishedEvent<HEv>>>,
    pendingEvent: Poll<PendingEvent>,
    listener: Poll<Option<(ListenerId, Transport.ListenerEvent<U, IoError, Url>)>>,
    admitIncoming: Result<(), ConnectionDenied>)

  /// A turn with nothing to do: no behaviour event, no pool event and no listener event.
  predicate Quiet<Ev, A, HEv, U>(t: Turn<Ev, A, HEv, U>)
  {
    t.behavior.Pending? && !HasEvent(t.established, t.pendingEvent)
    && !(t.listener.Ready? && t.listener.value.Some?)
  }

  /// How one pass ends, as in the client swarm.
  datatype PassEnd<Ev> = Returned(result: Poll<SwarmEvent<Ev>>) | Again | Unfit

  /// `Swarm` of server.rs. The listeners themselves are inputs; what is
  /// kept of them is the ids whose close sender is held and the
  /// addresses they reported.
  class Swarm<A, Ev, HEv> {
    const pool: Pool<A>
    const connectionIds: ConnectionIdCounter
    const listenerIds: SwarmListener.ListenerIdCounter
    var pendingAction: Option<PendingAction<A>>
    var listenersAbort: set<ListenerId>
    var listenedAddresses: map<ListenerId, seq<Url>>
    var events: seq<SwarmEvent<Ev>>
    var calls: seq<BehaviorCall<HEv>>

    ghost predicate Valid()
      reads this, pool, connectionIds, listenerIds
    {
      && pool.Valid() && IncomingOnly(pool.pending, pool.established)
      && connectionIds.Valid() && listenerIds.Valid()
      && Distinct(listenedAddresses)
    }

    /// `Swarm::new`; the id counters are the process-wide ones.
    constructor(localId: PeerId, config: PoolConfig, connectionIds: ConnectionIdCounter, listenerIds: SwarmListener.ListenerIdCounter)
      requires connectionIds.Valid() && listenerIds.Valid()
      ensures Valid() && fresh(pool)
      ensures this.connectionIds == connectionIds && this.listenerIds == listenerIds
      ensures pool.localId == localId && pool.config == config
      ensures pool.pending == map[] && pool.established == map[]
      ensures pendingAction.None? && listenersAbort == {} && listenedAddresses == map[]
      ensures events == [] && calls == []
    {
      pool := new Pool(localId, config);
      this.connectionIds := connectionIds;
      this.listenerIds := listenerIds;
      pendingAction := None;
      listenersAbort := {};
      listenedAddresses := map[];
      events := [];
      calls := [];
    }

    /// `close_connection`: true exactly when the connection is
    /// established, and then it is sent a Close command.
    method CloseConnection(id: ConnectionId) returns (r: bool)
      requires Valid()
      modifies pool
      ensures Valid()
      ensures r <==> id in old(pool.established)
      ensures pool.established == (if r then old(pool.established)[id := StartClose(old(pool.established)[id])]
                                   else old(pool.established))
      ensures pool.pending == old(pool.pending) && pool.owner == old(pool.owner)
    {
      if id in pool.established {
        pool.Enqueue(id, Close);
        return true;
      }
      return false;
    }

    /// `listen_on`: the address gets a fresh listener id; when the
    /// transport listens on it, the listener's close sender is kept and
    /// the behaviour is told of a new listener; otherwise the behaviour
    /// is told of the error, which is returned, and nothing is kept.
    method ListenOn(addr: Url, transport: Result<(), TransportFailure>) returns (r: Result<ListenerId, TransportFailure>)
      requires Valid()
      modifies this, listenerIds
      ensures Valid()
      ensures var id := SwarmListener.ListenerId(old(listenerIds.next));
              && listenerIds.next == Successor(old(listenerIds.next))
              && (transport.Ok? ==>
                    && r == Ok(id) && listenersAbort == old(listenersAbort) + {id}
                    && calls == old(calls) + [OnListenerEvent(SwarmListener.NewListener(id))])
              && (transport.Err? ==>
                    && r == Err(transport.error) && listenersAbort == old(listenersAbort)
                    && calls == old(calls) + [OnListenerEvent(SwarmListener.ListenerError(id, ListenOnFailure(transport.error)))])
      ensures listenedAddresses == old(listenedAddresses) && events == old(events) && pendingAction == old(pendingAction)
    {
      var opts := SwarmListener.NewListenOpts(listenerIds, addr);
      if transport.Err? {
        calls := calls + [OnListenerEvent(SwarmListener.ListenerError(opts.id, ListenOnFailure(transport.error)))];
        return Err(transport.error);
      }
      listenersAbort := listenersAbort + {opts.id};
      calls := calls + [OnListenerEvent(SwarmListener.NewListener(opts.id))];
      return Ok(opts.id);
    }

    /// `remove_listener`: true exactly when the listener's close sender
    /// was held; it is dropped, which closes the listener.
    method RemoveListener(id: ListenerId) returns (r: bool)
      modifies this
      ensures r <==> id in old(listenersAbort)
      ensures listenersAbort == old(listenersAbort) - {id}
      ensures listenedAddresses == old(listenedAddresses) && events == old(events) && calls == old(calls)
      ensures pendingAction == old(pendingAction)
    {
      r := id in listenersAbort;
      listenersAbort := listenersAbort - {id};
    }

    /// `handle_pool_event`. The pool only ever reports incoming
    /// connections here (the dialer arms are `unreachable!`). A
    /// connection the behaviour refuses is reported as a Denied listen
    /// error and not spawned.
    method HandlePoolEvent(ev: PoolEvent<HEv>, admit: Result<(), ConnectionDenied>)
      requires Valid()
      requires !ev.ConnectionEvent? ==> ev.endpoint.ListenerPoint?
      requires ev.ConnectionEstablished? ==> ev.id !in pool.established && ev.id !in pool.pending
      modifies pool, this
      ensures Valid()
      ensures ev.ConnectionEstablished? && admit.Err? ==>
                var err := ListenDenied(admit.error);
                var e := ev.endpoint;
                && calls == old(calls) + [OnListenFailure(ev.id, Some(ev.peer), e.localAddr, e.remoteAddr, err)]
                && events == old(events) + [IncomingConnectionError(ev.id, e.localAddr, e.remoteAddr, err, Some(ev.peer))]
      ensures ev.ConnectionEstablished? && admit.Ok? ==>
                var e := ev.endpoint;
                && calls == old(calls) + [OnConnectionEstablished(ev.id, ev.peer, e.localAddr, e.remoteAddr)]
                && events == old(events) + [SwarmEvent.ConnectionEstablished(ev.peer, ev.id, e.localAddr, e.remoteAddr,
                                                                             |old(pool.EstablishedOf(ev.peer))|)]
                && pool.established == old(pool.established)[ev.id := EstablishedConnection(e, [])]
                && pool.spawned == old(pool.spawned) + [InboundTask(ev.id, ev.peer, pool.config.maxNegotiatingInboundStreams,
                                                                    pool.config.idleConnectionTimeout)]
      ensures ev.PendingConnectionError? ==>
                var err := ListenErrorOf(ev.error);
                var e := ev.endpoint;
                && calls == old(calls) + [OnListenFailure(ev.id, ev.expected, e.localAddr, e.remoteAddr, err)]
                && events == old(events) + [IncomingConnectionError(ev.id, e.localAddr, e.remoteAddr, err, ev.expected)]
      ensures ev.ConnectionClosed? ==>
                var e := ev.endpoint;
                && calls == old(calls) + [OnConnectionClosed(ev.id, ev.peer, e.localAddr, e.remoteAddr, ev.closeError)]
                && events == old(events) + [SwarmEvent.ConnectionClosed(ev.id, ev.peer, e.localAddr, e.remoteAddr,
                                                                        ev.numRemaining, ev.closeError)]
      ensures ev.ConnectionEvent? ==>
                calls == old(calls) + [OnHandlerEvent(ev.id, ev.peer, ev.event)] && events == old(events)
      ensures !(ev.ConnectionEstablished? && admit.Ok?) ==> pool.established == old(pool.established)
      ensures old(calls) <= calls
      ensures pool.pending == old(pool.pending) && pendingAction == old(pendingAction)
      ensures listenersAbort == old(listenersAbort) && listenedAddresses == old(listenedAddresses)
    {
      match ev {
        case ConnectionEstablished(id, peer, endpoint) =>
          if admit.Err? {
            var err := ListenDenied(admit.error);
            calls := calls + [OnListenFailure(id, Some(peer), endpoint.localAddr, endpoint.remoteAddr, err)];
            events := events + [IncomingConnectionError(id, endpoint.localAddr, endpoint.remoteAddr, err, Some(peer))];
            return;
          }
          var n := pool.NumPeerEstablished(peer);
          pool.SpawnInboundConnection(id, peer, endpoint);
          calls := calls + [OnConnectionEstablished(id, peer, endpoint.localAddr, endpoint.remoteAddr)];
          events := events + [SwarmEvent.ConnectionEstablished(peer, id, endpoint.localAddr, endpoint.remoteAddr, n)];
        case PendingConnectionError(id, expected, endpoint, error) =>
          var err := ListenErrorOf(error);
          calls := calls + [OnListenFailure(id, expected, endpoint.localAddr, endpoint.remoteAddr, err)];
          events := events + [IncomingConnectionError(id, endpoint.localAddr, endpoint.remoteAddr, err, expected)];
        case ConnectionClosed(id, peer, endpoint, remaining, error) =>
          calls := calls + [OnConnectionClosed(id, peer, endpoint.localAddr, endpoint.remoteAddr, error)];
          events := events + [SwarmEvent.ConnectionClosed(id, peer, endpoint.localAddr, endpoint.remoteAddr, remaining, error)];
        case ConnectionEvent(id, peer, event) =>
          calls := calls + [OnHandlerEvent(id, peer, event)];
      }
    }

    /// The Incoming arm of `handle_listener_event`: the connection gets a
    /// fresh id; refused by the behaviour, it is reported and not added
    /// to the pool; accepted, it is added once and reported.
    method HandleIncoming(localAddr: Url, remoteAddr: Url, admit: Result<(), ConnectionDenied>) returns (id: ConnectionId)
      requires Valid()
      requires ConnectionId(connectionIds.next) !in pool.pending && ConnectionId(connectionIds.next) !in pool.established
      modifies this, pool, connectionIds
      ensures Valid()
      ensures id == ConnectionId(old(connectionIds.next)) && connectionIds.next == Successor(old(connectionIds.next))
      ensures admit.Err? ==>
                && calls == old(calls) + [OnListenFailure(id, None, localAddr, remoteAddr, ListenDenied(admit.error))]
                && events == old(events) + [IncomingConnectionError(id, localAddr, remoteAddr, ListenDenied(admit.error), None)]
                && pool.pending == old(pool.pending) && pool.spawned == old(pool.spawned)
      ensures admit.Ok? ==>
                && calls == old(calls)
                && events == old(events) + [IncomingConnection(id, localAddr, remoteAddr)]
                && pool.pending == old(pool.pending)[id := PendingConnection(None, ListenerPoint(localAddr, remoteAddr))]
                && pool.spawned == old(pool.spawned) + [PendingTask(id, remoteAddr)]
      ensures pool.established == old(pool.established)
      ensures listenersAbort == old(listenersAbort) && listenedAddresses == old(listenedAddresses)
      ensures pendingAction == old(pendingAction)
    {
      id := connectionIds.Next();
      if admit.Err? {
        var err := ListenDenied(admit.error);
        calls := calls + [OnListenFailure(id, None, localAddr, remoteAddr, err)];
        events := events + [IncomingConnectionError(id, localAddr, remoteAddr, err, None)];
        return;
      }
      pool.AddIncoming(id, localAddr, remoteAddr);
      events := events + [IncomingConnection(id, localAddr, remoteAddr)];
    }

    /// The Closed arm of `handle_listener_event`: the listener's
    /// addresses leave the table, the behaviour is told that each has
    /// expired, in order, and then that the listener closed.
    method HandleListenerClosed(id: ListenerId, reason: Result<(), IoError>)
      requires Valid()
      modifies this
      ensures Valid()
      ensures listenedAddresses == old(listenedAddresses) - {id}
      ensures var behaviorReason: Result<(), ListenFailure> := if reason.Ok? then Ok(()) else Err(ListenerIoFailure(reason.error));
              calls == old(calls) + ExpiryCalls(id, AddressesOf(old(listenedAddresses), id))
                                  + [OnListenerEvent(SwarmListener.ListenerClosed(id, behaviorReason))]
      ensures events == old(events) + [ListenerClosed(id, reason)]
      ensures listenersAbort == old(listenersAbort) && pendingAction == old(pendingAction)
    {
      var expired := AddressesOf(listenedAddresses, id);
      listenedAddresses := listenedAddresses - {id};
      var told: seq<BehaviorCall<HEv>> := [];
      var i := 0;
      while i < |expired|
        invariant 0 <= i <= |expired|
        invariant told == ExpiryCalls(id, expired[..i])
      {
        assert expired[..i + 1][..i] == expired[..i];
        told := told + [OnListenerEvent(SwarmListener.ExpiredListenAddr(id, expired[i]))];
        i := i + 1;
      }
      assert expired[..i] == expired;
      var behaviorReason: Result<(), ListenFailure> := if reason.Ok? then Ok(()) else Err(ListenerIoFailure(reason.error));
      calls := calls + told + [OnListenerEvent(SwarmListener.ListenerClosed(id, behaviorReason))];
      events := events + [ListenerClosed(id, reason)];
    }

    /// `handle_listener_event`, for an event of listener `id`. A reported
    /// address enters the table once and is announced; an error is
    /// announced. The transport's AddressExpired event has no arm here and
    /// is ignored.
    method HandleListenerEvent<U>(id: ListenerId, ev: Transport.ListenerEvent<U, IoError, Url>, admit: Result<(), ConnectionDenied>)
      returns (accepted: Option<ConnectionId>)
      requires Valid()
      requires ev.Incoming? ==> ConnectionId(connectionIds.next) !in pool.pending && ConnectionId(connectionIds.next) !in pool.established
      modifies this, pool, connectionIds
      ensures Valid()
      ensures ev.NewAddress? ==>
                && listenedAddresses == WithListened(old(listenedAddresses), id, ev.addr)
                && calls == old(calls) + [OnListenerEvent(SwarmListener.NewListenAddr(id, ev.addr))]
                && events == old(events) + [NewListenAddr(id, ev.addr)]
      ensures ev.Closed? ==> listenedAddresses == old(listenedAddresses) - {id}
                             && events == old(events) + [ListenerClosed(id, ev.res)]
      ensures ev.Error? ==>
                && calls == old(calls) + [OnListenerEvent(SwarmListener.ListenerError(id, ListenerIoFailure(ev.err)))]
                && events == old(events) + [ListenerError(id, ev.err)]
      ensures ev.AddressExpired? ==> calls == old(calls) && events == old(events)
      ensures ev.Incoming? <==> accepted.Some?
      ensures !ev.Incoming? ==> pool.pending == old(pool.pending)
      ensures !ev.NewAddress? && !ev.Closed? ==> listenedAddresses == old(listenedAddresses)
      ensures old(calls) <= calls
      ensures pool.established == old(pool.established)
      ensures listenersAbort == old(listenersAbort) && pendingAction == old(pendingAction)
    {
      accepted := None;
      match ev {
        case Incoming(localAddr, remoteAddr, _) =>
          var c := HandleIncoming(localAddr, remoteAddr, admit);
          accepted := Some(c);
        case NewAddress(addr) =>
          ListenedKeepsDistinct(listenedAddresses, id, addr);
          listenedAddresses := WithListened(listenedAddresses, id, addr);
          calls := calls + [OnListenerEvent(SwarmListener.NewListenAddr(id, addr))];
          events := events + [NewListenAddr(id, addr)];
        case AddressExpired(_) =>
        case Closed(reason) =>
          HandleListenerClosed(id, reason);
        case Error(err) =>
          calls := calls + [OnListenerEvent(SwarmListener.ListenerError(id, ListenerIoFailure(err)))];
          events := events + [ListenerError(id, err)];
      }
    }

    /// The behaviour part of `poll_next_event`, reached only with no
    /// pending action (so the `assert!` of `handle_behavior_event`
    /// holds).
    method PollBehavior(ev: BehaviorEvent<Ev, A>)
      requires Valid() && pendingAction.None?
      modifies pool, this
      ensures Valid()
      ensures ev.BehaviorOut? ==> events == old(events) + [Behavior(ev.event)]
      ensures !ev.BehaviorOut? ==> events == old(events)
      ensures calls == old(calls)
      ensures !ev.HandlerAction? ==> pendingAction.None?
      ensures ev.HandlerAction? && ev.handler.ToOne? ==> pendingAction == Some(PendingAction(ev.peer, PendingOne(ev.handler.id), ev.action))
      ensures ev.HandlerAction? && ev.handler.ToAny? ==>
                pendingAction.Some? && pendingAction.value.peer == ev.peer && pendingAction.value.action == ev.action
                && pendingAction.value.handler.PendingAny?
                && forall c :: c in pendingAction.value.handler.ids <==> c in old(pool.owner) && old(pool.owner)[c] == ev.peer
      ensures !ev.CloseRequest? ==> pool.established == old(pool.established) && pool.pending == old(pool.pending)
      ensures ev.CloseRequest? && ev.target.CloseOne? ==>
                pool.pending == old(pool.pending)
                && pool.established == (if ev.target.id in old(pool.established)
                                        then old(pool.established)[ev.target.id := StartClose(old(pool.established)[ev.target.id])]
                                        else old(pool.established))
      ensures ev.CloseRequest? && ev.target.CloseEvery? ==>
                pool.pending == old(pool.pending) - old(pool.PendingOf(ev.peer))
                && pool.established == CloseAll(old(pool.established), old(pool.EstablishedOf(ev.peer)))
    {
      var out, action := HandleBehaviorEvent(pool, pendingAction, ev);
      pendingAction := action;
      if out.Some? {
        events := events + [Behavior(out.value)];
      }
    }

    /// The pool part of `poll_next_event`: Again when the pool had an
    /// event, Returned(Pending) when it had none.
    method PollPool<U>(t: Turn<Ev, A, HEv, U>) returns (end: PassEnd<Ev>)
      requires Valid()
      modifies pool, this
      ensures Valid()
      ensures old(calls) <= calls
      ensures end == Unfit <==> !old(pool.Fits(t.established, t.pendingEvent))
      ensures end == Again <==> old(pool.Fits(t.established, t.pendingEvent)) && HasEvent(t.established, t.pendingEvent)
      ensures end == Returned(Pending) <==> !HasEvent(t.established, t.pendingEvent)
      ensures end != Again ==> events == old(events) && calls == old(calls)
                               && pool.pending == old(pool.pending) && pool.established == old(pool.established)
      ensures pendingAction == old(pendingAction)
    {
      var busy := t.established.Ready? && t.established.value.Some?;
      if busy && t.established.value.value.EstablishedClosed? {
        var e := t.established.value.value;
        if e.id !in pool.EstablishedOf(e.peer) {
          return Unfit;
        }
        pool.ListedIsOwned(e.id, e.peer);
      }
      if !busy && t.pendingEvent.Ready? && t.pendingEvent.value.id !in pool.pending {
        return Unfit;
      }
      ghost var pending0, established0 := pool.pending, pool.established;
      var r := pool.Poll(t.established, t.pendingEvent);
      if r.Pending? {
        return Returned(Pending);
      }
      var ev := r.value;
      if busy {
        var e := t.established.value.value;
        if e.EstablishedClosed? {
          IncomingOnlyAfterRemoval(pending0, established0, {}, {e.id});
          assert pool.pending == pending0 - {};
        }
      } else {
        var id := t.pendingEvent.value.id;
        IncomingOnlyAfterRemoval(pending0, established0, {id}, {});
        assert pool.established == established0 - {};
        assert ev.id == id && ev.endpoint == pending0[id].endpoint;
      }
      HandlePoolEvent(ev, t.admit);
      return Again;
    }

    /// One pass of the loop of `poll_next_event`: a queued event is
    /// returned first; then the pending action is offered, or, when there
    /// is none, the behaviour is polled; then the pool; then the
    /// listeners.
    method Pass<U>(t: Turn<Ev, A, HEv, U>) returns (end: PassEnd<Ev>)
      requires Valid()
      modifies pool, this, connectionIds
      ensures Valid()
      ensures old(calls) <= calls
      ensures old(events) == [] && end.Returned? ==> end.result.Pending?
      ensures old(events) != [] ==> end == Returned(Ready(old(events)[0])) && events == old(events)[1..]
                                    && calls == old(calls) && pendingAction == old(pendingAction)
                                    && pool.pending == old(pool.pending) && pool.established == old(pool.established)
                                    && listenedAddresses == old(listenedAddresses)
      ensures end == Returned(Pending) ==> !HasEvent(t.established, t.pendingEvent)
      ensures old(events) == [] && old(pendingAction).Some? && t.status.Keys != old(pool.established.Keys) ==>
                end == Unfit && events == [] && calls == old(calls) && pendingAction == old(pendingAction)
                && pool.pending == old(pool.pending) && pool.established == old(pool.established)
      ensures old(events) == [] && old(pendingAction).None? && t.behavior.Ready? ==>
                end == Again && calls == old(calls)
                && events == (if t.behavior.value.BehaviorOut? then [Behavior(t.behavior.value.event)] else [])
      ensures old(events) == [] && old(pendingAction).None? && Quiet(t) ==>
                end == Returned(Pending) && events == [] && calls == old(calls) && pendingAction.None?
                && pool.pending == old(pool.pending) && pool.established == old(pool.established)
    {
      if events != [] {
        var e := events[0];
        events := events[1..];
        return Returned(Ready(e));
      }
      if pendingAction.Some? {
        if t.status.Keys != pool.established.Keys {
          return Unfit;
        }
        var p := pendingAction.value;
        pendingAction := None;
        var back, sentTo := DeliverPending(pool, p, t.status);
        if back.None? {
          return Again;
        }
        pendingAction := back;
      } else if t.behavior.Ready? {
        PollBehavior(t.behavior.value);
        return Again;
      }
      end := PollPool(t);
      if end != Returned(Pending) {
        return;
      }
      end := PollListeners(t.listener, t.admitIncoming);
    }

    /// The listener part of `poll_next_event`: Again when a listener had
    /// an event, Returned(Pending) when none had.
    method PollListeners<U>(next: Poll<Option<(ListenerId, Transport.ListenerEvent<U, IoError, Url>)>>,
                            admit: Result<(), ConnectionDenied>) returns (end: PassEnd<Ev>)
      requires Valid()
      modifies pool, this, connectionIds
      ensures Valid()
      ensures end == Again || end == Returned(Pending) || end == Unfit
      ensures end == Returned(Pending) <==> !(next.Ready? && next.value.Some?)
      ensures end == Unfit <==> next.Ready? && next.value.Some? && next.value.value.1.Incoming?
                                && var c := ConnectionId(old(connectionIds.next));
                                   c in old(pool.pending) || c in old(pool.established)
      ensures end != Again ==> events == old(events) && calls == old(calls)
                               && pool.pending == old(pool.pending) && pool.established == old(pool.established)
      ensures old(calls) <= calls && pendingAction == old(pendingAction)
    {
      if next.Ready? && next.value.Some? {
        var (id, ev) := next.value.value;
        if ev.Incoming? && (ConnectionId(connectionIds.next) in pool.pending || ConnectionId(connectionIds.next) in pool.established) {
          return Unfit;
        }
        var _ := HandleListenerEvent(id, ev, admit);
        return Again;
      }
      return Returned(Pending);
    }

    /// `poll_next_event`: passes, one per turn, until one returns. None
    /// when the turns run out first or one of them cannot happen.
    method PollNextEvent<U>(turns: seq<Turn<Ev, A, HEv, U>>) returns (r: Option<Poll<SwarmEvent<Ev>>>)
      requires Valid()
      modifies pool, this, connectionIds
      ensures Valid()
      ensures old(calls) <= calls
      ensures old(events) != [] && turns != [] ==>
                r == Some(Ready(old(events)[0])) && events == old(events)[1..] && calls == old(calls)
                && pendingAction == old(pendingAction)
                && pool.pending == old(pool.pending) && pool.established == old(pool.established)
                && listenedAddresses == old(listenedAddresses)
      ensures old(events) == [] && old(pendingAction).None? && turns != [] && Quiet(turns[0]) ==>
                r == Some(Pending) && events == [] && calls == old(calls) && pendingAction.None?
                && pool.pending == old(pool.pending) && pool.established == old(pool.established)
    {
      var i := 0;
      while i < |turns|
        invariant 0 <= i <= |turns| && Valid()
        invariant old(calls) <= calls
        invariant i > 0 ==> !(old(events) == [] && old(pendingAction).None? && Quiet(turns[0]))
        invariant i == 0 ==> events == old(events) && calls == old(calls) && pendingAction == old(pendingAction)
                             && pool.pending == old(pool.pending) && pool.established == old(pool.established)
        invariant old(events) != [] ==> i == 0 && events == old(events) && calls == old(calls)
                                        && pendingAction == old(pendingAction)
                                        && pool.pending == old(pool.pending) && pool.established == old(pool.established)
                                        && listenedAddresses == old(listenedAddresses)
      {
        var end := Pass(turns[i]);
        match end {
          case Returned(result) => return Some(result);
          case Unfit => return None;
          case Again =>
        }
        i := i + 1;
      }
      return None;
    }
  }
}
