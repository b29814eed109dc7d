// The connection pool of the swarm (volans-swarm/src/connection/pool.rs):
// connections waiting to be established, established connections, and
// for each peer the ids of its connections of either kind. The tasks that
// drive the connections, their channels and the executor are not part of
// this model: what the pool spawns is recorded in a list of tasks, and
// what it sends to an established connection is the list of commands
// queued on that connection's channel.
module SwarmPool {
  import opened Wrappers
  import opened Time
  import opened CoreConnection
  import opened SwarmError
  import opened SwarmConnection
  import Identity

  type PeerId = Identity.PeerId

  /// `PoolConfig` without its executor.
  datatype PoolConfig = PoolConfig(
    taskCommandBufferSize: nat,
    perConnectionEventBufferSize: nat,
    idleConnectionTimeout: Duration,
    maxNegotiatingInboundStreams: nat)

  /// `PoolConfig::new`: the defaults.
  function NewPoolConfig(): (c: PoolConfig)
    ensures c.taskCommandBufferSize == 32 && c.perConnectionEventBufferSize == 10
    ensures c.idleConnectionTimeout == 60 * NANOS_PER_SEC && c.maxNegotiatingInboundStreams == 128
  {
    PoolConfig(32, 10, Secs(60), 128)
  }

  /// The `with_*` setters each change their own field only.
  function WithTaskCommandBufferSize(c: PoolConfig, n: nat): PoolConfig
  {
    c.(taskCommandBufferSize := n)
  }

  function WithPerConnectionEventBufferSize(c: PoolConfig, n: nat): PoolConfig
  {
    c.(perConnectionEventBufferSize := n)
  }

  function WithIdleConnectionTimeout(c: PoolConfig, t: Duration): PoolConfig
  {
    c.(idleConnectionTimeout := t)
  }

  function WithMaxNegotiatingInboundStreams(c: PoolConfig, n: nat): PoolConfig
  {
    c.(maxNegotiatingInboundStreams := n)
  }

  /// Each setter changes its own field only: setting all four from the
  /// defaults, in either order, gives exactly the values set, and setting
  /// one keeps the other defaults.
  lemma ConfigSetters(a: nat, b: nat, t: Duration, m: nat)
    ensures WithMaxNegotiatingInboundStreams(WithIdleConnectionTimeout(
              WithPerConnectionEventBufferSize(WithTaskCommandBufferSize(NewPoolConfig(), a), b), t), m)
            == PoolConfig(a, b, t, m)
    ensures WithTaskCommandBufferSize(WithPerConnectionEventBufferSize(
              WithIdleConnectionTimeout(WithMaxNegotiatingInboundStreams(NewPoolConfig(), m), t), b), a)
            == PoolConfig(a, b, t, m)
    ensures WithIdleConnectionTimeout(NewPoolConfig(), t) == PoolConfig(32, 10, t, 128)
  {
  }

  /// `PendingConnection`: the peer expected, if any, and the endpoint.
  datatype PendingConnection = PendingConnection(peer: Option<PeerId>, endpoint: ConnectedPoint)

  /// `task::Command`.
  datatype Command<A> = Action(action: A) | Close

  /// `EstablishedConnection`: the endpoint and the commands sent on the
  /// connection's channel so far.
  datatype EstablishedConnection<A> = EstablishedConnection(endpoint: ConnectedPoint, commands: seq<Command<A>>)

  /// `EstablishedConnection::start_close`.
  function StartClose<A>(c: EstablishedConnection<A>): EstablishedConnection<A>
  {
    c.(commands := c.commands + [Close])
  }

  /// The tasks the pool hands to its executor.
  datatype Task =
    | PendingTask(id: ConnectionId, addr: Url)
    | InboundTask(id: ConnectionId, peer: PeerId, maxNegotiatingInbound: nat, idleTimeout: Duration)
    | OutboundTask(id: ConnectionId, peer: PeerId, idleTimeout: Duration)

  /// `task::PendingConnectionEvent` without the muxer.
  datatype PendingEvent =
    | PendingEstablished(id: ConnectionId, obtained: PeerId)
    | PendingFailed(id: ConnectionId, error: PendingConnectionError)

  /// `task::EstablishedConnectionEvent`.
  datatype EstablishedEvent<Ev> =
    | EstablishedNotify(id: ConnectionId, peer: PeerId, event: Ev)
    | EstablishedClosed(id: ConnectionId, peer: PeerId, error: Option<ConnectionError>)

  /// Whether `Pool::poll` has an event to give this time: one of an
  /// established connection, or a finished pending connection.
  predicate HasEvent<Ev>(established: Poll<Option<EstablishedEvent<Ev>>>, pendingEvent: Poll<PendingEvent>)
  {
    (established.Ready? && established.value.Some?) || pendingEvent.Ready?
  }

  /// `PoolEvent`, without the new connection's muxer and the time it took.
  datatype PoolEvent<Ev> =
    | ConnectionEstablished(id: ConnectionId, peer: PeerId, endpoint: ConnectedPoint)
    | PendingConnectionError(id: ConnectionId, expected: Option<PeerId>, endpoint: ConnectedPoint, error: PendingConnectionError)
    | ConnectionClosed(id: ConnectionId, peer: PeerId, endpoint: ConnectedPoint, numRemaining: nat, closeError: Option<ConnectionError>)
    | ConnectionEvent(id: ConnectionId, peer: PeerId, event: Ev)

  /// How a finished pending connection settles: established with the
  /// peer obtained, or an error that keeps the peer the dial expected.
  datatype Settled =
    | Connected(id: ConnectionId, peer: PeerId, endpoint: ConnectedPoint)
    | Errored(id: ConnectionId, expected: Option<PeerId>, endpoint: ConnectedPoint, error: PendingConnectionError)

  /// The pool event that reports a settled pending connection.
  function Reported<Ev>(s: Settled): PoolEvent<Ev>
  {
    match s
    case Connected(id, peer, endpoint) => ConnectionEstablished(id, peer, endpoint)
    case Errored(id, expected, endpoint, error) => PendingConnectionError(id, expected, endpoint, error)
  }

  /// How a finished pending connection settles, as the check of the
  /// expected peer is evidently meant: a peer other than the one dialled
  /// is WrongPeerId, then a connection to the local peer is LocalPeerId; a
  /// failure is passed on.
  function PendingOutcome(localId: PeerId, expected: Option<PeerId>, endpoint: ConnectedPoint, ev: PendingEvent): (r: Settled)
    requires expected.Some? ==> endpoint.DialerPoint?
    ensures r.id == ev.id && r.endpoint == endpoint
    ensures r.Connected? <==>
              ev.PendingEstablished? && (expected.None? || expected == Some(ev.obtained)) && localId != ev.obtained
    ensures r.Connected? ==> r.peer == ev.obtained
    ensures r.Errored? ==> r.expected == expected
    ensures ev.PendingEstablished? && expected.Some? && expected.value != ev.obtained ==>
              r.Errored? && r.error == PendingWrongPeerId(ev.obtained)
    ensures ev.PendingEstablished? && (expected.None? || expected == Some(ev.obtained)) && localId == ev.obtained ==>
              r.Errored? && r.error == PendingLocalPeerId
    ensures ev.PendingFailed? ==> r == Errored(ev.id, expected, endpoint, ev.error)
  {
    match ev
    case PendingEstablished(id, obtained) =>
      if expected.Some? && expected.value != obtained then
        Errored(id, expected, endpoint, PendingWrongPeerId(obtained))
      else if localId == obtained then
        Errored(id, expected, endpoint, PendingLocalPeerId)
      else
        Connected(id, obtained, endpoint)
    case PendingFailed(id, error) => Errored(id, expected, endpoint, error)
  }

  /// The same, as pool.rs:423-442 writes it: the expected peer is compared
  /// with itself, so the mismatch branch (and its unreachable listener
  /// case) is dead and WrongPeerId is never produced.
  function PendingOutcomeAsWritten(localId: PeerId, expected: Option<PeerId>, endpoint: ConnectedPoint, ev: PendingEvent): (r: Settled)
    ensures r.id == ev.id && r.endpoint == endpoint
    ensures r.Connected? <==> ev.PendingEstablished? && localId != ev.obtained
    ensures r.Connected? ==> r.peer == ev.obtained
    ensures r.Errored? ==> r.expected == expected
    ensures ev.PendingEstablished? && r.Errored? ==> r.error == PendingLocalPeerId
    ensures ev.PendingFailed? ==> r == Errored(ev.id, expected, endpoint, ev.error)
  {
    match ev
    case PendingEstablished(id, obtained) =>
      if (match expected case Some(peerId) => peerId != peerId case None => false) then
        Errored(id, expected, endpoint, match expected case Some(peerId) => PendingWrongPeerId(peerId) case None => PendingAborted)
      else if localId == obtained then
        Errored(id, expected, endpoint, PendingLocalPeerId)
      else
        Connected(id, obtained, endpoint)
    case PendingFailed(id, error) => Errored(id, expected, endpoint, error)
  }

  /// As written, a dial to peer `a` that reaches peer `b` is reported as
  /// established with `b`, where WrongPeerId was intended.
  lemma WrongPeerAccepted(localId: PeerId, a: PeerId, b: PeerId, id: ConnectionId, addr: Url)
    requires a != b && localId != b
    ensures PendingOutcomeAsWritten(localId, Some(a), DialerPoint(addr), PendingEstablished(id, b))
            == Connected(id, b, DialerPoint(addr))
    ensures PendingOutcome(localId, Some(a), DialerPoint(addr), PendingEstablished(id, b))
            == Errored(id, Some(a), DialerPoint(addr), PendingWrongPeerId(b))
  {
  }

  /// As written, an established connection never yields WrongPeerId, and
  /// the outcome agrees with the intended one whenever the expected peer
  /// is the one obtained.
  lemma AsWrittenIgnoresExpected(localId: PeerId, expected: Option<PeerId>, endpoint: ConnectedPoint, ev: PendingEvent)
    requires expected.Some? ==> endpoint.DialerPoint?
    ensures ev.PendingEstablished? ==>
              !(PendingOutcomeAsWritten(localId, expected, endpoint, ev).Errored?
                && PendingOutcomeAsWritten(localId, expected, endpoint, ev).error.PendingWrongPeerId?)
    ensures (ev.PendingFailed? || expected.None? || expected == Some(ev.obtained)) ==>
              PendingOutcomeAsWritten(localId, expected, endpoint, ev) == PendingOutcome(localId, expected, endpoint, ev)
  {
  }

  /// The ids listed under a peer in a per-peer table, none for an
  /// unknown peer.
  function Listed(table: map<PeerId, set<ConnectionId>>, peer: PeerId): set<ConnectionId>
  {
    if peer in table then table[peer] else {}
  }

  /// An established connection `c` is listed under its own peer. The
  /// invariant's quantifiers hang on this term and the next, so that they
  /// only fire where a proof names them.
  ghost predicate OwnerListed(establishedPeer: map<PeerId, set<ConnectionId>>, owner: map<ConnectionId, PeerId>, c: ConnectionId)
  {
    c in owner ==> owner[c] in establishedPeer && c in establishedPeer[owner[c]]
  }

  /// A peer with a set in the per-peer table has connections, all its own.
  ghost predicate ListingOwned(establishedPeer: map<PeerId, set<ConnectionId>>, owner: map<ConnectionId, PeerId>, p: PeerId)
  {
    p in establishedPeer ==>
      establishedPeer[p] != {} && forall c :: c in establishedPeer[p] ==> c in owner && owner[c] == p
  }

  /// The per-peer sets of established ids are non-empty and partition
  /// the connections: each connection is listed under its own peer and
  /// only there.
  ghost predicate Partitioned(establishedPeer: map<PeerId, set<ConnectionId>>, owner: map<ConnectionId, PeerId>)
  {
    (forall c :: OwnerListed(establishedPeer, owner, c))
    && (forall p :: ListingOwned(establishedPeer, owner, p))
  }

  /// A pending connection with an expected peer is a dial and is listed
  /// under that peer.
  ghost predicate DialsListed(pending: map<ConnectionId, PendingConnection>, pendingPeer: map<PeerId, set<ConnectionId>>)
  {
    forall c :: c in pending && pending[c].peer.Some? ==>
      pending[c].endpoint.DialerPoint? && c in Listed(pendingPeer, pending[c].peer.value)
  }

  /// Removing the keys one at a time is removing them all.
  lemma RemoveStep<V>(m: map<ConnectionId, V>, done: set<ConnectionId>, c: ConnectionId)
    ensures (m - done) - {c} == m - (done + {c})
    ensures c !in m - done ==> m - done == m - (done + {c})
  {
  }

  /// The invariant, with its quantifiers hung on ordinary terms.
  lemma PartitionedListing(ep: map<PeerId, set<ConnectionId>>, owner: map<ConnectionId, PeerId>)
    requires Partitioned(ep, owner)
    ensures forall c :: c in owner ==> owner[c] in ep && c in ep[owner[c]]
    ensures forall p :: p in ep ==> ep[p] != {}
    ensures forall p, c :: p in ep && c in ep[p] ==> c in owner && owner[c] == p
  {
    forall c | c in owner
      ensures owner[c] in ep && c in ep[owner[c]]
    {
      assert OwnerListed(ep, owner, c);
    }
    forall p | p in ep
      ensures ep[p] != {} && forall c :: c in ep[p] ==> c in owner && owner[c] == p
    {
      assert ListingOwned(ep, owner, p);
    }
  }

  lemma ListingPartitioned(ep: map<PeerId, set<ConnectionId>>, owner: map<ConnectionId, PeerId>)
    requires forall c :: c in owner ==> owner[c] in ep && c in ep[owner[c]]
    requires forall p :: p in ep ==> ep[p] != {}
    requires forall p, c :: p in ep && c in ep[p] ==> c in owner && owner[c] == p
    ensures Partitioned(ep, owner)
  {
  }

  lemma PartitionedAfterEstablish(ep: map<PeerId, set<ConnectionId>>, owner: map<ConnectionId, PeerId>, id: ConnectionId, peer: PeerId)
    requires Partitioned(ep, owner) && id !in owner
    ensures Partitioned(ep[peer := Listed(ep, peer) + {id}], owner[id := peer])
  {
    PartitionedListing(ep, owner);
    ListingPartitioned(ep[peer := Listed(ep, peer) + {id}], owner[id := peer]);
  }

  /// The table with `id` taken off the peer's set, and the peer dropped
  /// once its set is empty.
  function Unlisted(table: map<PeerId, set<ConnectionId>>, peer: PeerId, id: ConnectionId): (r: map<PeerId, set<ConnectionId>>)
    ensures Listed(r, peer) == Listed(table, peer) - {id}
    ensures forall p :: p != peer ==> Listed(r, p) == Listed(table, p)
    ensures peer in r <==> Listed(table, peer) - {id} != {}
  {
    var rest := Listed(table, peer) - {id};
    if rest == {} then table - {peer} else table[peer := rest]
  }

  lemma PartitionedAfterClose(ep: map<PeerId, set<ConnectionId>>, owner: map<ConnectionId, PeerId>, id: ConnectionId, peer: PeerId)
    requires Partitioned(ep, owner) && id in owner && owner[id] == peer
    ensures Partitioned(Unlisted(ep, peer, id), owner - {id})
    ensures id in Listed(ep, peer)
  {
    PartitionedListing(ep, owner);
    var ep' := Unlisted(ep, peer, id);
    var owner' := owner - {id};
    forall c | c in owner'
      ensures owner'[c] in ep' && c in ep'[owner'[c]]
    {
      assert c in Listed(ep, owner[c]);
    }
    forall p, c | p in ep' && c in ep'[p]
      ensures c in owner' && owner'[c] == p
    {
      assert c in Listed(ep', p);
    }
    ListingPartitioned(ep', owner');
  }

  lemma DialsListedAfterAdd(pending: map<ConnectionId, PendingConnection>, pp: map<PeerId, set<ConnectionId>>, id: ConnectionId, peer: Option<PeerId>, endpoint: ConnectedPoint)
    requires DialsListed(pending, pp) && (peer.Some? ==> endpoint.DialerPoint?)
    ensures DialsListed(pending[id := PendingConnection(peer, endpoint)],
                        if peer.Some? then pp[peer.value := Listed(pp, peer.value) + {id}] else pp)
  {
  }

  lemma DialsListedAfterRemove(pending: map<ConnectionId, PendingConnection>, pp: map<PeerId, set<ConnectionId>>, peer: PeerId)
    requires DialsListed(pending, pp)
    ensures DialsListed(pending - Listed(pp, peer), pp - {peer})
  {
  }

  lemma DialsListedAfterTake(pending: map<ConnectionId, PendingConnection>, pp: map<PeerId, set<ConnectionId>>, id: ConnectionId)
    requires DialsListed(pending, pp)
    ensures DialsListed(pending - {id}, pp)
  {
  }

  /// `Pool`.
  class Pool<A> {
    const localId: PeerId
    const config: PoolConfig
    var pending: map<ConnectionId, PendingConnection>
    var pendingPeer: map<PeerId, set<ConnectionId>>
    var established: map<ConnectionId, EstablishedConnection<A>>
    var establishedPeer: map<PeerId, set<ConnectionId>>
    /// The peer each established connection belongs to.
    ghost var owner: map<ConnectionId, PeerId>
    /// The pending connections whose abort notifier was dropped.
    var aborted: set<ConnectionId>
    /// The tasks handed to the executor, in order.
    var spawned: seq<Task>
    /// Whether `no_established_connections_waker` holds a waker.
    var noEstablishedWaker: bool

    /// The per-peer sets of established ids are non-empty and partition
    /// the established connections; a pending connection with an
    /// expected peer is a dial and is listed under that peer.
    ghost predicate Valid()
      reads this
    {
      owner.Keys == established.Keys && Partitioned(establishedPeer, owner) && DialsListed(pending, pendingPeer)
    }

    /// `Pool::new`.
    constructor(localId: PeerId, config: PoolConfig)
      ensures Valid()
      ensures this.localId == localId && this.config == config
      ensures pending == map[] && pendingPeer == map[] && established == map[] && establishedPeer == map[]
      ensures aborted == {} && spawned == [] && !noEstablishedWaker
    {
      this.localId := localId;
      this.config := config;
      pending := map[];
      pendingPeer := map[];
      established := map[];
      establishedPeer := map[];
      owner := map[];
      aborted := {};
      spawned := [];
      noEstablishedWaker := false;
    }

    /// The ids listed under a peer, none for an unknown peer.
    function PendingOf(peer: PeerId): set<ConnectionId>
      reads this
    {
      Listed(pendingPeer, peer)
    }

    function EstablishedOf(peer: PeerId): set<ConnectionId>
      reads this
    {
      Listed(establishedPeer, peer)
    }

    /// Whether the events the tasks report can arise in this state: a
    /// Closed event is for an established connection of its peer, and a
    /// finished pending connection is one still pending.
    predicate Fits<Ev>(established: Poll<Option<EstablishedEvent<Ev>>>, pendingEvent: Poll<PendingEvent>)
      reads this
    {
      (established.Ready? && established.value.Some? && established.value.value.EstablishedClosed? ==>
         established.value.value.id in EstablishedOf(established.value.value.peer))
      && (!(established.Ready? && established.value.Some?) && pendingEvent.Ready? ==> pendingEvent.value.id in pending)
    }

    /// Some id listed under the peer is still pending, as a dial.
    predicate Dialing(peer: PeerId)
      reads this
    {
      exists c :: c in PendingOf(peer) && c in pending && pending[c].endpoint.DialerPoint?
    }

    /// `is_peer_connected`: the peer has an established connection.
    function IsPeerConnected(peer: PeerId): (r: bool)
      requires Valid()
      reads this
      ensures r <==> exists c :: c in owner && owner[c] == peer
    {
      PartitionedListing(establishedPeer, owner);
      if peer in establishedPeer then
        var c :| c in establishedPeer[peer];
        assert c in owner && owner[c] == peer;
        true
      else false
    }

    /// `num_peer_established`: the number of the peer's connections, 0
    /// exactly when it is not connected.
    function NumPeerEstablished(peer: PeerId): (n: nat)
      requires Valid()
      reads this
      ensures n == |EstablishedOf(peer)|
      ensures n == 0 <==> !IsPeerConnected(peer)
    {
      PartitionedListing(establishedPeer, owner);
      if peer in establishedPeer then |establishedPeer[peer]| else 0
    }

    /// `iter_established_connections_of_peer`, as a set: exactly the
    /// established connections that belong to the peer.
    function EstablishedConnectionsOf(peer: PeerId): (r: set<ConnectionId>)
      requires Valid()
      reads this
      ensures forall c :: c in r <==> c in owner && owner[c] == peer
    {
      PartitionedListing(establishedPeer, owner);
      EstablishedOf(peer)
    }

    /// `is_peer_dialing`: looks through the ids listed under the peer for
    /// one still pending as a dial; ids no longer pending are skipped.
    method IsPeerDialing(peer: PeerId) returns (r: bool)
      ensures r <==> Dialing(peer)
    {
      var ids := PendingOf(peer);
      while ids != {}
        invariant ids <= PendingOf(peer)
        invariant forall c :: c in PendingOf(peer) - ids ==> !(c in pending && pending[c].endpoint.DialerPoint?)
        decreases |ids|
      {
        var c :| c in ids;
        if c in pending && pending[c].endpoint.DialerPoint? {
          return true;
        }
        ids := ids - {c};
      }
      return false;
    }

    /// An id listed under a peer is an established connection of that
    /// peer.
    lemma ListedIsOwned(id: ConnectionId, peer: PeerId)
      requires Valid() && id in EstablishedOf(peer)
      ensures id in owner && owner[id] == peer && id in established
    {
      PartitionedListing(establishedPeer, owner);
    }

    /// A dial still pending for a peer makes the peer dialing.
    lemma PendingDialIsDialing(c: ConnectionId)
      requires Valid() && c in pending && pending[c].peer.Some?
      ensures Dialing(pending[c].peer.value)
    {
      assert c in PendingOf(pending[c].peer.value);
    }

    /// `add_outgoing`: a pending dial, listed under its peer if one is
    /// given.
    method AddOutgoing(id: ConnectionId, addr: Url, peer: Option<PeerId>)
      requires Valid()
      modifies this
      ensures Valid()
      ensures pending == old(pending)[id := PendingConnection(peer, DialerPoint(addr))]
      ensures peer.Some? ==> pendingPeer == old(pendingPeer)[peer.value := old(PendingOf(peer.value)) + {id}]
      ensures peer.None? ==> pendingPeer == old(pendingPeer)
      ensures spawned == old(spawned) + [PendingTask(id, addr)]
      ensures established == old(established) && establishedPeer == old(establishedPeer) && owner == old(owner)
      ensures aborted == old(aborted) && noEstablishedWaker == old(noEstablishedWaker)
    {
      DialsListedAfterAdd(pending, pendingPeer, id, peer, DialerPoint(addr));
      spawned := spawned + [PendingTask(id, addr)];
      if peer.Some? {
        pendingPeer := pendingPeer[peer.value := PendingOf(peer.value) + {id}];
      }
      pending := pending[id := PendingConnection(peer, DialerPoint(addr))];
    }

    /// `add_incoming`: a pending listener connection, expecting no peer
    /// and listed under none.
    method AddIncoming(id: ConnectionId, localAddr: Url, remoteAddr: Url)
      requires Valid()
      modifies this
      ensures Valid()
      ensures pending == old(pending)[id := PendingConnection(None, ListenerPoint(localAddr, remoteAddr))]
      ensures spawned == old(spawned) + [PendingTask(id, remoteAddr)]
      ensures pendingPeer == old(pendingPeer)
      ensures established == old(established) && establishedPeer == old(establishedPeer) && owner == old(owner)
      ensures aborted == old(aborted) && noEstablishedWaker == old(noEstablishedWaker)
    {
      DialsListedAfterAdd(pending, pendingPeer, id, None, ListenerPoint(localAddr, remoteAddr));
      spawned := spawned + [PendingTask(id, remoteAddr)];
      pending := pending[id := PendingConnection(None, ListenerPoint(localAddr, remoteAddr))];
    }

    /// What both `spawn_*_connection` do to the tables: the connection is
    /// established, with no command sent yet, and listed under its peer.
    method Establish(id: ConnectionId, peer: PeerId, endpoint: ConnectedPoint)
      requires Valid() && id !in established
      modifies this
      ensures Valid()
      ensures established == old(established)[id := EstablishedConnection(endpoint, [])]
      ensures establishedPeer == old(establishedPeer)[peer := old(EstablishedOf(peer)) + {id}]
      ensures owner == old(owner)[id := peer]
      ensures !noEstablishedWaker
      ensures pending == old(pending) && pendingPeer == old(pendingPeer) && aborted == old(aborted) && spawned == old(spawned)
    {
      PartitionedAfterEstablish(establishedPeer, owner, id, peer);
      establishedPeer := establishedPeer[peer := EstablishedOf(peer) + {id}];
      established := established[id := EstablishedConnection(endpoint, [])];
      owner := owner[id := peer];
      noEstablishedWaker := false;
    }

    /// `spawn_inbound_connection`.
    method SpawnInboundConnection(id: ConnectionId, peer: PeerId, endpoint: ConnectedPoint)
      requires Valid() && id !in established
      modifies this
      ensures Valid()
      ensures established == old(established)[id := EstablishedConnection(endpoint, [])]
      ensures establishedPeer == old(establishedPeer)[peer := old(EstablishedOf(peer)) + {id}]
      ensures spawned == old(spawned) + [InboundTask(id, peer, config.maxNegotiatingInboundStreams, config.idleConnectionTimeout)]
      ensures !noEstablishedWaker
      ensures pending == old(pending) && pendingPeer == old(pendingPeer) && aborted == old(aborted)
    {
      Establish(id, peer, endpoint);
      spawned := spawned + [InboundTask(id, peer, config.maxNegotiatingInboundStreams, config.idleConnectionTimeout)];
    }

    /// `spawn_outbound_connection`.
    method SpawnOutboundConnection(id: ConnectionId, peer: PeerId, endpoint: ConnectedPoint)
      requires Valid() && id !in established
      modifies this
      ensures Valid()
      ensures established == old(established)[id := EstablishedConnection(endpoint, [])]
      ensures establishedPeer == old(establishedPeer)[peer := old(EstablishedOf(peer)) + {id}]
      ensures spawned == old(spawned) + [OutboundTask(id, peer, config.idleConnectionTimeout)]
      ensures !noEstablishedWaker
      ensures pending == old(pending) && pendingPeer == old(pendingPeer) && aborted == old(aborted)
    {
      Establish(id, peer, endpoint);
      spawned := spawned + [OutboundTask(id, peer, config.idleConnectionTimeout)];
    }

    /// `disconnect`: the peer's pending connections are removed and
    /// aborted; its established ones are only sent a Close command, and
    /// leave the tables when their Closed event comes.
    method Disconnect(peer: PeerId)
      requires Valid()
      modifies this
      ensures Valid()
      ensures pendingPeer == old(pendingPeer) - {peer}
      ensures pending == old(pending) - old(PendingOf(peer))
      ensures aborted == old(aborted) + (old(PendingOf(peer)) * old(pending).Keys)
      ensures established == CloseAll(old(established), old(EstablishedOf(peer)))
      ensures establishedPeer == old(establishedPeer) && owner == old(owner)
      ensures spawned == old(spawned) && noEstablishedWaker == old(noEstablishedWaker)
    {
      DialsListedAfterRemove(pending, pendingPeer, peer);
      AbortPending(peer);
      StartClosePeer(peer);
    }

    /// The first loop of `disconnect`.
    method AbortPending(peer: PeerId)
      modifies this
      ensures pendingPeer == old(pendingPeer) - {peer}
      ensures pending == old(pending) - old(PendingOf(peer))
      ensures aborted == old(aborted) + (old(PendingOf(peer)) * old(pending).Keys)
      ensures established == old(established) && establishedPeer == old(establishedPeer) && owner == old(owner)
      ensures spawned == old(spawned) && noEstablishedWaker == old(noEstablishedWaker)
    {
      var remaining, dropped := AbortAll(pending, aborted, PendingOf(peer));
      pendingPeer, pending, aborted := pendingPeer - {peer}, remaining, dropped;
    }

    /// The second loop of `disconnect`.
    method StartClosePeer(peer: PeerId)
      modifies this
      ensures established == CloseAll(old(established), old(EstablishedOf(peer)))
      ensures pending == old(pending) && pendingPeer == old(pendingPeer) && aborted == old(aborted)
      ensures establishedPeer == old(establishedPeer) && owner == old(owner)
      ensures spawned == old(spawned) && noEstablishedWaker == old(noEstablishedWaker)
    {
      established := StartCloseAll(established, EstablishedOf(peer));
    }

    /// `Pool::poll`, for an event of an established connection first and
    /// then for a finished pending connection, which settles as written
    /// (the expected peer is not checked). A Closed event must be for
    /// an established connection of that peer, and a pending event for a
    /// pending connection (both are `expect`s).
    method Poll<Ev>(established: Poll<Option<EstablishedEvent<Ev>>>, pendingEvent: Poll<PendingEvent>) returns (r: Poll<PoolEvent<Ev>>)
      requires Valid()
      requires established.Ready? && established.value.Some? && established.value.value.EstablishedClosed? ==>
                 established.value.value.id in owner && owner[established.value.value.id] == established.value.value.peer
      requires !(established.Ready? && established.value.Some?) && pendingEvent.Ready? ==> pendingEvent.value.id in pending
      modifies this
      ensures Valid()
      ensures established.Ready? && established.value.Some? && established.value.value.EstablishedNotify? ==>
                var e := established.value.value;
                r == Ready(ConnectionEvent(e.id, e.peer, e.event))
      ensures established.Ready? && established.value.Some? && established.value.value.EstablishedClosed? ==>
                var e := established.value.value;
                r == Ready(ConnectionClosed(e.id, e.peer, old(this.established)[e.id].endpoint,
                                            |EstablishedOf(e.peer)|, e.error))
                && e.id in old(EstablishedOf(e.peer))
                && this.established == old(this.established) - {e.id}
                && EstablishedOf(e.peer) == old(EstablishedOf(e.peer)) - {e.id}
      ensures !(established.Ready? && established.value.Some?) ==>
                noEstablishedWaker == (established.Ready? || old(noEstablishedWaker))
                && (pendingEvent.Pending? ==> r.Pending? && pending == old(pending))
                && (pendingEvent.Ready? ==>
                      var ev := pendingEvent.value;
                      pending == old(pending) - {ev.id}
                      && r == Ready(Reported(PendingOutcomeAsWritten(localId, old(pending)[ev.id].peer, old(pending)[ev.id].endpoint, ev))))
      ensures !(established.Ready? && established.value.Some?) ==>
                this.established == old(this.established) && establishedPeer == old(establishedPeer) && owner == old(owner)
      ensures established.Ready? && established.value.Some? ==> pending == old(pending)
      ensures established.Ready? && established.value.Some? && established.value.value.EstablishedNotify? ==>
                this.established == old(this.established)
      ensures pendingPeer == old(pendingPeer) && spawned == old(spawned) && aborted == old(aborted)
    {
      if established.Ready? && established.value.Some? {
        var e := established.value.value;
        if e.EstablishedNotify? {
          return Ready(ConnectionEvent(e.id, e.peer, e.event));
        }
        var closed := HandleClosed(e.id, e.peer, e.error);
        return Ready(closed);
      }
      if established.Ready? {
        noEstablishedWaker := true;
      }
      if pendingEvent.Pending? {
        return Pending;
      }
      var ev := pendingEvent.value;
      var p := pending[ev.id];
      DialsListedAfterTake(pending, pendingPeer, ev.id);
      pending := pending - {ev.id};
      r := Ready(Reported(PendingOutcomeAsWritten(localId, p.peer, p.endpoint, ev)));
    }

    /// The Closed branch of `Pool::poll`.
    method HandleClosed<Ev>(id: ConnectionId, peer: PeerId, error: Option<ConnectionError>) returns (r: PoolEvent<Ev>)
      requires Valid() && id in owner && owner[id] == peer
      modifies this
      ensures Valid()
      ensures r == ConnectionClosed(id, peer, old(established)[id].endpoint, |EstablishedOf(peer)|, error)
      ensures id in old(EstablishedOf(peer))
      ensures established == old(established) - {id} && owner == old(owner) - {id}
      ensures establishedPeer == Unlisted(old(establishedPeer), peer, id)
      ensures EstablishedOf(peer) == old(EstablishedOf(peer)) - {id}
      ensures pending == old(pending) && pendingPeer == old(pendingPeer)
      ensures spawned == old(spawned) && aborted == old(aborted) && noEstablishedWaker == old(noEstablishedWaker)
    {
      var ep := Unlisted(establishedPeer, peer, id);
      PartitionedAfterClose(establishedPeer, owner, id, peer);
      var remaining := |Listed(ep, peer)|;
      r := ConnectionClosed(id, peer, established[id].endpoint, remaining, error);
      establishedPeer, established, owner := ep, established - {id}, owner - {id};
    }

    /// A command sent on an established connection's channel:
    /// `start_send` of an action, or `start_close`.
    method Enqueue(id: ConnectionId, cmd: Command<A>)
      requires Valid() && id in established
      modifies this
      ensures Valid()
      ensures established == old(established)[id := old(established)[id].(commands := old(established)[id].commands + [cmd])]
      ensures established.Keys == old(established.Keys)
      ensures pending == old(pending) && pendingPeer == old(pendingPeer) && establishedPeer == old(establishedPeer)
      ensures owner == old(owner) && spawned == old(spawned) && aborted == old(aborted)
      ensures noEstablishedWaker == old(noEstablishedWaker)
    {
      var c := established[id];
      established := established[id := c.(commands := c.commands + [cmd])];
      assert established.Keys == old(established.Keys);
    }
  }

  /// The loop of `disconnect` over the pending connections: each id
  /// still pending is removed and its abort notifier dropped.
  method AbortAll(pending: map<ConnectionId, PendingConnection>, aborted: set<ConnectionId>, ids: set<ConnectionId>)
    returns (remaining: map<ConnectionId, PendingConnection>, dropped: set<ConnectionId>)
    ensures remaining == pending - ids
    ensures dropped == aborted + (ids * pending.Keys)
  {
    var todo := ids;
    remaining, dropped := pending, aborted;
    ghost var done: set<ConnectionId> := {};
    while todo != {}
      invariant todo + done == ids && todo !! done
      invariant remaining == pending - done
      invariant dropped == aborted + (done * pending.Keys)
      decreases |todo|
    {
      var c :| c in todo;
      RemoveStep(pending, done, c);
      if c in remaining {
        remaining := remaining - {c};
        dropped := dropped + {c};
      }
      todo := todo - {c};
      done := done + {c};
    }
  }

  /// The loop of `disconnect` over the established connections: each one
  /// still established is sent a Close command.
  method StartCloseAll<A>(established: map<ConnectionId, EstablishedConnection<A>>, ids: set<ConnectionId>)
    returns (table: map<ConnectionId, EstablishedConnection<A>>)
    ensures table == CloseAll(established, ids)
  {
    var todo := ids;
    table := established;
    while todo != {}
      invariant todo <= ids
      invariant table == CloseAll(established, ids - todo)
      decreases |todo|
    {
      var c :| c in todo;
      if c in table {
        table := table[c := StartClose(table[c])];
      }
      todo := todo - {c};
    }
  }

  /// Every connection in `ids` is sent a Close command; the others are
  /// left alone.
  function CloseAll<A>(m: map<ConnectionId, EstablishedConnection<A>>, ids: set<ConnectionId>): (r: map<ConnectionId, EstablishedConnection<A>>)
    ensures r.Keys == m.Keys
    ensures forall c :: c in r ==> r[c] == if c in ids then StartClose(m[c]) else m[c]
  {
    map c | c in m :: if c in ids then StartClose(m[c]) else m[c]
  }
}
