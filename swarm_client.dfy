// The client swarm (volans-swarm/src/client.rs): it dials out through a
// transport, keeps its connections in a pool, and turns what the pool
// and the behaviour report into events for its user. The behaviour and
// the transport are outside the model: what the behaviour is told is a
// log of calls, and what the behaviour and the transport answer is an
// input. Only dials enter a client's pool, so the listener arms of the
// pool-event handler are unreachable, which the invariant proves.
module SwarmClient {
  import opened Wrappers
  import opened CoreConnection
  import opened SwarmError
  import opened SwarmConnection
  import opened SwarmPool
  import opened SwarmNotify

  /// `DialOpts`, with the address as a URL.
  datatype DialOpts = DialOpts(peer: Option<PeerId>, condition: PeerCondition, addr: Url, id: ConnectionId)

  /// The should-dial table of `Swarm::dial`: a dial to no particular
  /// peer, or under `Always`, goes ahead; otherwise the condition names
  /// what must not hold of the peer.
  function ShouldDial(condition: PeerCondition, peer: Option<PeerId>, connected: bool, dialing: bool): (r: bool)
  {
    if peer.None? then true
    else
      match condition
      case Always => true
      case Disconnected => !connected
      case NotDialing => !dialing
      case DisconnectedAndNotDialing => !dialing && !connected
  }

  /// A dial to no particular peer is never refused, and `Always` never
  /// refuses.
  lemma UnconditionalDials(condition: PeerCondition, peer: Option<PeerId>, connected: bool, dialing: bool)
    ensures peer.None? ==> ShouldDial(condition, peer, connected, dialing)
    ensures ShouldDial(Always, peer, connected, dialing)
  {
  }

  /// The combined condition refuses exactly when one of its two halves
  /// would, and a peer neither connected nor dialing is dialled whatever
  /// the condition.
  lemma CombinedCondition(peer: Option<PeerId>, connected: bool, dialing: bool)
    ensures ShouldDial(DisconnectedAndNotDialing, peer, connected, dialing)
            == (ShouldDial(Disconnected, peer, connected, dialing) && ShouldDial(NotDialing, peer, connected, dialing))
    ensures !connected && !dialing ==>
              forall c :: ShouldDial(c, peer, connected, dialing)
  {
  }

  /// A connected peer is refused under Disconnected; a dialing one under
  /// NotDialing.
  lemma ConditionRefuses(p: PeerId, connected: bool, dialing: bool)
    ensures connected ==> !ShouldDial(Disconnected, Some(p), connected, dialing)
                          && !ShouldDial(DisconnectedAndNotDialing, Some(p), connected, dialing)
    ensures dialing ==> !ShouldDial(NotDialing, Some(p), connected, dialing)
                        && !ShouldDial(DisconnectedAndNotDialing, Some(p), connected, dialing)
  {
  }

  /// The client's `SwarmEvent`, without the time a connection took.
  datatype SwarmEvent<Ev> =
    | Behavior(event: Ev)
    | Dialing(dialPeer: Option<PeerId>, addr: Url, id: ConnectionId)
    | ConnectionError(dialPeer: Option<PeerId>, id: ConnectionId, dialAddr: Option<Url>, error: DialError)
    | ConnectionEstablished(peer: PeerId, id: ConnectionId, addr: Url, numEstablished: nat)
    | ConnectionClosed(id: ConnectionId, peer: PeerId, addr: Url, numRemaining: nat, closeError: Option<ConnectionError>)

  /// What the swarm tells the behaviour.
  datatype BehaviorCall<HEv> =
    | OnDialFailure(id: ConnectionId, dialPeer: Option<PeerId>, dialAddr: Option<Url>, error: DialError)
    | OnConnectionEstablished(id: ConnectionId, peer: PeerId, addr: Url)
    | OnConnectionClosed(id: ConnectionId, peer: PeerId, addr: Url, closeError: Option<ConnectionError>)
    | OnHandlerEvent(id: ConnectionId, peer: PeerId, event: HEv)

  /// Every connection of the pool, pending or established, is a dial,
  /// and no id is both pending and established.
  ghost predicate DialsOnly<A>(pending: map<ConnectionId, PendingConnection>, established: map<ConnectionId, EstablishedConnection<A>>)
  {
    && (forall c :: c in pending ==> pending[c].endpoint.DialerPoint?)
    && (forall c :: c in established ==> established[c].endpoint.DialerPoint?)
    && pending.Keys !! established.Keys
  }

  /// Dropping connections keeps the pool to dials.
  lemma DialsOnlyAfterRemoval<A>(pending: map<ConnectionId, PendingConnection>, established: map<ConnectionId, EstablishedConnection<A>>,
                                 x: set<ConnectionId>, y: set<ConnectionId>)
    requires DialsOnly(pending, established)
    ensures DialsOnly(pending - x, established - y)
  {
  }

  /// What the environment gives at one pass of `poll_next_event`: the
  /// readiness of the established connections, the behaviour's next
  /// event, its next dial and the transport's answer to it, its answer
  /// to a newly established connection, and the pool's next events.
  datatype Turn<Ev, A, HEv> = Turn(
    status: map<ConnectionId, Readiness>,
    behavior: Poll<BehaviorEvent<Ev, A>>,
    dial: Poll<DialOpts>,
    transport: Result<(), TransportFailure>,
    admit: Result<(), ConnectionDenied>,
    established: Poll<Option<EstablishedEvent<HEv>>>,
    pendingEvent: Poll<PendingEvent>)

  /// A turn with nothing to do: no behaviour event, no dial and no pool event.
  predicate Quiet<Ev, A, HEv>(t: Turn<Ev, A, HEv>)
  {
    t.behavior.Pending? && t.dial.Pending? && !HasEvent(t.established, t.pendingEvent)
  }

  /// How one pass ends: the loop returns, goes round again, or meets an
  /// input that cannot happen (an event for a connection the pool does
  /// not have, a connection id already in use, a readiness for other
  /// connections than the established ones).
  datatype PassEnd<Ev> = Returned(result: Poll<SwarmEvent<Ev>>) | Again | Unfit

  /// `Swarm` of client.rs.
  class Swarm<A, Ev, HEv> {
    const pool: Pool<A>
    var pendingAction: Option<PendingAction<A>>
    var events: seq<SwarmEvent<Ev>>
    var calls: seq<BehaviorCall<HEv>>

    ghost predicate Valid()
      reads this, pool
    {
      pool.Valid() && DialsOnly(pool.pending, pool.established)
    }

    /// `Swarm::new`.
    constructor(localId: PeerId, config: PoolConfig)
      ensures Valid() && fresh(pool)
      ensures pool.localId == localId && pool.config == config
      ensures pool.pending == map[] && pool.established == map[]
      ensures pendingAction.None? && events == [] && calls == []
    {
      pool := new Pool(localId, config);
      pendingAction := None;
      events := [];
      calls := [];
    }

    /// `close_connection`: true exactly when the connection is
    /// established, and then it is sent a Close command.
    method CloseConnection(id: ConnectionId) returns (r: bool)
      requires Valid()
      modifies pool
      ensures Valid()
      ensures r <==> id in old(pool.established)
      ensures pool.established == (if r then old(pool.established)[id := StartClose(old(pool.established)[id])]
                                   else old(pool.established))
      ensures pool.pending == old(pool.pending) && pool.owner == old(pool.owner)
    {
      if id in pool.established {
        pool.Enqueue(id, Close);
        return true;
      }
      return false;
    }

    /// `Swarm::dial`. A refused condition and a transport error are
    /// reported to the behaviour and returned, and leave the pool as it
    /// was; otherwise the dial is added to the pool, once. The id is a
    /// fresh one from `ConnectionId::next`, so no established connection
    /// has it.
    method Dial(opts: DialOpts, transport: Result<(), TransportFailure>) returns (r: Result<(), DialError>)
      requires Valid() && opts.id !in pool.established
      modifies pool, this
      ensures Valid()
      ensures var refused := opts.peer.Some? &&
                !ShouldDial(opts.condition, opts.peer, old(pool.IsPeerConnected(opts.peer.value)), old(pool.Dialing(opts.peer.value)));
              && (refused ==> r == Err(PeerConditionUnmet(opts.condition)))
              && (!refused && transport.Err? ==> r == Err(DialTransport(opts.addr, transport.error)))
              && (r.Ok? <==> !refused && transport.Ok?)
      ensures r.Err? ==> calls == old(calls) + [OnDialFailure(opts.id, opts.peer, Some(opts.addr), r.error)]
      ensures r.Err? ==> pool.pending == old(pool.pending) && pool.pendingPeer == old(pool.pendingPeer)
                         && pool.spawned == old(pool.spawned)
      ensures r.Ok? ==> calls == old(calls)
                        && pool.pending == old(pool.pending)[opts.id := PendingConnection(opts.peer, DialerPoint(opts.addr))]
                        && pool.spawned == old(pool.spawned) + [PendingTask(opts.id, opts.addr)]
      ensures pool.established == old(pool.established) && pool.establishedPeer == old(pool.establishedPeer)
      ensures pool.owner == old(pool.owner) && pool.aborted == old(pool.aborted)
      ensures events == old(events) && pendingAction == old(pendingAction)
    {
      var go := true;
      if opts.peer.Some? {
        var dialing := pool.IsPeerDialing(opts.peer.value);
        go := ShouldDial(opts.condition, opts.peer, pool.IsPeerConnected(opts.peer.value), dialing);
      }
      if !go {
        var err := PeerConditionUnmet(opts.condition);
        calls := calls + [OnDialFailure(opts.id, opts.peer, Some(opts.addr), err)];
        return Err(err);
      }
      if transport.Err? {
        var err := DialTransport(opts.addr, transport.error);
        calls := calls + [OnDialFailure(opts.id, opts.peer, Some(opts.addr), err)];
        return Err(err);
      }
      pool.AddOutgoing(opts.id, opts.addr, opts.peer);
      return Ok(());
    }

    /// The dial part of `poll_next_event`: a Dialing event is queued
    /// exactly when the dial goes ahead.
    method PollDial(opts: DialOpts, transport: Result<(), TransportFailure>) returns (ok: bool)
      requires Valid() && opts.id !in pool.established
      modifies pool, this
      ensures Valid()
      ensures ok ==> events == old(events) + [Dialing(opts.peer, opts.addr, opts.id)] && calls == old(calls)
      ensures !ok ==> events == old(events) && |calls| == |old(calls)| + 1 && old(calls) <= calls
      ensures ok ==> pool.pending == old(pool.pending)[opts.id := PendingConnection(opts.peer, DialerPoint(opts.addr))]
      ensures !ok ==> pool.pending == old(pool.pending)
      ensures pool.established == old(pool.established) && pendingAction == old(pendingAction)
    {
      var r := Dial(opts, transport);
      ok := r.Ok?;
      if ok {
        events := events + [Dialing(opts.peer, opts.addr, opts.id)];
      }
    }

    /// `handle_pool_event`. The pool only ever reports dials here (the
    /// listener arms are `unreachable!`). A connection the behaviour
    /// refuses is reported as a Denied dial error and not spawned.
    method HandlePoolEvent(ev: PoolEvent<HEv>, admit: Result<(), ConnectionDenied>)
      requires Valid()
      requires !ev.ConnectionEvent? ==> ev.endpoint.DialerPoint?
      requires ev.ConnectionEstablished? ==> ev.id !in pool.established && ev.id !in pool.pending
      modifies pool, this
      ensures Valid()
      ensures ev.ConnectionEstablished? && admit.Err? ==>
                var err := DialDenied(admit.error);
                && calls == old(calls) + [OnDialFailure(ev.id, Some(ev.peer), Some(ev.endpoint.addr), err)]
                && events == old(events) + [ConnectionError(Some(ev.peer), ev.id, Some(ev.endpoint.addr), err)]
                && pool.established == old(pool.established)
      ensures ev.ConnectionEstablished? && admit.Ok? ==>
                && calls == old(calls) + [OnConnectionEstablished(ev.id, ev.peer, ev.endpoint.addr)]
                && events == old(events) + [SwarmEvent.ConnectionEstablished(ev.peer, ev.id, ev.endpoint.addr, |old(pool.EstablishedOf(ev.peer))|)]
                && pool.established == old(pool.established)[ev.id := EstablishedConnection(ev.endpoint, [])]
                && pool.spawned == old(pool.spawned) + [OutboundTask(ev.id, ev.peer, pool.config.idleConnectionTimeout)]
      ensures ev.PendingConnectionError? ==>
                var err := DialErrorOf(ev.error);
                && calls == old(calls) + [OnDialFailure(ev.id, ev.expected, Some(ev.endpoint.addr), err)]
                && events == old(events) + [ConnectionError(ev.expected, ev.id, Some(ev.endpoint.addr), err)]
      ensures ev.ConnectionClosed? ==>
                && calls == old(calls) + [OnConnectionClosed(ev.id, ev.peer, ev.endpoint.addr, ev.closeError)]
                && events == old(events) + [SwarmEvent.ConnectionClosed(ev.id, ev.peer, ev.endpoint.addr, ev.numRemaining, ev.closeError)]
      ensures ev.ConnectionEvent? ==>
                calls == old(calls) + [OnHandlerEvent(ev.id, ev.peer, ev.event)] && events == old(events)
      ensures !(ev.ConnectionEstablished? && admit.Ok?) ==> pool.established == old(pool.established)
      ensures pool.pending == old(pool.pending) && pendingAction == old(pendingAction)
    {
      match ev {
        case ConnectionEstablished(id, peer, endpoint) =>
          if admit.Err? {
            var err := DialDenied(admit.error);
            calls := calls + [OnDialFailure(id, Some(peer), Some(endpoint.addr), err)];
            events := events + [ConnectionError(Some(peer), id, Some(endpoint.addr), err)];
            return;
          }
          var n := pool.NumPeerEstablished(peer);
          pool.SpawnOutboundConnection(id, peer, endpoint);
          calls := calls + [OnConnectionEstablished(id, peer, endpoint.addr)];
          events := events + [SwarmEvent.ConnectionEstablished(peer, id, endpoint.addr, n)];
        case PendingConnectionError(id, expected, endpoint, error) =>
          var err := DialErrorOf(error);
          calls := calls + [OnDialFailure(id, expected, Some(endpoint.addr), err)];
          events := events + [ConnectionError(expected, id, Some(endpoint.addr), err)];
        case ConnectionClosed(id, peer, endpoint, remaining, error) =>
          calls := calls + [OnConnectionClosed(id, peer, endpoint.addr, error)];
          events := events + [SwarmEvent.ConnectionClosed(id, peer, endpoint.addr, remaining, error)];
        case ConnectionEvent(id, peer, event) =>
          calls := calls + [OnHandlerEvent(id, peer, event)];
      }
    }

    /// The behaviour part of `poll_next_event`, reached only with no
    /// pending action (so the `assert!` of `handle_behavior_event`
    /// holds).
    method PollBehavior(ev: BehaviorEvent<Ev, A>)
      requires Valid() && pendingAction.None?
      modifies pool, this
      ensures Valid()
      ensures ev.BehaviorOut? ==> events == old(events) + [Behavior(ev.event)]
      ensures !ev.BehaviorOut? ==> events == old(events)
      ensures calls == old(calls)
      ensures !ev.HandlerAction? ==> pendingAction.None?
      ensures ev.HandlerAction? && ev.handler.ToOne? ==> pendingAction == Some(PendingAction(ev.peer, PendingOne(ev.handler.id), ev.action))
      ensures ev.HandlerAction? && ev.handler.ToAny? ==>
                pendingAction.Some? && pendingAction.value.peer == ev.peer && pendingAction.value.action == ev.action
                && pendingAction.value.handler.PendingAny?
                && forall c :: c in pendingAction.value.handler.ids <==> c in old(pool.owner) && old(pool.owner)[c] == ev.peer
      ensures !ev.CloseRequest? ==> pool.established == old(pool.established) && pool.pending == old(pool.pending)
      ensures ev.CloseRequest? && ev.target.CloseOne? ==>
                pool.pending == old(pool.pending)
                && pool.established == (if ev.target.id in old(pool.established)
                                        then old(pool.established)[ev.target.id := StartClose(old(pool.established)[ev.target.id])]
                                        else old(pool.established))
      ensures ev.CloseRequest? && ev.target.CloseEvery? ==>
                pool.pending == old(pool.pending) - old(pool.PendingOf(ev.peer))
                && pool.established == CloseAll(old(pool.established), old(pool.EstablishedOf(ev.peer)))
    {
      var out, action := HandleBehaviorEvent(pool, pendingAction, ev);
      pendingAction := action;
      if out.Some? {
        events := events + [Behavior(out.value)];
      }
    }

    /// The pool part of `poll_next_event`: whether the pool had an event,
    /// or the turn does not fit the pool.
    method PollPool(t: Turn<Ev, A, HEv>) returns (end: PassEnd<Ev>)
      requires Valid()
      modifies pool, this
      ensures Valid()
      ensures old(calls) <= calls
      ensures end == Unfit <==> !old(pool.Fits(t.established, t.pendingEvent))
      ensures end == Again <==> old(pool.Fits(t.established, t.pendingEvent)) && HasEvent(t.established, t.pendingEvent)
      ensures end == Returned(Pending) <==> !HasEvent(t.established, t.pendingEvent)
      ensures end != Again ==> events == old(events) && calls == old(calls)
                               && pool.pending == old(pool.pending) && pool.established == old(pool.established)
      ensures pendingAction == old(pendingAction)
    {
      var busy := t.established.Ready? && t.established.value.Some?;
      if busy && t.established.value.value.EstablishedClosed? {
        var e := t.established.value.value;
        if e.id !in pool.EstablishedOf(e.peer) {
          return Unfit;
        }
        pool.ListedIsOwned(e.id, e.peer);
      }
      if !busy && t.pendingEvent.Ready? && t.pendingEvent.value.id !in pool.pending {
        return Unfit;
      }
      ghost var pending0, established0 := pool.pending, pool.established;
      var r := pool.Poll(t.established, t.pendingEvent);
      if r.Pending? {
        return Returned(Pending);
      }
      var ev := r.value;
      if busy {
        var e := t.established.value.value;
        if e.EstablishedClosed? {
          DialsOnlyAfterRemoval(pending0, established0, {}, {e.id});
          assert pool.pending == pending0 - {};
        }
      } else {
        var id := t.pendingEvent.value.id;
        DialsOnlyAfterRemoval(pending0, established0, {id}, {});
        assert pool.established == established0 - {};
        assert ev.id == id && ev.endpoint == pending0[id].endpoint;
      }
      HandlePoolEvent(ev, t.admit);
      return Again;
    }

    /// One pass of the loop of `poll_next_event`: a queued event is
    /// returned first; then the pending action is offered, or, when there
    /// is none, the behaviour is polled; then the behaviour's dials; then
    /// the pool.
    method Pass(t: Turn<Ev, A, HEv>) returns (end: PassEnd<Ev>)
      requires Valid()
      modifies pool, this
      ensures Valid()
      ensures old(calls) <= calls
      ensures old(events) == [] && end.Returned? ==> end.result.Pending?
      ensures old(events) != [] ==> end == Returned(Ready(old(events)[0])) && events == old(events)[1..]
                                    && calls == old(calls) && pendingAction == old(pendingAction)
                                    && pool.pending == old(pool.pending) && pool.established == old(pool.established)
      ensures end == Returned(Pending) ==> !HasEvent(t.established, t.pendingEvent)
      ensures old(events) == [] && old(pendingAction).Some? && t.status.Keys != old(pool.established.Keys) ==>
                end == Unfit && events == [] && calls == old(calls) && pendingAction == old(pendingAction)
                && pool.pending == old(pool.pending) && pool.established == old(pool.established)
      ensures old(events) == [] && old(pendingAction).None? && t.behavior.Ready? ==>
                end == Again && calls == old(calls)
                && events == (if t.behavior.value.BehaviorOut? then [Behavior(t.behavior.value.event)] else [])
      ensures old(events) == [] && old(pendingAction).None? && Quiet(t) ==>
                end == Returned(Pending) && events == [] && calls == old(calls) && pendingAction.None?
                && pool.pending == old(pool.pending) && pool.established == old(pool.established)
    {
      if events != [] {
        var e := events[0];
        events := events[1..];
        return Returned(Ready(e));
      }
      if pendingAction.Some? {
        if t.status.Keys != pool.established.Keys {
          return Unfit;
        }
        var p := pendingAction.value;
        pendingAction := None;
        var back, sentTo := DeliverPending(pool, p, t.status);
        if back.None? {
          return Again;
        }
        pendingAction := back;
      } else if t.behavior.Ready? {
        PollBehavior(t.behavior.value);
        return Again;
      }
      if t.dial.Ready? {
        if t.dial.value.id in pool.established {
          return Unfit;
        }
        var _ := PollDial(t.dial.value, t.transport);
      }
      end := PollPool(t);
    }

    /// `poll_next_event`: passes, one per turn, until one returns. None
    /// when the turns run out first or one of them cannot happen.
    method PollNextEvent(turns: seq<Turn<Ev, A, HEv>>) returns (r: Option<Poll<SwarmEvent<Ev>>>)
      requires Valid()
      modifies pool, this
      ensures Valid()
      ensures old(calls) <= calls
      ensures old(events) != [] && turns != [] ==>
                r == Some(Ready(old(events)[0])) && events == old(events)[1..] && calls == old(calls)
                && pendingAction == old(pendingAction)
                && pool.pending == old(pool.pending) && pool.established == old(pool.established)
      ensures old(events) == [] && old(pendingAction).None? && turns != [] && Quiet(turns[0]) ==>
                r == Some(Pending) && events == [] && calls == old(calls) && pendingAction.None?
                && pool.pending == old(pool.pending) && pool.established == old(pool.established)
    {
      var i := 0;
      while i < |turns|
        invariant 0 <= i <= |turns| && Valid()
        invariant old(calls) <= calls
        invariant i > 0 ==> !(old(events) == [] && old(pendingAction).None? && Quiet(turns[0]))
        invariant i == 0 ==> events == old(events) && calls == old(calls) && pendingAction == old(pendingAction)
                             && pool.pending == old(pool.pending) && pool.established == old(pool.established)
        invariant old(events) != [] ==> i == 0 && events == old(events) && calls == old(calls)
                                        && pendingAction == old(pendingAction)
                                        && pool.pending == old(pool.pending) && pool.established == old(pool.established)
      {
        var end := Pass(turns[i]);
        match end {
          case Returned(result) => return Some(result);
          case Unfit => return None;
          case Again =>
        }
        i := i + 1;
      }
      return None;
    }
  }
}
