// The behaviour of the relay client (protocols/volans-bridge/src/client/
// behavior.rs). The relay transport hands it requests to reach a peer
// through a relay; a request for a relay this node is directly connected
// to goes to one of those connections' handlers, any other waits for the
// relay to be dialled. What the transport's channel gives at each poll is
// an input.
module BridgeClientBehavior {
  import opened Wrappers
  import opened Io
  import opened Identity
  import opened Multiaddrs
  import opened SwarmConnection
  import opened SwarmError
  import opened SwarmNotify
  import BridgeTransport
  import opened BridgeClientHandler

  /// The error a request whose relay could not be dialled is answered with.
  const DIAL_FAILED: string := "Dial failed"

  /// `transport::TransportRequest`.
  datatype TransportRequest =
    | DialRequest(relayAddr: Multiaddr, relayPeer: PeerId, dstPeer: PeerId, sendBack: SendBack)
    | ListenRequest(localAddr: Multiaddr)

  /// What one poll of the transport's channel gives.
  type TransportAnswer = Poll<Option<TransportRequest>>

  /// The events the behaviour emits: only handler actions.
  type BridgeEvent = BehaviorEvent<(), NewOutboundBridgeRequest>

  /// The handler a connection gets: the relay client's own, or the
  /// do-nothing one.
  datatype HandlerChoice = Dummy | Bridge

  /// A dial request through a relay this node has no direct connection
  /// to: it is queued and the poll goes on.
  predicate Detour(direct: map<PeerId, set<ConnectionId>>, a: TransportAnswer)
  {
    a.Ready? && a.value.Some? && a.value.value.DialRequest? && a.value.value.relayPeer !in direct
  }

  /// How many answers at the front are detours.
  function Leading(direct: map<PeerId, set<ConnectionId>>, answers: seq<TransportAnswer>): (k: nat)
    ensures k <= |answers|
    ensures forall i :: 0 <= i < k ==> Detour(direct, answers[i])
    ensures k < |answers| ==> !Detour(direct, answers[k])
  {
    if answers == [] || !Detour(direct, answers[0]) then 0 else 1 + Leading(direct, answers[1..])
  }

  /// The handler request a transport dial request becomes.
  function RequestOf(t: TransportRequest): (r: NewOutboundBridgeRequest)
    requires t.DialRequest?
    ensures r.relayAddr == t.relayAddr && r.relayPeer == t.relayPeer && r.dstPeer == t.dstPeer && r.sendBack == t.sendBack
  {
    NewOutboundBridgeRequest(t.relayAddr, t.relayPeer, t.dstPeer, t.sendBack)
  }

  /// The handler requests among some answers, in order.
  function Requests(answers: seq<TransportAnswer>): (r: seq<NewOutboundBridgeRequest>)
    ensures |r| <= |answers|
  {
    if answers == [] then []
    else
      var last := answers[|answers| - 1];
      Requests(answers[..|answers| - 1])
      + (if last.Ready? && last.value.Some? && last.value.value.DialRequest? then [RequestOf(last.value.value)] else [])
  }

  /// The waiting queues after some requests join the backs of their
  /// relays' queues, in order.
  function Queued(pending: map<PeerId, seq<NewOutboundBridgeRequest>>, requests: seq<NewOutboundBridgeRequest>): (r: map<PeerId, seq<NewOutboundBridgeRequest>>)
    ensures forall p :: p in pending ==> p in r
  {
    if requests == [] then pending
    else
      var q := Queued(pending, requests[..|requests| - 1]);
      var last := requests[|requests| - 1];
      q[last.relayPeer := (if last.relayPeer in q then q[last.relayPeer] else []) + [last]]
  }

  /// One more answer taken by the poll: a dial request among the answers
  /// joins the waiting queues and the dials, in order.
  lemma TakeOne(pending: map<PeerId, seq<NewOutboundBridgeRequest>>, dials: seq<(PeerId, Option<Multiaddr>)>,
                answers: seq<TransportAnswer>, i: nat, rs: seq<NewOutboundBridgeRequest>)
    requires i < |answers| && answers[i].Ready? && answers[i].value.Some? && answers[i].value.value.DialRequest?
    requires rs == Requests(answers[..i])
    ensures var x := RequestOf(answers[i].value.value);
            var q := Queued(pending, rs);
            && Requests(answers[..i + 1]) == rs + [x]
            && Queued(pending, rs + [x]) == q[x.relayPeer := (if x.relayPeer in q then q[x.relayPeer] else []) + [x]]
            && dials + Dials(rs + [x]) == dials + Dials(rs) + [(x.relayPeer, Some(x.relayAddr))]
  {
    var x := RequestOf(answers[i].value.value);
    assert answers[..i + 1][..i] == answers[..i];
    assert (rs + [x])[..|rs|] == rs;
  }

  /// A detour at `i`, with all before it detours, is not the last of the
  /// leading detours.
  lemma MoreDetours(direct: map<PeerId, set<ConnectionId>>, answers: seq<TransportAnswer>, i: nat)
    requires i <= Leading(direct, answers) && i < |answers| && Detour(direct, answers[i])
    ensures i + 1 <= Leading(direct, answers)
  {
  }

  /// The dials some waiting requests ask for: their relays, at their
  /// addresses, in order.
  function Dials(requests: seq<NewOutboundBridgeRequest>): (r: seq<(PeerId, Option<Multiaddr>)>)
    ensures |r| == |requests|
    ensures forall i :: 0 <= i < |requests| ==> r[i] == (requests[i].relayPeer, Some(requests[i].relayAddr))
  {
    if requests == [] then []
    else Dials(requests[..|requests| - 1]) + [(requests[|requests| - 1].relayPeer, Some(requests[|requests| - 1].relayAddr))]
  }

  /// The actions that hand some requests to connection `c` of `peer`, in
  /// order.
  function Actions(peer: PeerId, c: ConnectionId, requests: seq<NewOutboundBridgeRequest>): (r: seq<BridgeEvent>)
    ensures |r| == |requests|
    ensures forall i :: 0 <= i < |requests| ==> r[i] == HandlerAction(peer, ToOne(c), requests[i])
  {
    if requests == [] then []
    else Actions(peer, c, requests[..|requests| - 1]) + [HandlerAction(peer, ToOne(c), requests[|requests| - 1])]
  }

  /// The loop of `on_connection_established` that hands a relay's
  /// waiting requests, oldest first, to one connection.
  method Flush(peer: PeerId, c: ConnectionId, requests: seq<NewOutboundBridgeRequest>) returns (events: seq<BridgeEvent>)
    ensures events == Actions(peer, c, requests)
  {
    events := [];
    var rest := requests;
    while rest != []
      invariant |rest| <= |requests| && rest == requests[|requests| - |rest|..]
      invariant events == Actions(peer, c, requests[..|requests| - |rest|])
      decreases |rest|
    {
      var n := |requests| - |rest|;
      assert requests[..n + 1][..n] == requests[..n];
      events := events + [HandlerAction(peer, ToOne(c), rest[0])];
      rest := rest[1..];
    }
    assert requests[..|requests|] == requests;
  }

  /// The loop of `poll` while the transport's channel gives detours: each
  /// is queued for its relay and the relay's dial is asked for.
  method SkipDetours(direct: map<PeerId, set<ConnectionId>>, pending: map<PeerId, seq<NewOutboundBridgeRequest>>,
                     dials: seq<(PeerId, Option<Multiaddr>)>, answers: seq<TransportAnswer>)
    returns (i: nat, pending': map<PeerId, seq<NewOutboundBridgeRequest>>, dials': seq<(PeerId, Option<Multiaddr>)>)
    ensures i == Leading(direct, answers)
    ensures pending' == Queued(pending, Requests(answers[..i]))
    ensures dials' == dials + Dials(Requests(answers[..i]))
  {
    ghost var k := Leading(direct, answers);
    ghost var rs: seq<NewOutboundBridgeRequest> := [];
    pending', dials' := pending, dials;
    i := 0;
    while i < |answers| && Detour(direct, answers[i])
      invariant 0 <= i <= k
      invariant rs == Requests(answers[..i])
      invariant pending' == Queued(pending, rs)
      invariant dials' == dials + Dials(rs)
      decreases |answers| - i
    {
      var t := answers[i].value.value;
      var x := RequestOf(t);
      TakeOne(pending, dials, answers, i, rs);
      MoreDetours(direct, answers, i);
      var queue := if t.relayPeer in pending' then pending'[t.relayPeer] else [];
      pending' := pending'[t.relayPeer := queue + [x]];
      dials' := dials' + [(t.relayPeer, Some(t.relayAddr))];
      rs := rs + [x];
      i := i + 1;
    }
  }

  /// The loop of `poll` over the transport's channel, on the tables it
  /// changes: the result, how many answers it took, and the new waiting
  /// queues and dials.
  method Route(direct: map<PeerId, set<ConnectionId>>, pending: map<PeerId, seq<NewOutboundBridgeRequest>>,
               dials: seq<(PeerId, Option<Multiaddr>)>, answers: seq<TransportAnswer>)
    returns (r: Poll<BridgeEvent>, used: nat, pending': map<PeerId, seq<NewOutboundBridgeRequest>>, dials': seq<(PeerId, Option<Multiaddr>)>)
    requires forall p :: p in direct ==> direct[p] != {}
    ensures var k := Leading(direct, answers);
            && pending' == Queued(pending, Requests(answers[..k]))
            && dials' == dials + Dials(Requests(answers[..k]))
            && (k == |answers| ==> r.Pending? && used == k)
            && (k < |answers| ==> used == k + 1)
            && (k < |answers| && answers[k].Ready? && answers[k].value.Some? && answers[k].value.value.DialRequest? ==>
                  var t := answers[k].value.value;
                  && r.Ready? && r.value.HandlerAction?
                  && r.value.peer == t.relayPeer && r.value.action == RequestOf(t)
                  && r.value.handler.ToOne? && r.value.handler.id in direct[t.relayPeer])
            && (k < |answers| && !(answers[k].Ready? && answers[k].value.Some? && answers[k].value.value.DialRequest?) ==>
                  r.Pending?)
  {
    var i;
    i, pending', dials' := SkipDetours(direct, pending, dials, answers);
    if i == |answers| {
      return Pending, i, pending', dials';
    }
    var a := answers[i];
    if a.Ready? && a.value.Some? && a.value.value.DialRequest? {
      var t := a.value.value;
      var c :| c in direct[t.relayPeer];
      r := Ready(HandlerAction(t.relayPeer, ToOne(c), RequestOf(t)));
    } else {
      r := Pending;
    }
    used := i + 1;
  }

  /// The behaviour.
  class Behavior {
    /// `direct_connections`: the non-relayed connections of each peer.
    var directConnections: map<PeerId, set<ConnectionId>>
    /// `pending_channels`: the requests waiting for each relay, oldest
    /// first.
    var pendingChannels: map<PeerId, seq<NewOutboundBridgeRequest>>
    /// `dial_peers`: the relays to dial, oldest first.
    var dialPeers: seq<(PeerId, Option<Multiaddr>)>
    /// `pending_events`, oldest first.
    var pendingEvents: seq<BridgeEvent>

    /// A listed peer has a connection.
    ghost predicate Valid()
      reads this
    {
      forall p :: p in directConnections ==> directConnections[p] != {}
    }

    /// `Behavior::new`.
    constructor()
      ensures Valid()
      ensures directConnections == map[] && pendingChannels == map[] && dialPeers == [] && pendingEvents == []
    {
      directConnections := map[];
      pendingChannels := map[];
      dialPeers := [];
      pendingEvents := [];
    }

    /// `poll`: a queued event first. Otherwise the transport's channel is
    /// polled: dial requests through relays without a direct connection
    /// are queued and a dial of the relay asked for, until one through a
    /// connected relay goes to one of its connections, or the channel gives
    /// nothing more (or a listen request, which is refused).
    method Poll(answers: seq<TransportAnswer>) returns (r: Poll<BridgeEvent>, used: nat)
      requires Valid()
      modifies this
      ensures Valid() && directConnections == old(directConnections)
      ensures old(pendingEvents) != [] ==>
                && r == Ready(old(pendingEvents)[0]) && pendingEvents == old(pendingEvents)[1..] && used == 0
                && pendingChannels == old(pendingChannels) && dialPeers == old(dialPeers)
      ensures old(pendingEvents) == [] ==>
                var k := Leading(old(directConnections), answers);
                && pendingEvents == []
                && pendingChannels == Queued(old(pendingChannels), Requests(answers[..k]))
                && dialPeers == old(dialPeers) + Dials(Requests(answers[..k]))
                && (k == |answers| ==> r.Pending? && used == k)
                && (k < |answers| ==> used == k + 1)
                && (k < |answers| && answers[k].Ready? && answers[k].value.Some? && answers[k].value.value.DialRequest? ==>
                      var t := answers[k].value.value;
                      && r.Ready? && r.value.HandlerAction?
                      && r.value.peer == t.relayPeer && r.value.action == RequestOf(t)
                      && r.value.handler.ToOne? && r.value.handler.id in old(directConnections)[t.relayPeer])
                && (k < |answers| && !(answers[k].Ready? && answers[k].value.Some? && answers[k].value.value.DialRequest?) ==>
                      r.Pending?)
    {
      if pendingEvents != [] {
        r := Ready(pendingEvents[0]);
        pendingEvents := pendingEvents[1..];
        return r, 0;
      }
      var pending, dials;
      r, used, pending, dials := Route(directConnections, pendingChannels, dialPeers, answers);
      pendingChannels, dialPeers := pending, dials;
    }

    /// `handle_established_connection`: a direct connection gets the
    /// relay client's handler, a relayed one the do-nothing handler.
    method HandleEstablishedConnection(addr: Multiaddr) returns (h: HandlerChoice)
      requires Multiaddrs.Valid(addr)
      ensures h == Bridge <==> !BridgeTransport.IsCircuit(addr)
    {
      if !BridgeTransport.IsCircuit(addr) {
        return Bridge;
      }
      return Dummy;
    }

    /// `on_connection_established`: a direct connection is recorded, and
    /// every request waiting for the peer goes to one of its connections,
    /// in order. A relayed connection changes nothing.
    method OnConnectionEstablished(id: ConnectionId, peer: PeerId, addr: Multiaddr)
      requires Valid() && Multiaddrs.Valid(addr)
      modifies this
      ensures Valid() && dialPeers == old(dialPeers)
      ensures BridgeTransport.IsCircuit(addr) ==>
                directConnections == old(directConnections) && pendingChannels == old(pendingChannels) && pendingEvents == old(pendingEvents)
      ensures !BridgeTransport.IsCircuit(addr) ==>
                && directConnections == old(directConnections)[peer := (if peer in old(directConnections) then old(directConnections)[peer] else {}) + {id}]
                && pendingChannels == old(pendingChannels) - {peer}
                && (peer !in old(pendingChannels) ==> pendingEvents == old(pendingEvents))
                && (peer in old(pendingChannels) ==>
                      exists c :: c in directConnections[peer] && pendingEvents == old(pendingEvents) + Actions(peer, c, old(pendingChannels)[peer]))
    {
      if BridgeTransport.IsCircuit(addr) {
        return;
      }
      var conns := (if peer in directConnections then directConnections[peer] else {}) + {id};
      directConnections := directConnections[peer := conns];
      if peer in pendingChannels {
        var requests := pendingChannels[peer];
        pendingChannels := pendingChannels - {peer};
        var c :| c in conns;
        var events := Flush(peer, c, requests);
        pendingEvents := pendingEvents + events;
      }
    }

    /// `on_connection_closed`: a direct connection leaves its peer's set,
    /// and a peer left with none leaves the table.
    method OnConnectionClosed(id: ConnectionId, peer: PeerId, addr: Multiaddr)
      requires Valid() && Multiaddrs.Valid(addr)
      modifies this
      ensures Valid()
      ensures BridgeTransport.IsCircuit(addr) || peer !in old(directConnections) ==> directConnections == old(directConnections)
      ensures !BridgeTransport.IsCircuit(addr) && peer in old(directConnections) ==>
                var rest := old(directConnections)[peer] - {id};
                directConnections == if rest == {} then old(directConnections) - {peer} else old(directConnections)[peer := rest]
      ensures pendingChannels == old(pendingChannels) && dialPeers == old(dialPeers) && pendingEvents == old(pendingEvents)
    {
      if BridgeTransport.IsCircuit(addr) || peer !in directConnections {
        return;
      }
      var rest := directConnections[peer] - {id};
      if rest == {} {
        directConnections := directConnections - {peer};
      } else {
        directConnections := directConnections[peer := rest];
      }
    }

    /// `on_dial_failure`: only the oldest request waiting for the peer is
    /// answered, with an error; the others keep waiting, each for the dial
    /// it asked for.
    method OnDialFailure(peer: Option<PeerId>) returns (failed: Option<(SendBack, IoError)>)
      modifies this
      ensures peer.None? || peer.value !in old(pendingChannels) || old(pendingChannels)[peer.value] == [] ==>
                failed.None? && pendingChannels == old(pendingChannels)
      ensures peer.Some? && peer.value in old(pendingChannels) && old(pendingChannels)[peer.value] != [] ==>
                var queue := old(pendingChannels)[peer.value];
                && failed == Some((queue[0].sendBack, IoError(ErrorKind.Other, DIAL_FAILED)))
                && pendingChannels == old(pendingChannels)[peer.value := queue[1..]]
      ensures directConnections == old(directConnections) && dialPeers == old(dialPeers) && pendingEvents == old(pendingEvents)
    {
      if peer.None? || peer.value !in pendingChannels || pendingChannels[peer.value] == [] {
        return None;
      }
      var queue := pendingChannels[peer.value];
      pendingChannels := pendingChannels[peer.value := queue[1..]];
      return Some((queue[0].sendBack, IoError(ErrorKind.Other, DIAL_FAILED)));
    }

    /// `poll_dial`: the oldest relay to dial, only if it is neither
    /// connected nor being dialled already.
    method PollDial() returns (r: Poll<DialRequest>)
      modifies this
      ensures old(dialPeers) == [] ==> r.Pending? && dialPeers == []
      ensures old(dialPeers) != [] ==>
                && r == Ready(SwarmError.DialRequest(old(dialPeers)[0].1, Some(old(dialPeers)[0].0), DisconnectedAndNotDialing))
                && dialPeers == old(dialPeers)[1..]
      ensures directConnections == old(directConnections) && pendingChannels == old(pendingChannels) && pendingEvents == old(pendingEvents)
    {
      if dialPeers == [] {
        return Pending;
      }
      var (peer, addr) := dialPeers[0];
      dialPeers := dialPeers[1..];
      return Ready(SwarmError.DialRequest(addr, Some(peer), DisconnectedAndNotDialing));
    }
  }

  /// A request through a relay with no direct connection waits, the
  /// relay is dialled at the address the request names, and once a direct
  /// connection is up the request goes to it.
  method RequestWaitsForRelay(b: Behavior, relayAddr: Multiaddr, relay: PeerId, dst: PeerId, back: SendBack, conn: ConnectionId, addr: Multiaddr)
    returns (polled: Poll<BridgeEvent>, dial: Poll<DialRequest>)
    requires b.Valid() && b.directConnections == map[] && b.pendingChannels == map[] && b.dialPeers == [] && b.pendingEvents == []
    requires Multiaddrs.Valid(addr) && !BridgeTransport.IsCircuit(addr)
    modifies b
    ensures polled.Pending?
    ensures dial == Ready(SwarmError.DialRequest(Some(relayAddr), Some(relay), DisconnectedAndNotDialing))
    ensures b.pendingEvents == [HandlerAction(relay, ToOne(conn), NewOutboundBridgeRequest(relayAddr, relay, dst, back))]
    ensures b.pendingChannels == map[]
  {
    var req := NewOutboundBridgeRequest(relayAddr, relay, dst, back);
    polled, dial := RequestQueued(b, relayAddr, relay, dst, back);
    b.OnConnectionEstablished(conn, relay, addr);
    assert b.directConnections[relay] == {conn};
    ghost var c :| c in b.directConnections[relay] && b.pendingEvents == Actions(relay, c, [req]);
    assert c == conn;
  }

  /// The first half of the above: with no direct connection to the
  /// relay, the request is queued for it and the relay is dialled.
  method RequestQueued(b: Behavior, relayAddr: Multiaddr, relay: PeerId, dst: PeerId, back: SendBack)
    returns (polled: Poll<BridgeEvent>, dial: Poll<DialRequest>)
    requires b.Valid() && b.directConnections == map[] && b.pendingChannels == map[] && b.dialPeers == [] && b.pendingEvents == []
    modifies b
    ensures b.Valid() && b.directConnections == map[] && b.pendingEvents == []
    ensures b.pendingChannels == map[relay := [NewOutboundBridgeRequest(relayAddr, relay, dst, back)]]
    ensures polled.Pending?
    ensures dial == Ready(SwarmError.DialRequest(Some(relayAddr), Some(relay), DisconnectedAndNotDialing))
  {
    var req := NewOutboundBridgeRequest(relayAddr, relay, dst, back);
    var answers := [Ready(Some(TransportRequest.DialRequest(relayAddr, relay, dst, back)))];
    assert Leading(b.directConnections, answers) == 1 by {
      assert Detour(b.directConnections, answers[0]);
      assert Leading(b.directConnections, answers[1..]) == 0;
    }
    assert Requests(answers[..1]) == [req] by {
      assert answers[..1] == answers;
      assert answers[..0] == [];
    }
    assert Queued(map[], [req]) == map[relay := [req]] by {
      assert [req][..0] == [];
    }
    assert Dials([req]) == [(relay, Some(relayAddr))];
    var used;
    polled, used := b.Poll(answers);
    dial := b.PollDial();
  }
}
