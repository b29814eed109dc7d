// The tables the stream protocol's opening side shares between the user's
// controller and the swarm (protocols/volans-stream/src/client/shared.rs):
// each peer's connections, each connection's request channel, and for a
// peer not connected yet one channel whose requests wait for it. Creating
// a channel is modelled by handing out the next unused channel number;
// what a waiting channel holds when its dial fails is an input.
module StreamClientShared {
  import opened Wrappers
  import opened Io
  import opened Identity
  import opened SwarmConnection
  import opened StreamClientHandler

  /// The answer every request waiting for a peer gets when the dial of
  /// the peer fails: NotConnected, with the dial error's text.
  function DialFailed(queued: seq<NewStream>, message: string): (r: seq<(ReplyTo, StreamError)>)
    ensures |r| == |queued|
    ensures forall i :: 0 <= i < |queued| ==> r[i] == (queued[i].sender, StreamError.Io(IoError(NotConnected, message)))
  {
    if queued == [] then []
    else DialFailed(queued[..|queued| - 1], message) + [(queued[|queued| - 1].sender, StreamError.Io(IoError(NotConnected, message)))]
  }

  /// `Shared`.
  class Shared {
    /// `connections`: each peer's open connections.
    var connections: map<PeerId, set<ConnectionId>>
    /// `senders`: the request channel of each connection's handler.
    var senders: map<ConnectionId, Channel>
    /// `pending_channels`: the channel requests to a peer wait on until
    /// a connection to it takes the channel over.
    var pendingChannels: map<PeerId, Channel>
    /// The peers handed to `dial_sender`, in order.
    var dialRequests: seq<PeerId>
    /// The number the next channel made gets.
    var nextChannel: nat

    /// A listed peer has a connection, every channel in the tables was
    /// made before the next one, and a waiting channel belongs to one
    /// peer and to no connection yet.
    ghost predicate Valid()
      reads this
    {
      && (forall p :: p in connections ==> connections[p] != {})
      && (forall c :: c in senders ==> senders[c].id < nextChannel)
      && (forall p :: p in pendingChannels ==> pendingChannels[p].id < nextChannel)
      && (forall p, c :: p in pendingChannels && c in senders ==> pendingChannels[p] != senders[c])
      && (forall p, q :: p in pendingChannels && q in pendingChannels && p != q ==> pendingChannels[p] != pendingChannels[q])
    }

    /// `Shared::new`.
    constructor()
      ensures Valid()
      ensures connections == map[] && senders == map[] && pendingChannels == map[] && dialRequests == []
    {
      connections := map[];
      senders := map[];
      pendingChannels := map[];
      dialRequests := [];
      nextChannel := 0;
    }

    /// `on_connection_established`: the connection joins the peer's set.
    method OnConnectionEstablished(peer: PeerId, conn: ConnectionId)
      requires Valid()
      modifies this
      ensures Valid()
      ensures connections == old(connections)[peer := (if peer in old(connections) then old(connections)[peer] else {}) + {conn}]
      ensures senders == old(senders) && pendingChannels == old(pendingChannels)
      ensures dialRequests == old(dialRequests) && nextChannel == old(nextChannel)
    {
      var conns := if peer in connections then connections[peer] else {};
      connections := connections[peer := conns + {conn}];
    }

    /// `on_connection_closed`: the connection leaves the peer's set, and
    /// a peer left with none leaves the table; an unknown peer changes
    /// nothing. The connection's channel stays in `senders`.
    method OnConnectionClosed(peer: PeerId, conn: ConnectionId)
      requires Valid()
      modifies this
      ensures Valid()
      ensures peer !in old(connections) ==> connections == old(connections)
      ensures peer in old(connections) ==>
                var rest := old(connections)[peer] - {conn};
                connections == if rest == {} then old(connections) - {peer} else old(connections)[peer := rest]
      ensures senders == old(senders) && pendingChannels == old(pendingChannels)
      ensures dialRequests == old(dialRequests) && nextChannel == old(nextChannel)
    {
      if peer !in connections {
        return;
      }
      var rest := connections[peer] - {conn};
      if rest == {} {
        connections := connections - {peer};
      } else {
        connections := connections[peer := rest];
      }
    }

    /// `on_dial_failure`: the peer's waiting channel is dropped, and each
    /// request it holds (`queued`, oldest first) is answered NotConnected.
    method OnDialFailure(peer: PeerId, queued: seq<NewStream>, message: string) returns (answers: seq<(ReplyTo, StreamError)>)
      requires Valid()
      modifies this
      ensures Valid()
      ensures peer !in old(pendingChannels) ==> answers == [] && pendingChannels == old(pendingChannels)
      ensures peer in old(pendingChannels) ==>
                answers == DialFailed(queued, message) && pendingChannels == old(pendingChannels) - {peer}
      ensures connections == old(connections) && senders == old(senders)
      ensures dialRequests == old(dialRequests) && nextChannel == old(nextChannel)
    {
      if peer !in pendingChannels {
        return [];
      }
      pendingChannels := pendingChannels - {peer};
      answers := [];
      var i := 0;
      while i < |queued|
        invariant 0 <= i <= |queued|
        invariant answers == DialFailed(queued[..i], message)
      {
        assert queued[..i + 1][..i] == queued[..i];
        answers := answers + [(queued[i].sender, StreamError.Io(IoError(NotConnected, message)))];
        i := i + 1;
      }
      assert queued[..|queued|] == queued;
    }

    /// `sender`: the channel of one of the peer's connections, the first
    /// the set yields, when that one has a channel. Otherwise the peer's
    /// waiting channel, made if there is none yet, and a dial of the peer
    /// is asked for; `dialAccepted` says whether `dial_sender` takes it.
    method Sender(peer: PeerId, dialAccepted: bool) returns (ch: Channel)
      requires Valid()
      modifies this
      ensures Valid()
      ensures connections == old(connections) && senders == old(senders)
      ensures ch.id < nextChannel
      ensures ch in old(senders).Values ==>
                && peer in old(connections) && (exists c :: c in old(connections)[peer] && c in old(senders) && ch == old(senders)[c])
                && pendingChannels == old(pendingChannels) && dialRequests == old(dialRequests) && nextChannel == old(nextChannel)
      ensures ch !in old(senders).Values ==>
                && pendingChannels == old(pendingChannels)[peer := ch]
                && (peer in old(pendingChannels) ==> ch == old(pendingChannels)[peer] && nextChannel == old(nextChannel))
                && (peer !in old(pendingChannels) ==> ch == Channel(old(nextChannel)) && nextChannel == old(nextChannel) + 1)
                && dialRequests == old(dialRequests) + (if dialAccepted then [peer] else [])
      ensures peer in old(connections) && (forall c :: c in old(connections)[peer] ==> c in old(senders)) ==>
                ch in old(senders).Values
      ensures peer !in old(connections) || (forall c :: c in old(connections)[peer] ==> c !in old(senders)) ==>
                ch !in old(senders).Values
    {
      if peer in connections {
        var c :| c in connections[peer];
        if c in senders {
          return senders[c];
        }
      }
      if peer in pendingChannels {
        ch := pendingChannels[peer];
      } else {
        ch := Channel(nextChannel);
        nextChannel := nextChannel + 1;
        pendingChannels := pendingChannels[peer := ch];
      }
      if dialAccepted {
        dialRequests := dialRequests + [peer];
      }
    }

    /// `receiver`: a new connection's handler takes over the peer's
    /// waiting channel if there is one, or a new channel otherwise; either
    /// way the channel becomes the connection's.
    method Receiver(peer: PeerId, conn: ConnectionId) returns (ch: Channel)
      requires Valid()
      modifies this
      ensures Valid()
      ensures senders == old(senders)[conn := ch]
      ensures peer in old(pendingChannels) ==>
                ch == old(pendingChannels)[peer] && pendingChannels == old(pendingChannels) - {peer} && nextChannel == old(nextChannel)
      ensures peer !in old(pendingChannels) ==>
                ch == Channel(old(nextChannel)) && nextChannel == old(nextChannel) + 1 && pendingChannels == old(pendingChannels)
      ensures connections == old(connections) && dialRequests == old(dialRequests)
    {
      if peer in pendingChannels {
        ch := pendingChannels[peer];
        pendingChannels := pendingChannels - {peer};
        senders := senders[conn := ch];
        return;
      }
      ch := Channel(nextChannel);
      nextChannel := nextChannel + 1;
      senders := senders[conn := ch];
    }
  }

  /// Requests to a peer not connected yet all wait on one channel, and
  /// that channel is the one the peer's first connection takes over: the
  /// requests reach that connection's handler.
  method WaitingRequestsReachConnection(s: Shared, peer: PeerId, conn: ConnectionId)
    returns (first: Channel, second: Channel, handler: Channel)
    requires s.Valid() && s.connections == map[] && s.senders == map[] && s.pendingChannels == map[]
    modifies s
    ensures first == second && second == handler
    ensures s.senders == map[conn := handler] && s.pendingChannels == map[]
    ensures s.dialRequests == old(s.dialRequests) + [peer, peer]
  {
    first := s.Sender(peer, true);
    second := s.Sender(peer, true);
    handler := s.Receiver(peer, conn);
  }
}
