// The table of the stream protocol's accepting side
// (protocols/volans-stream/src/server.rs): each protocol the user accepts
// is registered once, with a channel to which the streams negotiated for
// it are handed. The channels are outside the model; what each has been
// handed is kept with its protocol, and whether it is open, full or closed
// when asked is an input.
module StreamServer {
  import opened Wrappers
  import opened Identity
  import opened SwarmConnection
  import opened SwarmNotify

  /// `StreamProtocol`: a protocol's name.
  type StreamProtocol = string

  /// `AlreadyRegistered`.
  datatype AlreadyRegistered = AlreadyRegistered

  /// `IncomingStreams`: the receiving end of a protocol's channel.
  datatype IncomingStreams = IncomingStreams(protocol: StreamProtocol)

  /// What a channel is handed: a negotiated stream and where it came from.
  datatype Delivered<O> = Delivered(peer: PeerId, connection: ConnectionId, output: O)

  /// `StreamEvent`, as a connection's handler reports it.
  datatype StreamEvent<O, E> =
    | FullyNegotiated(protocol: StreamProtocol, output: O)
    | UpgradeError(protocol: StreamProtocol, error: E)

  /// `Shared`.
  class Shared<O> {
    /// `supported_protocols`: each registered protocol, with what its
    /// channel has taken so far, oldest first.
    var supported: map<StreamProtocol, seq<Delivered<O>>>

    /// `Shared::new`: nothing registered.
    constructor()
      ensures supported == map[]
    {
      supported := map[];
    }

    /// `accept`: a protocol is registered once; registering it again is
    /// refused and changes nothing.
    method Accept(protocol: StreamProtocol) returns (r: Result<IncomingStreams, AlreadyRegistered>)
      modifies this
      ensures protocol in old(supported) ==> r == Err(AlreadyRegistered) && supported == old(supported)
      ensures protocol !in old(supported) ==> r == Ok(IncomingStreams(protocol)) && supported == old(supported)[protocol := []]
    {
      if protocol in supported {
        return Err(AlreadyRegistered);
      }
      supported := supported[protocol := []];
      return Ok(IncomingStreams(protocol));
    }

    /// `listen_protocol`: the protocols whose channel has been closed by
    /// the user (`closed`) are dropped first, and exactly the others are
    /// offered.
    method ListenProtocol(closed: set<StreamProtocol>) returns (offered: set<StreamProtocol>)
      modifies this
      ensures offered == old(supported).Keys - closed
      ensures supported == map p | p in old(supported) && p !in closed :: old(supported)[p]
    {
      supported := map p | p in supported && p !in closed :: supported[p];
      offered := supported.Keys;
    }

    /// `on_inbound_handler_event`: a stream negotiated for a registered
    /// protocol is handed to its channel. A full channel drops it; a
    /// closed one drops it and the registration. A stream for a protocol
    /// not registered is dropped, and an upgrade error changes nothing.
    method OnInboundHandlerEvent<E>(peer: PeerId, connection: ConnectionId, event: StreamEvent<O, E>, channel: Readiness)
      modifies this
      ensures event.UpgradeError? || event.protocol !in old(supported) ==> supported == old(supported)
      ensures event.FullyNegotiated? && event.protocol in old(supported) ==>
                var p := event.protocol;
                supported == match channel
                  case Open => old(supported)[p := old(supported)[p] + [Delivered(peer, connection, event.output)]]
                  case Busy => old(supported)
                  case Gone => old(supported) - {p}
    {
      if event.UpgradeError? || event.protocol !in supported {
        return;
      }
      var p := event.protocol;
      match channel {
        case Open =>
          supported := supported[p := supported[p] + [Delivered(peer, connection, event.output)]];
        case Busy =>
        case Gone =>
          supported := supported - {p};
      }
    }
  }

  /// A protocol accepted twice is registered once: the second attempt is
  /// refused, and the protocol is offered to connections.
  method AcceptOnce<O>(s: Shared<O>, protocol: StreamProtocol) returns (first: Result<IncomingStreams, AlreadyRegistered>, second: Result<IncomingStreams, AlreadyRegistered>, offered: set<StreamProtocol>)
    requires protocol !in s.supported
    modifies s
    ensures first.Ok? && second == Err(AlreadyRegistered)
    ensures protocol in offered
  {
    first := s.Accept(protocol);
    second := s.Accept(protocol);
    offered := s.ListenProtocol({});
  }

  /// A closed channel's protocol is no longer offered, and a stream
  /// negotiated for it is dropped.
  method ClosedProtocolIsDropped<O, E>(s: Shared<O>, protocol: StreamProtocol, peer: PeerId, connection: ConnectionId, output: O)
    returns (offered: set<StreamProtocol>)
    requires protocol in s.supported
    modifies s
    ensures protocol !in offered && protocol !in s.supported
  {
    s.OnInboundHandlerEvent<E>(peer, connection, FullyNegotiated(protocol, output), Gone);
    offered := s.ListenProtocol({});
  }
}
