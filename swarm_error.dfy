// The errors of the swarm (volans-swarm/src/error.rs) and how an error of
// a pending connection becomes the error reported for a dial or for an
// incoming connection.
module SwarmError {
  import opened Wrappers
  import opened Io
  import Identity
  import Transport
  import Multiaddrs
  import CoreConnection

  /// `ConnectionDenied`: the cause a behaviour gives, as its text.
  datatype ConnectionDenied = ConnectionDenied(cause: string)

  /// `dial_opts::PeerCondition`; `Always` is the default.
  datatype PeerCondition = Always | Disconnected | NotDialing | DisconnectedAndNotDialing

  /// `DialOpts` as a behaviour asks for a dial with `DialOpts::new(addr,
  /// peer)` and `with_condition`: the address if it has one, the peer,
  /// and the condition. The connection id `DialOpts::new` draws is not
  /// part of this value.
  datatype DialRequest = DialRequest(addr: Option<Multiaddrs.Multiaddr>, peer: Option<Identity.PeerId>, condition: PeerCondition)

  type TransportFailure = Transport.TransportError<IoError, Multiaddrs.Multiaddr>

  /// `PendingConnectionError`.
  datatype PendingConnectionError =
    | PendingTransport(addr: CoreConnection.Url, error: TransportFailure)
    | PendingAborted
    | PendingWrongPeerId(obtained: Identity.PeerId)
    | PendingLocalPeerId

  /// `DialError`.
  datatype DialError =
    | DialLocalPeerId
    | NoAddress
    | PeerConditionUnmet(condition: PeerCondition)
    | DialAborted
    | DialWrongPeerId(obtained: Identity.PeerId)
    | DialDenied(cause: ConnectionDenied)
    | DialTransport(addr: CoreConnection.Url, error: TransportFailure)

  /// `ListenError`.
  datatype ListenError =
    | ListenAborted
    | ListenWrongPeerId(obtained: Identity.PeerId)
    | ListenLocalPeerId
    | ListenDenied(cause: ConnectionDenied)
    | ListenTransport(error: TransportFailure)

  /// `ConnectionError`.
  datatype ConnectionError = ConnectionIo(ioError: IoError) | KeepAliveTimeout | Closing

  /// `From<PendingConnectionError> for DialError`: each variant goes to
  /// the variant of the same name, with its payload.
  function DialErrorOf(e: PendingConnectionError): (r: DialError)
    ensures e.PendingTransport? <==> r.DialTransport?
    ensures e.PendingTransport? ==> r.addr == e.addr && r.error == e.error
    ensures e.PendingAborted? <==> r.DialAborted?
    ensures e.PendingWrongPeerId? <==> r.DialWrongPeerId?
    ensures e.PendingWrongPeerId? ==> r.obtained == e.obtained
    ensures e.PendingLocalPeerId? <==> r.DialLocalPeerId?
  {
    match e
    case PendingTransport(addr, error) => DialTransport(addr, error)
    case PendingAborted => DialAborted
    case PendingWrongPeerId(p) => DialWrongPeerId(p)
    case PendingLocalPeerId => DialLocalPeerId
  }

  /// `From<PendingConnectionError> for ListenError`: the same, except
  /// that a transport error loses the address it was for, and the
  /// `TransportError::from` it goes through is the identity conversion.
  function ListenErrorOf(e: PendingConnectionError): (r: ListenError)
    ensures e.PendingTransport? <==> r.ListenTransport?
    ensures e.PendingTransport? ==> r.error == e.error
    ensures e.PendingAborted? <==> r.ListenAborted?
    ensures e.PendingWrongPeerId? <==> r.ListenWrongPeerId?
    ensures e.PendingWrongPeerId? ==> r.obtained == e.obtained
    ensures e.PendingLocalPeerId? <==> r.ListenLocalPeerId?
  {
    match e
    case PendingTransport(_, error) => ListenTransport(error)
    case PendingAborted => ListenAborted
    case PendingWrongPeerId(p) => ListenWrongPeerId(p)
    case PendingLocalPeerId => ListenLocalPeerId
  }

  /// The dial conversion loses nothing: distinct pending errors stay
  /// distinct, and neither conversion ever yields a Denied error, which
  /// only a behaviour produces.
  lemma DialErrorOfInjective(a: PendingConnectionError, b: PendingConnectionError)
    ensures DialErrorOf(a) == DialErrorOf(b) ==> a == b
    ensures !DialErrorOf(a).DialDenied? && !DialErrorOf(a).NoAddress? && !DialErrorOf(a).PeerConditionUnmet?
    ensures !ListenErrorOf(a).ListenDenied?
  {
  }

  /// The listen conversion forgets exactly the address of a transport
  /// error.
  lemma ListenErrorOfForgetsAddress(a: PendingConnectionError, b: PendingConnectionError)
    ensures ListenErrorOf(a) == ListenErrorOf(b) <==>
            (a == b || (a.PendingTransport? && b.PendingTransport? && a.error == b.error))
  {
  }
}
