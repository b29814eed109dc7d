// Which side of a connection the local node is on (connection.rs of
// volans-core).
module CoreConnection {
  /// Addresses as the text of a URL.
  type Url = string

  datatype ConnectedPoint =
    | DialerPoint(addr: Url)
    | ListenerPoint(localAddr: Url, remoteAddr: Url)

  datatype Endpoint = Dialer | Listener

  /// `ConnectedPoint::to_endpoint`, also what both `From` conversions do.
  function ToEndpoint(cp: ConnectedPoint): (e: Endpoint)
    ensures e == Dialer <==> cp.DialerPoint?
    ensures e == Listener <==> cp.ListenerPoint?
  {
    match cp
    case DialerPoint(_) => Dialer
    case ListenerPoint(_, _) => Listener
  }

  predicate PointIsDialer(cp: ConnectedPoint) { cp.DialerPoint? }

  predicate PointIsListener(cp: ConnectedPoint) { cp.ListenerPoint? }

  predicate IsDialer(e: Endpoint) { e == Dialer }

  predicate IsListener(e: Endpoint) { e == Listener }

  /// `!endpoint`: the other side.
  function Not(e: Endpoint): (r: Endpoint)
    ensures r != e
  {
    match e
    case Dialer => Listener
    case Listener => Dialer
  }

  /// Exactly one of the two predicates holds, on both types, and they
  /// agree across `to_endpoint`.
  lemma ExactlyOneSide(cp: ConnectedPoint, e: Endpoint)
    ensures PointIsDialer(cp) != PointIsListener(cp)
    ensures IsDialer(e) != IsListener(e)
    ensures IsDialer(ToEndpoint(cp)) == PointIsDialer(cp) && IsListener(ToEndpoint(cp)) == PointIsListener(cp)
  {
  }

  /// Negation swaps the sides and undoes itself.
  lemma NotInvolution(e: Endpoint)
    ensures Not(Not(e)) == e
    ensures IsDialer(Not(e)) == IsListener(e)
  {
  }
}
