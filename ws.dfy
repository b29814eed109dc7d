// The address logic of the WebSocket transport
// (transports/volans-ws/src/lib.rs): a websocket address is an inner TCP
// address followed by `/ws`, optionally followed by the request path.
// The handshake and the framing are not part of this model.
module WsTransport {
  import opened Wrappers
  import opened Bytes
  import opened MultiaddrProtocol
  import opened Multiaddrs
  import Transport
  import opened TcpTransport

  /// `parse_ws_addr`: the inner address and the path, if the address ends
  /// in `/ws` or in `/ws/x-with-path(..)`.
  function ParseWsAddr(m: Multiaddr): (r: Option<(Multiaddr, Option<Utf8>)>)
    requires Valid(m)
    ensures r.Some? ==> Valid(r.value.0) && |Components(r.value.0)| < |Components(m)|
  {
    var popped := Popped(m);
    if popped.None? then None
    else
      var last := popped.value.0;
      var inner := popped.value.1;
      if last.Path? then
        var popped' := Popped(inner);
        if popped'.Some? && popped'.value.0 == Ws then Some((popped'.value.1, Some(last.name))) else None
      else if last == Ws then Some((inner, None))
      else None
  }

  /// A trailing ws gives the components before it and no path.
  lemma ParseWsAddrTrailingWs(m: Multiaddr)
    requires Valid(m) && |Components(m)| >= 1 && Components(m)[|Components(m)| - 1] == Ws
    ensures var r := ParseWsAddr(m);
            r.Some? && r.value.1 == None && Valid(r.value.0)
            && Components(r.value.0) == Components(m)[..|Components(m)| - 1]
  {
  }

  /// ws followed by a path gives the components before both, and the
  /// path.
  lemma ParseWsAddrWithPath(m: Multiaddr)
    requires Valid(m) && |Components(m)| >= 2
    requires Components(m)[|Components(m)| - 1].Path? && Components(m)[|Components(m)| - 2] == Ws
    ensures var r := ParseWsAddr(m);
            r.Some? && r.value.1 == Some(Components(m)[|Components(m)| - 1].name) && Valid(r.value.0)
            && Components(r.value.0) == Components(m)[..|Components(m)| - 2]
  {
    var ps := Components(m);
    var n := |ps|;
    var inner := Popped(m).value.1;
    assert Components(inner) == ps[..n - 1];
    var inner' := Popped(inner).value.1;
    assert Popped(inner).value.0 == ps[..n - 1][n - 2];
    assert Components(inner') == ps[..n - 1][..n - 2] == ps[..n - 2];
  }

  /// Any other address, the empty one included, gives nothing.
  lemma ParseWsAddrOther(m: Multiaddr)
    requires Valid(m) && ParseWsAddr(m).Some?
    ensures var ps := Components(m);
            (|ps| >= 1 && ps[|ps| - 1] == Ws)
            || (|ps| >= 2 && ps[|ps| - 1].Path? && ps[|ps| - 2] == Ws)
  {
    var ps := Components(m);
    var inner := Popped(m).value.1;
    if ps[|ps| - 1].Path? {
      assert Components(inner) == ps[..|ps| - 1];
      assert inner.bytes != [];
    }
  }

  /// With no path, putting `/ws` back on the inner address gives the
  /// components of the address that was parsed.
  lemma WithWsRestores(m: Multiaddr)
    requires Valid(m) && ParseWsAddr(m).Some? && ParseWsAddr(m).value.1.None?
    ensures Valid(Push(ParseWsAddr(m).value.0, Ws))
    ensures Components(Push(ParseWsAddr(m).value.0, Ws)) == Components(m)
  {
    var ps := Components(m);
    ParseWsAddrOther(m);
    assert !ps[|ps| - 1].Path?;
    ParseWsAddrTrailingWs(m);
    PushComponents(ParseWsAddr(m).value.0, Ws);
    assert ps[..|ps| - 1] + [Ws] == ps;
  }

  /// On an address written from its components, putting `/ws` back gives
  /// exactly the bytes that were parsed.
  lemma WithWsRestoresBytes(ps: seq<Protocol>)
    requires AllWellSized(ps) && |ps| > 0 && ps[|ps| - 1] == Ws
    ensures Valid(Multiaddr(Encoding(ps)))
    ensures var r := ParseWsAddr(Multiaddr(Encoding(ps)));
            r.Some? && r.value.1.None? && Push(r.value.0, Ws) == Multiaddr(Encoding(ps))
  {
    var m := Multiaddr(Encoding(ps));
    HeadOfEncoding(ps, |ps| - 1);
    ParseWsAddrTrailingWs(m);
    EncodingSnoc(ps, |ps| - 1);
    assert ps[..|ps|] == ps;
  }

  /// The request path `dial` sends: the path read, or the empty text.
  function RequestPath(path: Option<Utf8>): Utf8
  {
    if path.Some? then path.value else []
  }

  /// `dial`: the socket address the inner TCP dial connects to and the
  /// request path. Not a websocket address is NotSupported of the whole
  /// address; a request path the URI parser refuses (`uriError`, foreign
  /// code, gives its error) is that error; then the TCP dial's guard
  /// applies to the inner address, and its NotSupported names the inner
  /// address.
  function DialTarget<E>(m: Multiaddr, uriError: Utf8 -> Option<E>)
    : (r: Result<(SocketAddr, Utf8), Transport.TransportError<E, Multiaddr>>)
    requires Valid(m)
    ensures ParseWsAddr(m).None? ==> r == Err(Transport.NotSupported(m))
    ensures ParseWsAddr(m).Some? ==>
              var inner := ParseWsAddr(m).value.0;
              var path := RequestPath(ParseWsAddr(m).value.1);
              var read := SocketAddrOf(Components(inner), None);
              (uriError(path).Some? ==> r == Err(Transport.Other(uriError(path).value)))
              && (uriError(path).None? ==>
                    (r.Ok? <==> read.Ok? && read.value.port != 0 && !IsUnspecified(read.value.ip))
                    && (r.Ok? ==> r.value == (read.value, path))
                    && (r.Err? ==> r.error == Transport.NotSupported(inner)))
  {
    match ParseWsAddr(m)
    case None => Err(Transport.NotSupported(m))
    case Some((inner, path)) =>
      var request := RequestPath(path);
      match uriError(request)
      case Some(e) => Err(Transport.Other(e))
      case None =>
        match TcpTransport.DialTarget<E>(inner, SocketAddrOf(Components(inner), None))
        case Ok(sa) => Ok((sa, request))
        case Err(e) => Err(e)
  }

  /// `listen`: the socket address the inner TCP listener binds and the
  /// path kept for accepting. Not a websocket address is NotSupported of
  /// the whole address, an inner address TCP cannot read is NotSupported
  /// of the inner address; port 0 and the unspecified IP are accepted.
  function ListenTarget<E>(m: Multiaddr): (r: Result<(SocketAddr, Option<Utf8>), Transport.TransportError<E, Multiaddr>>)
    requires Valid(m)
    ensures ParseWsAddr(m).None? ==> r == Err(Transport.NotSupported(m))
    ensures ParseWsAddr(m).Some? ==>
              var inner := ParseWsAddr(m).value.0;
              var read := SocketAddrOf(Components(inner), None);
              (read.Ok? ==> r == Ok((read.value, ParseWsAddr(m).value.1)))
              && (read.Err? ==> r == Err(Transport.NotSupported(inner)))
  {
    match ParseWsAddr(m)
    case None => Err(Transport.NotSupported(m))
    case Some((inner, path)) =>
      match SocketAddrOf(Components(inner), None)
      case Ok(sa) => Ok((sa, path))
      case Err(_) => Err(Transport.NotSupported(inner))
  }

  /// A websocket address over `ip:port`, with or without a path, dials
  /// `ip:port` with that path (the empty one when there is none) exactly
  /// when the port is not 0 and the IP is not unspecified; otherwise the
  /// TCP dial refuses the inner address. So `/ip4/0.0.0.0/tcp/80/ws` is
  /// NotSupported.
  lemma DialOverTcp<E>(ip: IpAddr, port: u16, path: Option<Utf8>, uriError: Utf8 -> Option<E>)
    requires path.Some? ==> WellSized(Path(path.value))
    requires uriError(RequestPath(path)).None?
    ensures var inner := IpToMultiaddr(ip, port);
            var m := if path.Some? then Push(Push(inner, Ws), Path(path.value)) else Push(inner, Ws);
            Valid(m)
            && (port != 0 && !IsUnspecified(ip) ==> DialTarget(m, uriError) == Ok((SocketAddr(ip, port), RequestPath(path))))
            && (port == 0 || IsUnspecified(ip) ==> DialTarget(m, uriError) == Err(Transport.NotSupported(inner)))
  {
    var inner := IpToMultiaddr(ip, port);
    PopOfPush(inner, Ws);
    var w := Push(inner, Ws);
    assert Popped(w).value.1 == inner;
    if path.Some? {
      PopOfPush(w, Path(path.value));
      assert Popped(Push(w, Path(path.value))).value.1 == w;
    }
    assert [Tcp(port)][..0] == [];
    SocketAddrOfLayout([], ip, [Tcp(port)], None, port);
    assert [] + [FromIp(ip)] + [Tcp(port)] == Components(inner);
  }
}
