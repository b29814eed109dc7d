// The address logic of the TCP transport (transports/volans-tcp/src/lib.rs):
// reading a socket address out of a multiaddr, and the guard on the
// addresses `dial` and `listen` accept. The sockets themselves are not
// part of this model.
module TcpTransport {
  import opened Wrappers
  import opened Bytes
  import opened MultiaddrProtocol
  import opened Multiaddrs
  import Transport

  /// `std::net::SocketAddr`.
  datatype SocketAddr = SocketAddr(ip: IpAddr, port: u16)

  /// `IpAddr::is_unspecified`: the all-zero address of either family.
  predicate IsUnspecified(ip: IpAddr)
  {
    match ip
    case V4(a) => forall i :: 0 <= i < 4 ==> a[i] == 0
    case V6(a) => forall i :: 0 <= i < 8 ==> a[i] == 0
  }

  /// What the loop of `multiaddr_to_socket_addr` computes over the
  /// components still in the address, scanning from the end, with the
  /// port found so far.
  function SocketAddrOf(ps: seq<Protocol>, port: Option<u16>): Result<SocketAddr, ()>
  {
    if ps == [] then Err(())
    else
      var rest := ps[..|ps| - 1];
      match ps[|ps| - 1]
      case Ip4(a) => if port.Some? then Ok(SocketAddr(V4(a), port.value)) else Err(())
      case Ip6(a) => if port.Some? then Ok(SocketAddr(V6(a), port.value)) else Err(())
      case Tcp(n) => if port.Some? then Err(()) else SocketAddrOf(rest, Some(n))
      case Peer(_) => SocketAddrOf(rest, port)
      case _ => Err(())
  }

  /// `multiaddr_to_socket_addr`: pops components until the IP address.
  method MultiaddrToSocketAddr(m: Multiaddr) returns (r: Result<SocketAddr, ()>)
    requires Valid(m)
    ensures r == SocketAddrOf(Components(m), None)
  {
    var addr := m;
    var port: Option<u16> := None;
    while true
      invariant Valid(addr)
      invariant SocketAddrOf(Components(addr), port) == SocketAddrOf(Components(m), None)
      decreases |Components(addr)|
    {
      var proto, addr' := Pop(addr);
      if proto.None? {
        assert Components(addr) == [];
        return Err(());
      }
      assert Components(addr') == Components(addr)[..|Components(addr)| - 1];
      match proto.value {
        case Ip4(a) =>
          if port.Some? {
            return Ok(SocketAddr(V4(a), port.value));
          }
          return Err(());
        case Ip6(a) =>
          if port.Some? {
            return Ok(SocketAddr(V6(a), port.value));
          }
          return Err(());
        case Tcp(n) =>
          if port.Some? {
            return Err(());
          }
          port := Some(n);
        case Peer(_) =>
        case _ =>
          return Err(());
      }
      addr := addr';
    }
  }

  /// `ip_to_multiaddr`.
  function IpToMultiaddr(ip: IpAddr, port: u16): (m: Multiaddr)
    ensures Valid(m) && Components(m) == [FromIp(ip), Tcp(port)]
  {
    PushComponents(FromProtocol(FromIp(ip)), Tcp(port));
    Push(FromProtocol(FromIp(ip)), Tcp(port))
  }

  // ---------------------------------------------------------------------
  // An independent description of the addresses that are read

  function TcpCount(s: seq<Protocol>): nat
  {
    if s == [] then 0 else TcpCount(s[..|s| - 1]) + (if s[|s| - 1].Tcp? then 1 else 0)
  }

  /// What may follow the innermost IP address: peer components and tcp
  /// components of the given port, with exactly one tcp in all once the
  /// port found so far is counted.
  predicate PortTail(tail: seq<Protocol>, port: Option<u16>, final: u16)
  {
    (forall j :: 0 <= j < |tail| ==> tail[j].Peer? || tail[j] == Tcp(final))
    && TcpCount(tail) + (if port.Some? then 1 else 0) == 1
    && (port.Some? ==> port.value == final)
  }

  /// An address is read as `ip:port` exactly when it is some prefix, that
  /// IP address, and after it only peer components and one tcp component
  /// of that port: the prefix is never looked at.
  lemma {:induction false} SocketAddrOfLayout(pre: seq<Protocol>, ip: IpAddr, tail: seq<Protocol>, port: Option<u16>, final: u16)
    requires PortTail(tail, port, final)
    ensures SocketAddrOf(pre + [FromIp(ip)] + tail, port) == Ok(SocketAddr(ip, final))
    decreases |tail|
  {
    var ps := pre + [FromIp(ip)] + tail;
    if tail == [] {
      assert ps[|ps| - 1] == FromIp(ip);
    } else {
      var t := tail[..|tail| - 1];
      assert ps[..|ps| - 1] == pre + [FromIp(ip)] + t;
      assert ps[|ps| - 1] == tail[|tail| - 1];
      var last := tail[|tail| - 1];
      if last.Peer? {
        assert PortTail(t, port, final);
        SocketAddrOfLayout(pre, ip, t, port, final);
      } else {
        assert last == Tcp(final);
        assert port.None?;
        assert PortTail(t, Some(final), final);
        SocketAddrOfLayout(pre, ip, t, Some(final), final);
      }
    }
  }

  /// The converse: whatever is read comes from such a layout.
  lemma {:induction false} SocketAddrOfSound(ps: seq<Protocol>, port: Option<u16>, sa: SocketAddr)
    requires SocketAddrOf(ps, port) == Ok(sa)
    ensures exists i :: 0 <= i < |ps| && ps[i] == FromIp(sa.ip) && PortTail(ps[i + 1..], port, sa.port)
    decreases |ps|
  {
    var n := |ps| - 1;
    var last := ps[n];
    if last.Ip4? || last.Ip6? {
      SoundAtIp(ps, port, sa);
    } else {
      var port' := if last.Tcp? then Some(last.port) else port;
      assert SocketAddrOf(ps[..n], port') == Ok(sa);
      SocketAddrOfSound(ps[..n], port', sa);
      var i :| 0 <= i < n && ps[..n][i] == FromIp(sa.ip) && PortTail(ps[..n][i + 1..], port', sa.port);
      SoundStep(ps, port, port', sa, i);
    }
  }

  lemma SoundAtIp(ps: seq<Protocol>, port: Option<u16>, sa: SocketAddr)
    requires SocketAddrOf(ps, port) == Ok(sa) && (ps[|ps| - 1].Ip4? || ps[|ps| - 1].Ip6?)
    ensures ps[|ps| - 1] == FromIp(sa.ip) && PortTail(ps[|ps|..], port, sa.port)
  {
    assert ps[|ps|..] == [];
  }

  lemma SoundStep(ps: seq<Protocol>, port: Option<u16>, port': Option<u16>, sa: SocketAddr, i: nat)
    requires 0 < |ps| && i < |ps| - 1
    requires SocketAddrOf(ps, port) == Ok(sa)
    requires !ps[|ps| - 1].Ip4? && !ps[|ps| - 1].Ip6?
    requires port' == if ps[|ps| - 1].Tcp? then Some(ps[|ps| - 1].port) else port
    requires PortTail(ps[..|ps| - 1][i + 1..], port', sa.port)
    ensures PortTail(ps[i + 1..], port, sa.port)
  {
    var tail := ps[i + 1..];
    assert tail[..|tail| - 1] == ps[..|ps| - 1][i + 1..];
    assert tail[|tail| - 1] == ps[|ps| - 1];
  }

  /// Round trip: the address written for `ip:port` reads back as it.
  method SocketAddrRoundTrip(ip: IpAddr, port: u16) returns (r: Result<SocketAddr, ()>)
    ensures r == Ok(SocketAddr(ip, port))
  {
    var m := IpToMultiaddr(ip, port);
    r := MultiaddrToSocketAddr(m);
    assert PortTail([Tcp(port)], None, port) by {
      assert [Tcp(port)][..0] == [];
    }
    SocketAddrOfLayout([], ip, [Tcp(port)], None, port);
    assert [] + [FromIp(ip)] + [Tcp(port)] == [FromIp(ip), Tcp(port)];
  }

  /// A second tcp component after the IP address is refused.
  lemma TwoPortsRefused(pre: seq<Protocol>, ip: IpAddr, a: u16, b: u16)
    ensures SocketAddrOf(pre + [FromIp(ip), Tcp(a), Tcp(b)], None) == Err(())
  {
    var ps := pre + [FromIp(ip), Tcp(a), Tcp(b)];
    assert ps[..|ps| - 1] == pre + [FromIp(ip), Tcp(a)];
    var q := pre + [FromIp(ip), Tcp(a)];
    assert q[|q| - 1] == Tcp(a);
  }

  /// An IP address with no port ahead of it is refused.
  lemma NoPortRefused(pre: seq<Protocol>, ip: IpAddr)
    ensures SocketAddrOf(pre + [FromIp(ip)], None) == Err(())
  {
    var ps := pre + [FromIp(ip)];
    assert ps[|ps| - 1] == FromIp(ip);
  }

  /// Any component other than an IP address, tcp or a peer, met before
  /// the IP address, is refused.
  lemma OtherRefused(pre: seq<Protocol>, p: Protocol, port: Option<u16>)
    requires !p.Ip4? && !p.Ip6? && !p.Tcp? && !p.Peer?
    ensures SocketAddrOf(pre + [p], port) == Err(())
  {
    var ps := pre + [p];
    assert ps[|ps| - 1] == p;
  }

  /// The dial guard: the parsed address, unless it fails to parse, has
  /// port 0 or the unspecified IP, which are NotSupported.
  function DialTarget<E>(m: Multiaddr, parsed: Result<SocketAddr, ()>): (r: Result<SocketAddr, Transport.TransportError<E, Multiaddr>>)
    ensures r.Ok? <==> parsed.Ok? && parsed.value.port != 0 && !IsUnspecified(parsed.value.ip)
    ensures r.Ok? ==> r.value == parsed.value
    ensures r.Err? ==> r.error == Transport.NotSupported(m)
  {
    match parsed
    case Ok(sa) => if sa.port != 0 && !IsUnspecified(sa.ip) then Ok(sa) else Err(Transport.NotSupported(m))
    case Err(_) => Err(Transport.NotSupported(m))
  }

  /// `dial`: the address it connects to.
  method Dial<E>(m: Multiaddr) returns (r: Result<SocketAddr, Transport.TransportError<E, Multiaddr>>)
    requires Valid(m)
    ensures r == DialTarget(m, SocketAddrOf(Components(m), None))
  {
    var parsed := MultiaddrToSocketAddr(m);
    r := DialTarget(m, parsed);
  }

  /// `listen`: any address that is read is bound, port 0 and the
  /// unspecified IP included.
  method Listen<E>(m: Multiaddr) returns (r: Result<SocketAddr, Transport.TransportError<E, Multiaddr>>)
    requires Valid(m)
    ensures SocketAddrOf(Components(m), None).Ok? ==> r == Ok(SocketAddrOf(Components(m), None).value)
    ensures SocketAddrOf(Components(m), None).Err? ==> r == Err(Transport.NotSupported(m))
  {
    var parsed := MultiaddrToSocketAddr(m);
    if parsed.Ok? {
      r := Ok(parsed.value);
    } else {
      r := Err(Transport.NotSupported(m));
    }
  }
}
