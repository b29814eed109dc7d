// Multiaddresses from URLs (multiaddr/from_url.rs of volans-core). The
// URL parser is the foreign `url` crate: it is a parameter here, and its
// result is the record of the URL parts the conversion reads. The host
// text is tried as an IP address by a parser that is a parameter too.
module MultiaddrFromUrl {
  import opened Wrappers
  import opened Bytes
  import opened MultiaddrProtocol
  import opened Multiaddrs

  /// `FromUrlErr`.
  datatype FromUrlErr = BadUrl | UnsupportedScheme | InformationLoss

  /// The parts of a parsed URL that the conversion reads.
  datatype Url = Url(
    scheme: seq<byte>,
    host: Option<Utf8>,
    port: Option<u16>,
    username: Utf8,
    password: Option<Utf8>,
    query: Option<Utf8>,
    fragment: Option<Utf8>,
    path: Utf8)

  const SCHEME_WS: seq<byte> := [0x77, 0x73]
  const SCHEME_WSS: seq<byte> := [0x77, 0x73, 0x73]
  const SCHEME_HTTP: seq<byte> := [0x68, 0x74, 0x74, 0x70]
  const SCHEME_HTTPS: seq<byte> := [0x68, 0x74, 0x74, 0x70, 0x73]
  const SCHEME_UNIX: seq<byte> := [0x75, 0x6E, 0x69, 0x78]

  const HTTP_PORT: u16 := 80
  const HTTPS_PORT: u16 := 443

  predicate IsHttpWsScheme(s: seq<byte>)
  {
    s == SCHEME_WS || s == SCHEME_WSS || s == SCHEME_HTTP || s == SCHEME_HTTPS
  }

  predicate IsSecure(s: seq<byte>) { s == SCHEME_WSS || s == SCHEME_HTTPS }

  /// Nothing in the URL that a multiaddr cannot hold: no user name, no
  /// password, no query and no fragment.
  predicate Lossless(url: Url)
  {
    url.username == [] && url.password.None? && url.query.None? && url.fragment.None?
  }

  /// The host component: an IP address when the host text is one,
  /// otherwise a dns name.
  function HostProtocol(host: Utf8, parseIp: Utf8 -> Option<IpAddr>): (p: Protocol)
    ensures parseIp(host).Some? ==> p == FromIp(parseIp(host).value)
    ensures parseIp(host).None? ==> p == Dns(host)
  {
    match parseIp(host)
    case Some(ip) => FromIp(ip)
    case None => Dns(host)
  }

  /// The scheme's protocol component: ws for ws and wss, http for http
  /// and https.
  function SchemeProtocol(s: seq<byte>): (p: Protocol)
    requires IsHttpWsScheme(s)
    ensures p == Ws <==> (s == SCHEME_WS || s == SCHEME_WSS)
    ensures p == Http <==> (s == SCHEME_HTTP || s == SCHEME_HTTPS)
  {
    if s == SCHEME_WS || s == SCHEME_WSS then Ws else Http
  }

  /// The scheme's default port: 443 for the secure schemes, 80 otherwise.
  function DefaultPort(s: seq<byte>): u16
  {
    if IsSecure(s) then HTTPS_PORT else HTTP_PORT
  }

  /// The tcp component: the URL's port, or the scheme's default.
  function PortOf(url: Url): Protocol
  {
    Tcp(if url.port.Some? then url.port.value else DefaultPort(url.scheme))
  }

  /// The tls component, for the secure schemes only.
  function TlsPart(s: seq<byte>): seq<Protocol>
  {
    if IsSecure(s) then [Tls] else []
  }

  /// The path component, unless the path is empty or `/`.
  function PathPart(path: Utf8): seq<Protocol>
  {
    if path != [] && path != [SLASH] then [Path(path)] else []
  }

  /// `from_url_inner_http_ws`.
  function FromHttpWs(url: Url, lossy: bool, parseIp: Utf8 -> Option<IpAddr>): Result<Multiaddr, FromUrlErr>
    requires IsHttpWsScheme(url.scheme)
  {
    var protocol := SchemeProtocol(url.scheme);
    var isTls := IsSecure(url.scheme);
    var port := PortOf(url);
    if url.host.None? then Err(BadUrl)
    else
      var ip := HostProtocol(url.host.value, parseIp);
      if !lossy && !Lossless(url) then Err(InformationLoss)
      else
        var m := Push(FromProtocol(ip), port);
        var m := if isTls then Push(m, Tls) else m;
        var m := Push(m, protocol);
        if url.path != [] && url.path != [SLASH] then Ok(Push(m, Path(url.path))) else Ok(m)
  }

  /// `from_url_inner_path`.
  function FromPath(url: Url, lossy: bool): Result<Multiaddr, FromUrlErr>
    requires url.scheme == SCHEME_UNIX
  {
    if !lossy && !Lossless(url) then Err(InformationLoss)
    else Ok(Push(FromProtocol(Unix), Path(url.path)))
  }

  /// `from_url_inner`.
  function FromUrlInner(text: Utf8, lossy: bool, parseUrl: Utf8 -> Option<Url>, parseIp: Utf8 -> Option<IpAddr>)
    : Result<Multiaddr, FromUrlErr>
  {
    match parseUrl(text)
    case None => Err(BadUrl)
    case Some(url) =>
      if IsHttpWsScheme(url.scheme) then FromHttpWs(url, lossy, parseIp)
      else if url.scheme == SCHEME_UNIX then FromPath(url, lossy)
      else Err(UnsupportedScheme)
  }

  /// `from_url`.
  function FromUrl(text: Utf8, parseUrl: Utf8 -> Option<Url>, parseIp: Utf8 -> Option<IpAddr>): Result<Multiaddr, FromUrlErr>
  {
    FromUrlInner(text, false, parseUrl, parseIp)
  }

  /// `from_url_lossy`.
  function FromUrlLossy(text: Utf8, parseUrl: Utf8 -> Option<Url>, parseIp: Utf8 -> Option<IpAddr>): Result<Multiaddr, FromUrlErr>
  {
    FromUrlInner(text, true, parseUrl, parseIp)
  }

  // ---------------------------------------------------------------------
  // What the conversion promises

  /// The components an http or ws URL stands for: the host, tcp with the
  /// URL's port or the scheme's default, tls for the secure schemes, ws
  /// or http, and the path unless it is empty or `/`.
  function HttpWsLayout(url: Url, parseIp: Utf8 -> Option<IpAddr>): seq<Protocol>
    requires IsHttpWsScheme(url.scheme) && url.host.Some?
  {
    [HostProtocol(url.host.value, parseIp), PortOf(url)] + TlsPart(url.scheme)
    + [SchemeProtocol(url.scheme)] + PathPart(url.path)
  }

  /// The scheme decides the route: a URL that does not parse is BadUrl,
  /// an unknown scheme is UnsupportedScheme, in either mode.
  lemma SchemeDispatch(text: Utf8, lossy: bool, parseUrl: Utf8 -> Option<Url>, parseIp: Utf8 -> Option<IpAddr>)
    ensures parseUrl(text).None? ==> FromUrlInner(text, lossy, parseUrl, parseIp) == Err(BadUrl)
    ensures parseUrl(text).Some? && !IsHttpWsScheme(parseUrl(text).value.scheme) && parseUrl(text).value.scheme != SCHEME_UNIX
            ==> FromUrlInner(text, lossy, parseUrl, parseIp) == Err(UnsupportedScheme)
  {
  }

  /// An http or ws URL: BadUrl without a host (checked first),
  /// InformationLoss in strict mode when the URL holds more than the
  /// multiaddr can, otherwise the layout above.
  lemma HttpWsResult(url: Url, lossy: bool, parseIp: Utf8 -> Option<IpAddr>)
    requires IsHttpWsScheme(url.scheme)
    ensures var r := FromHttpWs(url, lossy, parseIp);
            (url.host.None? ==> r == Err(BadUrl))
            && (url.host.Some? && !lossy && !Lossless(url) ==> r == Err(InformationLoss))
            && (url.host.Some? && (lossy || Lossless(url)) ==>
                  r == Ok(Multiaddr(Encoding(HttpWsLayout(url, parseIp)))))
  {
    if url.host.Some? && (lossy || Lossless(url)) {
      var host := HostProtocol(url.host.value, parseIp);
      var tcp := PortOf(url);
      var proto := SchemeProtocol(url.scheme);
      var tls := TlsPart(url.scheme);
      var path := PathPart(url.path);
      var m0 := FromProtocol(host);
      assert m0 == Multiaddr(Encoding([host])) by {
        assert Encoding([host]) == WriteBytes(host) + Encoding([]);
      }
      var m1 := Push(m0, tcp);
      PushEncoding([host], tcp);
      assert [host] + [tcp] == [host, tcp];
      var m2 := if IsSecure(url.scheme) then Push(m1, Tls) else m1;
      assert m2 == Multiaddr(Encoding([host, tcp] + tls)) by {
        if IsSecure(url.scheme) { PushEncoding([host, tcp], Tls); } else { assert [host, tcp] + tls == [host, tcp]; }
      }
      var m3 := Push(m2, proto);
      PushEncoding([host, tcp] + tls, proto);
      var m4 := if path != [] then Push(m3, Path(url.path)) else m3;
      assert m4 == Multiaddr(Encoding([host, tcp] + tls + [proto] + path)) by {
        if path != [] {
          PushEncoding([host, tcp] + tls + [proto], Path(url.path));
        } else {
          assert [host, tcp] + tls + [proto] + path == [host, tcp] + tls + [proto];
        }
      }
      assert FromHttpWs(url, lossy, parseIp) == Ok(m4);
    }
  }

  /// Pushing a component onto an encoding encodes one more component.
  lemma PushEncoding(ps: seq<Protocol>, p: Protocol)
    ensures Push(Multiaddr(Encoding(ps)), p) == Multiaddr(Encoding(ps + [p]))
  {
    EncodingAppend(ps, [p]);
    assert Encoding([p]) == WriteBytes(p) + Encoding([]);
  }

  /// With a host name short enough to be written, the layout is exactly
  /// the multiaddr's components.
  lemma HttpWsComponents(url: Url, lossy: bool, parseIp: Utf8 -> Option<IpAddr>)
    requires IsHttpWsScheme(url.scheme) && url.host.Some? && (lossy || Lossless(url))
    requires |url.host.value| < Varint.U64_MODULUS && |url.path| < Varint.U64_MODULUS
    ensures var r := FromHttpWs(url, lossy, parseIp);
            r.Ok? && Valid(r.value) && Components(r.value) == HttpWsLayout(url, parseIp)
  {
    HttpWsResult(url, lossy, parseIp);
    var ps := HttpWsLayout(url, parseIp);
    LayoutWellSized(url, parseIp);
    EncodedComponents(ps);
  }

  /// Every component of the layout is small enough to be written.
  lemma LayoutWellSized(url: Url, parseIp: Utf8 -> Option<IpAddr>)
    requires IsHttpWsScheme(url.scheme) && url.host.Some?
    requires |url.host.value| < Varint.U64_MODULUS && |url.path| < Varint.U64_MODULUS
    ensures AllWellSized(HttpWsLayout(url, parseIp))
  {
    var host := HostProtocol(url.host.value, parseIp);
    assert AllWellSized([host, PortOf(url)]);
    assert AllWellSized(TlsPart(url.scheme));
    assert AllWellSized([SchemeProtocol(url.scheme)]);
    assert AllWellSized(PathPart(url.path));
    AllWellSizedAppend([host, PortOf(url)], TlsPart(url.scheme));
    AllWellSizedAppend([host, PortOf(url)] + TlsPart(url.scheme), [SchemeProtocol(url.scheme)]);
    AllWellSizedAppend([host, PortOf(url)] + TlsPart(url.scheme) + [SchemeProtocol(url.scheme)], PathPart(url.path));
  }

  /// The encoding of written components is a valid multiaddr of them.
  lemma EncodedComponents(ps: seq<Protocol>)
    requires AllWellSized(ps)
    ensures Valid(Multiaddr(Encoding(ps))) && Components(Multiaddr(Encoding(ps))) == ps
  {
    ParseEncoding(ps);
  }

  lemma AllWellSizedAppend(a: seq<Protocol>, b: seq<Protocol>)
    requires AllWellSized(a) && AllWellSized(b)
    ensures AllWellSized(a + b)
  {
    forall i | 0 <= i < |a + b| ensures WellSized((a + b)[i]) {
      if i >= |a| { assert (a + b)[i] == b[i - |a|]; }
    }
  }

  /// Default ports: 80 for ws and http, 443 with tls for wss and https.
  lemma DefaultPorts(url: Url, parseIp: Utf8 -> Option<IpAddr>)
    requires IsHttpWsScheme(url.scheme) && url.host.Some? && url.port.None?
    ensures var ps := HttpWsLayout(url, parseIp);
            (IsSecure(url.scheme) ==> ps[1] == Tcp(443) && ps[2] == Tls)
            && (!IsSecure(url.scheme) ==> ps[1] == Tcp(80) && ps[2] != Tls)
  {
  }

  /// The path component is left out exactly for the paths `` and `/`.
  lemma PathOmitted(url: Url, parseIp: Utf8 -> Option<IpAddr>)
    requires IsHttpWsScheme(url.scheme) && url.host.Some?
    ensures var ps := HttpWsLayout(url, parseIp);
            (url.path == [] || url.path == [SLASH]) <==> !ps[|ps| - 1].Path?
  {
  }

  /// The lossy mode never reports InformationLoss, and on a URL with
  /// nothing to lose both modes agree.
  lemma LossyModes(text: Utf8, parseUrl: Utf8 -> Option<Url>, parseIp: Utf8 -> Option<IpAddr>)
    ensures FromUrlLossy(text, parseUrl, parseIp) != Err(InformationLoss)
    ensures parseUrl(text).Some? && Lossless(parseUrl(text).value) ==>
              FromUrl(text, parseUrl, parseIp) == FromUrlLossy(text, parseUrl, parseIp)
    ensures FromUrl(text, parseUrl, parseIp) == Err(InformationLoss) ==>
              parseUrl(text).Some? && !Lossless(parseUrl(text).value)
  {
  }

  /// A unix URL is the unix component followed by the whole path.
  lemma UnixResult(url: Url, lossy: bool)
    requires url.scheme == SCHEME_UNIX && (lossy || Lossless(url))
    requires |url.path| < Varint.U64_MODULUS
    ensures var r := FromPath(url, lossy);
            r.Ok? && Valid(r.value) && Components(r.value) == [Unix, Path(url.path)]
  {
    PushComponents(FromProtocol(Unix), Path(url.path));
  }
}
