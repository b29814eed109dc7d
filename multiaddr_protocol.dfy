// One component of a multiaddr (multiaddr/protocol.rs and
// multiaddr/error.rs of volans-core): its binary form, a varint code
// followed by the payload, and its text form, `/tag` followed by `/value`
// for the components that carry one. The text forms of IP addresses and
// the base-58 text of peer ids come from foreign code and are passed in as
// a `TextCodec`.
module MultiaddrProtocol {
  import opened Wrappers
  import opened Bytes
  import Varint
  import Identity
  import PercentEncoding

  const DNS: u32 := 53
  const DNS4: u32 := 54
  const DNS6: u32 := 55
  const HTTP: u32 := 480
  const IP4: u32 := 4
  const IP6: u32 := 41
  const MEMORY: u32 := 777
  const PEER: u32 := 421
  const CIRCUIT: u32 := 290
  const QUIC: u32 := 460
  const TCP: u32 := 6
  const TLS: u32 := 448
  const UDP: u32 := 273
  const UNIX: u32 := 400
  const WS: u32 := 477
  const SNI: u32 := 449
  const PATH: u32 := 481

  /// `Ipv4Addr` as its four octets, `Ipv6Addr` as its eight segments.
  type Octets = s: seq<byte> | |s| == 4 witness [0, 0, 0, 0]
  type Segments = s: seq<u16> | |s| == 8 witness [0, 0, 0, 0, 0, 0, 0, 0]

  datatype Protocol =
    | Dns(name: Utf8)
    | Dns4(name: Utf8)
    | Dns6(name: Utf8)
    | Ip4(octets: Octets)
    | Ip6(segments: Segments)
    | Unix
    | Memory(memory: u64)
    | Tcp(port: u16)
    | Udp(port: u16)
    | Tls
    | Http
    | Ws
    | Quic
    | Peer(peer: Identity.PeerId)
    | Circuit
    | Sni(name: Utf8)
    | Path(name: Utf8)

  /// What a `ParsingError` wraps.
  datatype Cause = Utf8Cause | AddrCause | IntCause | PeerIdCause(err: Identity.Error)

  /// `multiaddr::Error`.
  datatype Error =
    | DataLessThanLen
    | InvalidMultiaddr
    | InvalidProtocol
    | InvalidVarint(err: Varint.DecodeError)
    | ParsingError(cause: Cause)
    | UnknownProtocolId(id: u32)
    | UnknownProtocol(tag: seq<byte>)

  /// The components whose payload is a length-prefixed string.
  predicate Named(p: Protocol) { p.Dns? || p.Dns4? || p.Dns6? || p.Sni? || p.Path? }

  /// The components without a payload.
  predicate Bare(p: Protocol) { p.Unix? || p.Tls? || p.Http? || p.Ws? || p.Quic? || p.Circuit? }

  /// A string payload's length fits the `usize` length prefix, as the
  /// length of every Rust string does.
  predicate WellSized(p: Protocol) { Named(p) ==> |p.name| < Varint.U64_MODULUS }

  function Code(p: Protocol): u32
  {
    match p
    case Dns(_) => DNS
    case Dns4(_) => DNS4
    case Dns6(_) => DNS6
    case Ip4(_) => IP4
    case Ip6(_) => IP6
    case Unix => UNIX
    case Memory(_) => MEMORY
    case Tcp(_) => TCP
    case Udp(_) => UDP
    case Tls => TLS
    case Http => HTTP
    case Ws => WS
    case Quic => QUIC
    case Peer(_) => PEER
    case Circuit => CIRCUIT
    case Sni(_) => SNI
    case Path(_) => PATH
  }

  predicate KnownCode(id: u32)
  {
    id == DNS || id == DNS4 || id == DNS6 || id == IP4 || id == IP6 || id == UNIX
    || id == MEMORY || id == TCP || id == UDP || id == TLS || id == HTTP || id == WS
    || id == QUIC || id == PEER || id == CIRCUIT || id == SNI || id == PATH
  }

  /// Distinct components have distinct codes, and every code is known.
  lemma CodesDistinct(p: Protocol, q: Protocol)
    ensures KnownCode(Code(p))
    ensures Code(p) == Code(q) <==> SameKind(p, q)
  {
  }

  /// The two components are of the same variant.
  predicate SameKind(p: Protocol, q: Protocol)
  {
    (p.Dns? && q.Dns?) || (p.Dns4? && q.Dns4?) || (p.Dns6? && q.Dns6?) || (p.Ip4? && q.Ip4?)
    || (p.Ip6? && q.Ip6?) || (p.Unix? && q.Unix?) || (p.Memory? && q.Memory?) || (p.Tcp? && q.Tcp?)
    || (p.Udp? && q.Udp?) || (p.Tls? && q.Tls?) || (p.Http? && q.Http?) || (p.Ws? && q.Ws?)
    || (p.Quic? && q.Quic?) || (p.Peer? && q.Peer?) || (p.Circuit? && q.Circuit?)
    || (p.Sni? && q.Sni?) || (p.Path? && q.Path?)
  }

  // ---------------------------------------------------------------------
  // Binary form

  /// The eight segments of an IPv6 address, each as two big-endian bytes.
  function Segs(s: seq<u16>): (r: seq<byte>)
    ensures |r| == 2 * |s|
  {
    if s == [] then [] else U16ToBE(s[0]) + Segs(s[1..])
  }

  /// The payload `write_bytes` writes after the code.
  function Payload(p: Protocol): seq<byte>
  {
    match p
    case Dns(s) => Varint.Encode(|s|) + s
    case Dns4(s) => Varint.Encode(|s|) + s
    case Dns6(s) => Varint.Encode(|s|) + s
    case Ip4(a) => a
    case Ip6(segs) => Segs(segs)
    case Memory(n) => U64ToBE(n)
    case Tcp(n) => U16ToBE(n)
    case Udp(n) => U16ToBE(n)
    case Peer(id) => id.bytes
    case Sni(s) => Varint.Encode(|s|) + s
    case Path(s) => Varint.Encode(|s|) + s
    case _ => []
  }

  /// `Protocol::write_bytes`: what it appends to the writer (writing to a
  /// `BytesMut` never fails).
  function WriteBytes(p: Protocol): seq<byte>
  {
    Varint.Encode(Code(p)) + Payload(p)
  }

  /// The inner `split_at` of `from_bytes`.
  function SplitAt(n: nat, input: seq<byte>): (r: Result<(seq<byte>, seq<byte>), Error>)
    ensures r.Ok? <==> |input| >= n
    ensures r.Ok? ==> |r.value.0| == n && r.value.0 + r.value.1 == input
    ensures r.Err? ==> r.error == DataLessThanLen
  {
    if |input| < n then Err(DataLessThanLen) else Ok((input[..n], input[n..]))
  }

  /// A `usize` varint byte length and that many bytes of UTF-8.
  function LengthPrefixed(input: seq<byte>): (r: Result<(Utf8, seq<byte>), Error>)
    ensures r.Ok? ==> |r.value.1| < |input|
  {
    match Varint.DecodeUsize(input)
    case Err(e) => Err(InvalidVarint(e))
    case Ok((n, rest)) =>
      match SplitAt(n, rest)
      case Err(e) => Err(e)
      case Ok((data, rest')) =>
        if ValidUtf8(data) then Ok((data, rest')) else Err(ParsingError(Utf8Cause))
  }

  function NamedOf(id: u32, s: Utf8): (p: Protocol)
    requires IsNamedCode(id)
    ensures Named(p) && Code(p) == id && p.name == s
  {
    if id == DNS then Dns(s)
    else if id == DNS4 then Dns4(s)
    else if id == DNS6 then Dns6(s)
    else if id == SNI then Sni(s)
    else Path(s)
  }

  function BareOf(id: u32): (p: Protocol)
    requires IsBareCode(id)
    ensures Bare(p) && Code(p) == id
  {
    if id == UNIX then Unix
    else if id == TLS then Tls
    else if id == HTTP then Http
    else if id == WS then Ws
    else if id == QUIC then Quic
    else Circuit
  }

  /// The segment at index `i` of sixteen address bytes.
  function Segment(data: seq<byte>, i: nat): u16
    requires |data| == 16 && i < 8
  {
    Pow256Values();
    FromBE(data[2 * i..2 * i + 2])
  }

  function Ip6Of(data: seq<byte>): Segments
    requires |data| == 16
  {
    seq(8, i requires 0 <= i < 8 => Segment(data, i))
  }

  /// The component a fixed-width payload holds.
  function FixedOf(id: u32, data: seq<byte>): Protocol
    requires IsFixedCode(id)
    requires |data| == FixedWidth(id)
  {
    Pow256Values();
    if id == IP4 then Ip4(data)
    else if id == IP6 then Ip6(Ip6Of(data))
    else if id == MEMORY then Memory(FromBE(data))
    else if id == TCP then Tcp(FromBE(data))
    else if id == UDP then Udp(FromBE(data))
    else Peer(Identity.PeerId(data))
  }

  function FixedWidth(id: u32): nat
  {
    if id == IP4 then 4
    else if id == IP6 then 16
    else if id == MEMORY then 8
    else if id == TCP || id == UDP then 2
    else if id == PEER then Identity.PEER_ID_LEN
    else 0
  }

  /// `Protocol::from_bytes`: one component and the rest of the input.
  function FromBytes(input: seq<byte>): (r: Result<(Protocol, seq<byte>), Error>)
    ensures r.Ok? ==> |r.value.1| < |input|
  {
    match Varint.DecodeU32(input)
    case Err(e) => Err(InvalidVarint(e))
    case Ok((id, rest)) => PayloadFromBytes(id, rest)
  }

  /// The arms of `from_bytes` after the code `id` has been read.
  function PayloadFromBytes(id: u32, rest: seq<byte>): (r: Result<(Protocol, seq<byte>), Error>)
    ensures r.Ok? ==> |r.value.1| <= |rest|
  {
    if IsNamedCode(id) then NamedFromBytes(id, rest)
    else if IsFixedCode(id) then FixedFromBytes(id, rest)
    else if IsBareCode(id) then Ok((BareOf(id), rest))
    else Err(UnknownProtocolId(id))
  }

  predicate IsNamedCode(id: u32) { id == DNS || id == DNS4 || id == DNS6 || id == SNI || id == PATH }

  predicate IsFixedCode(id: u32) { id == IP4 || id == IP6 || id == MEMORY || id == TCP || id == UDP || id == PEER }

  predicate IsBareCode(id: u32) { id == UNIX || id == TLS || id == HTTP || id == WS || id == QUIC || id == CIRCUIT }

  function NamedFromBytes(id: u32, rest: seq<byte>): (r: Result<(Protocol, seq<byte>), Error>)
    requires IsNamedCode(id)
    ensures r.Ok? ==> |r.value.1| < |rest|
  {
    match LengthPrefixed(rest)
    case Err(e) => Err(e)
    case Ok((s, rest')) => Ok((NamedOf(id, s), rest'))
  }

  function FixedFromBytes(id: u32, rest: seq<byte>): (r: Result<(Protocol, seq<byte>), Error>)
    requires IsFixedCode(id)
    ensures r.Err? <==> |rest| < FixedWidth(id)
    ensures r.Err? ==> r.error == DataLessThanLen
    ensures r.Ok? ==> r.value.1 == rest[FixedWidth(id)..]
  {
    match SplitAt(FixedWidth(id), rest)
    case Err(e) => Err(e)
    case Ok((data, rest')) => Ok((FixedOf(id, data), rest'))
  }

  /// Every encoding starts with the varint of the component's code.
  lemma EncodingStartsWithCode(p: Protocol)
    ensures var c := Varint.Encode(Code(p));
            |c| <= |WriteBytes(p)| && WriteBytes(p)[..|c|] == c
    ensures Bare(p) ==> WriteBytes(p) == Varint.Encode(Code(p))
  {
  }

  /// The layout of each payload: fixed widths for addresses, ports and peer
  /// ids, a varint length and the bytes for names.
  lemma PayloadLayout(p: Protocol)
    ensures p.Ip4? ==> Payload(p) == p.octets
    ensures p.Ip6? ==> |Payload(p)| == 16 && forall i :: 0 <= i < 8 ==> Payload(p)[2 * i..2 * i + 2] == U16ToBE(p.segments[i])
    ensures p.Memory? ==> |Payload(p)| == 8 && FromBE(Payload(p)) == p.memory
    ensures (p.Tcp? || p.Udp?) ==> |Payload(p)| == 2 && FromBE(Payload(p)) == p.port
    ensures p.Peer? ==> Payload(p) == p.peer.bytes
    ensures Named(p) ==> Payload(p) == Varint.Encode(|p.name|) + p.name
    ensures Bare(p) ==> Payload(p) == []
  {
    if Named(p) {
      NamedPayload(p);
    } else if Bare(p) {
      BarePayload(p);
    } else if p.Ip6? {
      SegsLayout(p.segments);
    }
  }

  lemma NamedPayload(p: Protocol)
    requires Named(p)
    ensures Payload(p) == Varint.Encode(|p.name|) + p.name
  {
  }

  lemma BarePayload(p: Protocol)
    requires Bare(p)
    ensures Payload(p) == []
  {
  }

  lemma {:induction false} SegsLayout(s: seq<u16>)
    ensures forall i :: 0 <= i < |s| ==> Segs(s)[2 * i..2 * i + 2] == U16ToBE(s[i])
  {
    if s != [] {
      SegsLayout(s[1..]);
      var r := Segs(s);
      assert r == U16ToBE(s[0]) + Segs(s[1..]);
      forall i | 0 <= i < |s|
        ensures r[2 * i..2 * i + 2] == U16ToBE(s[i])
      {
        if i > 0 {
          assert r[2 * i..2 * i + 2] == Segs(s[1..])[2 * (i - 1)..2 * (i - 1) + 2];
          assert s[1..][i - 1] == s[i];
        }
      }
    }
  }

  /// Decoding a written component gives it back and leaves the rest.
  lemma FromBytesWriteBytes(p: Protocol, rest: seq<byte>)
    requires WellSized(p)
    ensures FromBytes(WriteBytes(p) + rest) == Ok((p, rest))
  {
    FromBytesOfEncoded(Code(p), Payload(p), rest);
    PayloadRoundTrip(p, rest);
  }

  /// Reading a code written as a varint goes on with that code's arm on
  /// what follows it.
  lemma FromBytesOfEncoded(code: u32, payload: seq<byte>, rest: seq<byte>)
    ensures FromBytes(Varint.Encode(code) + payload + rest) == PayloadFromBytes(code, payload + rest)
  {
    var tail := payload + rest;
    assert Varint.Encode(code) + payload + rest == Varint.Encode(code) + tail;
    Varint.DecodeU32Encode(code, tail);
    FromBytesOfCode(Varint.Encode(code) + tail, code, tail);
  }

  /// After the code, `from_bytes` goes on with the arm for that code.
  lemma FromBytesOfCode(input: seq<byte>, code: u32, tail: seq<byte>)
    requires Varint.DecodeU32(input) == Ok((code, tail))
    ensures FromBytes(input) == PayloadFromBytes(code, tail)
  {
  }

  lemma PayloadRoundTrip(p: Protocol, rest: seq<byte>)
    requires WellSized(p)
    ensures PayloadFromBytes(Code(p), Payload(p) + rest) == Ok((p, rest))
  {
    if Named(p) {
      NamedRoundTrip(p, rest);
      assert NamedOf(Code(p), p.name) == p;
      assert NamedFromBytes(Code(p), Payload(p) + rest) == Ok((p, rest));
    } else if Bare(p) {
      assert Payload(p) + rest == rest;
      assert BareOf(Code(p)) == p;
    } else {
      FixedRoundTrip(p, rest);
      assert FixedFromBytes(Code(p), Payload(p) + rest) == Ok((p, rest));
    }
  }

  lemma NamedRoundTrip(p: Protocol, rest: seq<byte>)
    requires Named(p) && WellSized(p)
    ensures IsNamedCode(Code(p))
    ensures LengthPrefixed(Payload(p) + rest) == Ok((p.name, rest))
  {
    var s := p.name;
    assert Payload(p) + rest == Varint.Encode(|s|) + (s + rest);
    Varint.DecodeUsizeEncode(|s|, s + rest);
    assert (s + rest)[..|s|] == s && (s + rest)[|s|..] == rest;
  }

  lemma FixedRoundTrip(p: Protocol, rest: seq<byte>)
    requires !Named(p) && !Bare(p)
    ensures IsFixedCode(Code(p))
    ensures var width := FixedWidth(Code(p));
            SplitAt(width, Payload(p) + rest) == Ok((Payload(p), rest))
            && FixedOf(Code(p), Payload(p)) == p
  {
    PayloadLayout(p);
    Pow256Values();
    var d := Payload(p);
    assert (d + rest)[..|d|] == d && (d + rest)[|d|..] == rest;
    if p.Ip6? {
      var segs := Ip6Of(d);
      forall i | 0 <= i < 8 ensures segs[i] == p.segments[i] {
        assert d[2 * i..2 * i + 2] == U16ToBE(p.segments[i]);
      }
      assert segs == p.segments;
    }
  }

  /// `from_bytes` reads only the bytes of the component it returns: the
  /// bytes after them can be anything.
  lemma FromBytesFrame(c: seq<byte>, rest: seq<byte>, rest': seq<byte>)
    requires FromBytes(c + rest).Ok? && FromBytes(c + rest).value.1 == rest
    ensures FromBytes(c + rest') == Ok((FromBytes(c + rest).value.0, rest'))
  {
    var input := c + rest;
    var id, t, h := FromBytesHeader(input);
    var d := PayloadFrame(id, t, rest, rest');
    assert c == h + d by {
      assert c + rest == (h + d) + rest;
      CancelRight(c, h + d, rest);
    }
    assert c + rest' == h + (d + rest');
    assert Varint.DecodeU32(h + (d + rest')) == Ok((id, d + rest')) by {
      Varint.DecodeU32Frame(h, t, d + rest', id);
    }
  }

  /// The code at the front of `input`, the bytes `h` it occupies and the
  /// bytes `t` after it.
  lemma FromBytesHeader(input: seq<byte>) returns (id: u32, t: seq<byte>, h: seq<byte>)
    requires FromBytes(input).Ok?
    ensures Varint.DecodeU32(input) == Ok((id, t)) && input == h + t
    ensures FromBytes(input) == PayloadFromBytes(id, t)
  {
    id := Varint.DecodeU32(input).value.0;
    t := Varint.DecodeU32(input).value.1;
    h := input[..|input| - |t|];
    Varint.DecodeSuffix(input);
  }

  lemma CancelRight<T>(a: seq<T>, b: seq<T>, rest: seq<T>)
    requires a + rest == b + rest
    ensures a == b
  {
    assert |a| == |b|;
    assert a == (a + rest)[..|a|] && b == (b + rest)[..|b|];
  }

  /// What `from_bytes` leaves unread is the end of its input.
  lemma FromBytesSuffix(input: seq<byte>)
    requires FromBytes(input).Ok?
    ensures var rest := FromBytes(input).value.1;
            input == input[..|input| - |rest|] + rest
  {
    var rest := FromBytes(input).value.1;
    var id, t, h := FromBytesHeader(input);
    var d := PayloadFrame(id, t, rest, rest);
    assert input == (h + d) + rest;
  }

  /// Bytes after a component do not change how it reads; they are left
  /// over after it.
  lemma FromBytesAppend(x: seq<byte>, y: seq<byte>)
    requires FromBytes(x).Ok?
    ensures FromBytes(x + y) == Ok((FromBytes(x).value.0, FromBytes(x).value.1 + y))
  {
    var rest := FromBytes(x).value.1;
    FromBytesSuffix(x);
    var c := x[..|x| - |rest|];
    FromBytesFrame(c, rest, rest + y);
    assert x + y == c + (rest + y);
  }

  /// The bytes `from_bytes` consumes are one component on their own.
  lemma FromBytesConsumed(input: seq<byte>)
    requires FromBytes(input).Ok?
    ensures var rest := FromBytes(input).value.1;
            var c := input[..|input| - |rest|];
            input == c + rest && FromBytes(c) == Ok((FromBytes(input).value.0, []))
  {
    var rest := FromBytes(input).value.1;
    FromBytesSuffix(input);
    var c := input[..|input| - |rest|];
    FromBytesFrame(c, rest, []);
    assert c + [] == c;
  }

  lemma PayloadFrame(id: u32, t: seq<byte>, rest: seq<byte>, rest': seq<byte>) returns (d: seq<byte>)
    requires PayloadFromBytes(id, t).Ok? && PayloadFromBytes(id, t).value.1 == rest
    ensures t == d + rest
    ensures PayloadFromBytes(id, d + rest') == Ok((PayloadFromBytes(id, t).value.0, rest'))
  {
    if IsNamedCode(id) {
      d := LengthPrefixedFrame(t, rest, rest');
      assert NamedFromBytes(id, d + rest') == Ok((NamedFromBytes(id, t).value.0, rest'));
    } else if IsFixedCode(id) {
      d := t[..FixedWidth(id)];
      assert t == d + rest;
      assert (d + rest')[..|d|] == d && (d + rest')[|d|..] == rest';
      assert FixedFromBytes(id, d + rest') == Ok((FixedFromBytes(id, t).value.0, rest'));
    } else {
      d := [];
      assert t == d + rest && d + rest' == rest';
    }
  }

  /// The length-prefixed string at the front of `t`, the bytes `d` it
  /// occupies, and the same string read in front of other bytes.
  lemma LengthPrefixedFrame(t: seq<byte>, rest: seq<byte>, rest': seq<byte>) returns (d: seq<byte>)
    requires LengthPrefixed(t).Ok? && LengthPrefixed(t).value.1 == rest
    ensures t == d + rest
    ensures LengthPrefixed(d + rest') == Ok((LengthPrefixed(t).value.0, rest'))
  {
    var (n, u) := Varint.DecodeUsize(t).value;
    var g := t[..|t| - |u|];
    Varint.DecodeSuffix(t);
    var data := u[..n];
    assert u == data + rest;
    d := g + data;
    assert t == d + rest;
    Varint.DecodeUsizeFrame(g, u, data + rest', n);
    assert d + rest' == g + (data + rest');
    assert (data + rest')[..n] == data && (data + rest')[n..] == rest';
  }

  /// A fixed-width payload cut short is reported as such.
  lemma ShortPayload(id: u32, data: seq<byte>)
    requires id == IP4 || id == IP6 || id == MEMORY || id == TCP || id == UDP || id == PEER
    requires |data| < FixedWidth(id)
    ensures FromBytes(Varint.Encode(id) + data) == Err(DataLessThanLen)
  {
    Varint.DecodeU32Encode(id, data);
  }

  /// A code no component has is reported with the code.
  lemma UnknownCode(id: u32, data: seq<byte>)
    requires !KnownCode(id)
    ensures FromBytes(Varint.Encode(id) + data) == Err(UnknownProtocolId(id))
  {
    Varint.DecodeU32Encode(id, data);
  }

  // ---------------------------------------------------------------------
  // Text form

  const TAG_DNS: seq<byte> := [0x64, 0x6E, 0x73]
  const TAG_DNS4: seq<byte> := [0x64, 0x6E, 0x73, 0x34]
  const TAG_DNS6: seq<byte> := [0x64, 0x6E, 0x73, 0x36]
  const TAG_HTTP: seq<byte> := [0x68, 0x74, 0x74, 0x70]
  const TAG_IP4: seq<byte> := [0x69, 0x70, 0x34]
  const TAG_IP6: seq<byte> := [0x69, 0x70, 0x36]
  const TAG_MEMORY: seq<byte> := [0x6D, 0x65, 0x6D, 0x6F, 0x72, 0x79]
  const TAG_PEER: seq<byte> := [0x70, 0x65, 0x65, 0x72]
  const TAG_CIRCUIT: seq<byte> := [0x63, 0x69, 0x72, 0x63, 0x75, 0x69, 0x74]
  const TAG_QUIC: seq<byte> := [0x71, 0x75, 0x69, 0x63]
  const TAG_TCP: seq<byte> := [0x74, 0x63, 0x70]
  const TAG_TLS: seq<byte> := [0x74, 0x6C, 0x73]
  const TAG_UDP: seq<byte> := [0x75, 0x64, 0x70]
  const TAG_UNIX: seq<byte> := [0x75, 0x6E, 0x69, 0x78]
  const TAG_WS: seq<byte> := [0x77, 0x73]
  const TAG_SNI: seq<byte> := [0x73, 0x6E, 0x69]
  const TAG_PATH: seq<byte> := [0x78, 0x2D, 0x77, 0x69, 0x74, 0x68, 0x2D, 0x70, 0x61, 0x74, 0x68]

  /// `Protocol::tag`.
  function Tag(p: Protocol): (t: seq<byte>)
    ensures IsAscii(t) && SLASH !in t && t != []
  {
    match p
    case Dns(_) => TAG_DNS
    case Dns4(_) => TAG_DNS4
    case Dns6(_) => TAG_DNS6
    case Http => TAG_HTTP
    case Ip4(_) => TAG_IP4
    case Ip6(_) => TAG_IP6
    case Memory(_) => TAG_MEMORY
    case Peer(_) => TAG_PEER
    case Circuit => TAG_CIRCUIT
    case Quic => TAG_QUIC
    case Tcp(_) => TAG_TCP
    case Tls => TAG_TLS
    case Udp(_) => TAG_UDP
    case Unix => TAG_UNIX
    case Ws => TAG_WS
    case Sni(_) => TAG_SNI
    case Path(_) => TAG_PATH
  }

  /// The text codecs of foreign code: `Ipv4Addr`/`Ipv6Addr` `FromStr` and
  /// `Display`, and base-58.
  datatype TextCodec = TextCodec(
    ip4FromStr: seq<byte> -> Option<Octets>,
    ip4Display: Octets -> seq<byte>,
    ip6FromStr: seq<byte> -> Option<Segments>,
    ip6Display: Segments -> seq<byte>,
    bs58Decode: seq<byte> -> Option<seq<byte>>,
    bs58Encode: seq<byte> -> seq<byte>)

  /// The text of a component's value, as `Display` writes it after the
  /// tag (nothing for the components without one).
  function ValueText(p: Protocol, codec: TextCodec): seq<byte>
  {
    match p
    case Dns(s) => s
    case Dns4(s) => s
    case Dns6(s) => s
    case Ip4(a) => codec.ip4Display(a)
    case Ip6(a) => codec.ip6Display(a)
    case Memory(n) => Decimal(n)
    case Peer(id) => Identity.ToBase58(id, codec.bs58Encode)
    case Tcp(n) => Decimal(n)
    case Udp(n) => Decimal(n)
    case Sni(s) => s
    case Path(s) => PercentEncoding.Encode(s)
    case _ => []
  }

  /// `Display for Protocol`.
  function Display(p: Protocol, codec: TextCodec): (r: seq<byte>)
    ensures |r| > 0 && r[0] == SLASH
  {
    [SLASH] + Tag(p) + (if Bare(p) then [] else [SLASH] + ValueText(p, codec))
  }

  /// `Protocol::from_str_parts`: the component that the next one or two
  /// parts of a `/`-split text spell, and the parts after it.
  function FromStrParts(parts: seq<Utf8>, codec: TextCodec): (r: Result<(Protocol, seq<Utf8>), Error>)
    ensures r.Ok? ==> |r.value.1| < |parts| && r.value.1 == parts[|parts| - |r.value.1|..]
  {
    if parts == [] then Err(InvalidProtocol)
    else
      var tag := parts[0];
      var rest := parts[1..];
      if tag == TAG_UNIX then Ok((Unix, rest))
      else if tag == TAG_TLS then Ok((Tls, rest))
      else if tag == TAG_HTTP then Ok((Http, rest))
      else if tag == TAG_WS then Ok((Ws, rest))
      else if tag == TAG_QUIC then Ok((Quic, rest))
      else if tag == TAG_CIRCUIT then Ok((Circuit, rest))
      else if !(tag == TAG_DNS || tag == TAG_DNS4 || tag == TAG_DNS6 || tag == TAG_IP4 || tag == TAG_IP6
                || tag == TAG_MEMORY || tag == TAG_TCP || tag == TAG_UDP || tag == TAG_PEER
                || tag == TAG_SNI || tag == TAG_PATH) then
        Err(UnknownProtocol(tag))
      else if rest == [] then Err(InvalidProtocol)
      else
        var s := rest[0];
        var rest' := rest[1..];
        match ValuedFromStr(tag, s, codec)
        case Err(e) => Err(e)
        case Ok(p) => Ok((p, rest'))
  }

  /// The valued component with tag `tag` and value text `s`.
  function ValuedFromStr(tag: seq<byte>, s: Utf8, codec: TextCodec): Result<Protocol, Error>
  {
    if tag == TAG_DNS then Ok(Dns(s))
    else if tag == TAG_DNS4 then Ok(Dns4(s))
    else if tag == TAG_DNS6 then Ok(Dns6(s))
    else if tag == TAG_IP4 then
      match codec.ip4FromStr(s)
      case None => Err(ParsingError(AddrCause))
      case Some(a) => Ok(Ip4(a))
    else if tag == TAG_IP6 then
      match codec.ip6FromStr(s)
      case None => Err(ParsingError(AddrCause))
      case Some(a) => Ok(Ip6(a))
    else if tag == TAG_MEMORY then
      match ParseUnsigned(s, Varint.U64_MODULUS)
      case None => Err(ParsingError(IntCause))
      case Some(n) => Ok(Memory(n))
    else if tag == TAG_TCP then
      match ParseUnsigned(s, 0x1_0000)
      case None => Err(ParsingError(IntCause))
      case Some(n) => Ok(Tcp(n))
    else if tag == TAG_UDP then
      match ParseUnsigned(s, 0x1_0000)
      case None => Err(ParsingError(IntCause))
      case Some(n) => Ok(Udp(n))
    else if tag == TAG_PEER then
      match Identity.FromStr(s, codec.bs58Decode)
      case Err(e) => Err(ParsingError(PeerIdCause(e)))
      case Ok(id) => Ok(Peer(id))
    else if tag == TAG_SNI then Ok(Sni(s))
    else
      var decoded := PercentEncoding.Decode(s);
      if ValidUtf8(decoded) then Ok(Path(decoded)) else Err(ParsingError(Utf8Cause))
  }

  /// The foreign text codecs read back what they write, and write ASCII
  /// without `/`.
  ghost predicate Lawful(codec: TextCodec)
  {
    (forall a: Octets :: codec.ip4FromStr(codec.ip4Display(a)) == Some(a))
    && (forall a: Octets :: IsAscii(codec.ip4Display(a)) && SLASH !in codec.ip4Display(a))
    && (forall a: Segments :: codec.ip6FromStr(codec.ip6Display(a)) == Some(a))
    && (forall a: Segments :: IsAscii(codec.ip6Display(a)) && SLASH !in codec.ip6Display(a))
    && (forall b: seq<byte> :: codec.bs58Decode(codec.bs58Encode(b)) == Some(b))
    && (forall b: seq<byte> :: IsAscii(codec.bs58Encode(b)) && SLASH !in codec.bs58Encode(b))
  }

  /// A component whose value text can be split back out of its `Display`:
  /// a name without `/`.
  predicate Printable(p: Protocol) { (Named(p) && !p.Path?) ==> SLASH !in p.name }

  /// The value text is a string without `/` for a printable component.
  lemma ValueTextIsPart(p: Protocol, codec: TextCodec)
    requires Lawful(codec) && Printable(p)
    ensures ValidUtf8(ValueText(p, codec)) && SLASH !in ValueText(p, codec)
  {
    match p
    case Ip4(a) => AsciiIsUtf8(codec.ip4Display(a));
    case Ip6(a) => AsciiIsUtf8(codec.ip6Display(a));
    case Memory(n) => DecimalIsAscii(n);
    case Tcp(n) => DecimalIsAscii(n);
    case Udp(n) => DecimalIsAscii(n);
    case Peer(id) => AsciiIsUtf8(codec.bs58Encode(id.bytes));
    case Path(s) => AsciiIsUtf8(PercentEncoding.Encode(s));
    case _ =>
  }

  lemma DecimalIsAscii(n: nat)
    ensures ValidUtf8(Decimal(n)) && SLASH !in Decimal(n)
  {
    var d := Decimal(n);
    assert IsAscii(d) by {
      forall i | 0 <= i < |d| ensures d[i] < 0x80 { assert IsDigit(d[i]); }
    }
    AsciiIsUtf8(d);
  }

  /// The parts that `Display` splits into at `/` after the leading one.
  function Parts(p: Protocol, codec: TextCodec): (r: seq<Utf8>)
    requires Lawful(codec) && Printable(p)
    ensures |r| == (if Bare(p) then 1 else 2) && r[0] == Tag(p)
    ensures !Bare(p) ==> r[1] == ValueText(p, codec)
  {
    ValueTextIsPart(p, codec);
    AsciiIsUtf8(Tag(p));
    var t: Utf8 := Tag(p);
    var v: Utf8 := ValueText(p, codec);
    if Bare(p) then [t] else [t, v]
  }

  /// Text round trip of one component: the parts of its `Display` parse
  /// back to it, leaving the parts after them.
  lemma FromStrPartsOfDisplay(p: Protocol, codec: TextCodec, after: seq<Utf8>)
    requires Lawful(codec) && Printable(p)
    ensures FromStrParts(Parts(p, codec) + after, codec) == Ok((p, after))
  {
    var parts := Parts(p, codec) + after;
    if Bare(p) {
      assert Parts(p, codec) == [Tag(p)];
      BarePartsParse(p, parts, after, codec);
    } else {
      ValueTextIsPart(p, codec);
      assert Parts(p, codec) == [Tag(p), ValueText(p, codec)];
      ValuedOfValueText(p, codec);
      ValuedPartsParse(p, ValueText(p, codec), parts, after, codec);
    }
  }

  lemma BarePartsParse(p: Protocol, parts: seq<Utf8>, after: seq<Utf8>, codec: TextCodec)
    requires Bare(p) && parts == [Tag(p)] + after
    ensures FromStrParts(parts, codec) == Ok((p, after))
  {
    assert parts[0] == Tag(p) && parts[1..] == after;
    match p
    case Unix => assert Tag(p) == TAG_UNIX;
    case Tls => assert Tag(p) == TAG_TLS;
    case Http => assert Tag(p) == TAG_HTTP;
    case Ws => assert Tag(p) == TAG_WS;
    case Quic => assert Tag(p) == TAG_QUIC;
    case Circuit => assert Tag(p) == TAG_CIRCUIT;
  }

  lemma ValuedPartsParse(p: Protocol, v: Utf8, parts: seq<Utf8>, after: seq<Utf8>, codec: TextCodec)
    requires !Bare(p) && parts == [Tag(p), v] + after
    requires ValuedFromStr(Tag(p), v, codec) == Ok(p)
    ensures FromStrParts(parts, codec) == Ok((p, after))
  {
    assert parts[0] == Tag(p) && parts[1..][0] == v && parts[1..][1..] == after;
    match p
    case Dns(_) => assert Tag(p) == TAG_DNS;
    case Dns4(_) => assert Tag(p) == TAG_DNS4;
    case Dns6(_) => assert Tag(p) == TAG_DNS6;
    case Ip4(_) => assert Tag(p) == TAG_IP4;
    case Ip6(_) => assert Tag(p) == TAG_IP6;
    case Memory(_) => assert Tag(p) == TAG_MEMORY;
    case Tcp(_) => assert Tag(p) == TAG_TCP;
    case Udp(_) => assert Tag(p) == TAG_UDP;
    case Peer(_) => assert Tag(p) == TAG_PEER;
    case Sni(_) => assert Tag(p) == TAG_SNI;
    case Path(_) => assert Tag(p) == TAG_PATH;
  }

  lemma ValuedOfValueText(p: Protocol, codec: TextCodec)
    requires Lawful(codec) && Printable(p) && !Bare(p)
    requires ValidUtf8(ValueText(p, codec))
    ensures ValuedFromStr(Tag(p), ValueText(p, codec), codec) == Ok(p)
  {
    match p
    case Dns(s) => assert Tag(p) == TAG_DNS && ValueText(p, codec) == s;
    case Dns4(s) => assert Tag(p) == TAG_DNS4 && ValueText(p, codec) == s;
    case Dns6(s) => assert Tag(p) == TAG_DNS6 && ValueText(p, codec) == s;
    case Ip4(a) => assert Tag(p) == TAG_IP4 && ValueText(p, codec) == codec.ip4Display(a);
    case Ip6(a) => assert Tag(p) == TAG_IP6 && ValueText(p, codec) == codec.ip6Display(a);
    case Memory(n) =>
      assert Tag(p) == TAG_MEMORY && ValueText(p, codec) == Decimal(n);
      ParseDecimal(n, Varint.U64_MODULUS);
    case Tcp(n) =>
      assert Tag(p) == TAG_TCP && ValueText(p, codec) == Decimal(n);
      ParseDecimal(n, 0x1_0000);
    case Udp(n) =>
      assert Tag(p) == TAG_UDP && ValueText(p, codec) == Decimal(n);
      ParseDecimal(n, 0x1_0000);
    case Peer(id) =>
      assert Tag(p) == TAG_PEER && ValueText(p, codec) == Identity.ToBase58(id, codec.bs58Encode);
      Identity.FromStrOfDisplay(id, codec.bs58Encode, codec.bs58Decode);
    case Sni(s) => assert Tag(p) == TAG_SNI && ValueText(p, codec) == s;
    case Path(s) =>
      assert Tag(p) == TAG_PATH && ValueText(p, codec) == PercentEncoding.Encode(s);
      PercentEncoding.DecodeEncode(s);
    case _ =>
  }

  /// The text parser's error cases: no parts, a valued tag with nothing
  /// after it, and a tag no component has.
  lemma FromStrPartsErrors(tag: Utf8, codec: TextCodec)
    ensures FromStrParts([], codec) == Err(InvalidProtocol)
    ensures (tag == TAG_DNS || tag == TAG_IP4 || tag == TAG_TCP || tag == TAG_PEER || tag == TAG_PATH)
              ==> FromStrParts([tag], codec) == Err(InvalidProtocol)
    ensures !KnownTag(tag) ==> FromStrParts([tag], codec) == Err(UnknownProtocol(tag))
  {
  }

  predicate KnownTag(t: seq<byte>)
  {
    t == TAG_DNS || t == TAG_DNS4 || t == TAG_DNS6 || t == TAG_HTTP || t == TAG_IP4 || t == TAG_IP6
    || t == TAG_MEMORY || t == TAG_PEER || t == TAG_CIRCUIT || t == TAG_QUIC || t == TAG_TCP
    || t == TAG_TLS || t == TAG_UDP || t == TAG_UNIX || t == TAG_WS || t == TAG_SNI || t == TAG_PATH
  }

  // ---------------------------------------------------------------------
  // IP addresses

  /// `std::net::IpAddr`: four octets or eight 16-bit segments.
  datatype IpAddr = V4(octets: Octets) | V6(segments: Segments)

  /// `From<IpAddr> for Protocol`.
  function FromIp(ip: IpAddr): (p: Protocol)
    ensures ip.V4? <==> p.Ip4?
    ensures ip.V4? ==> p.octets == ip.octets
    ensures ip.V6? ==> p == Ip6(ip.segments)
  {
    match ip
    case V4(a) => Ip4(a)
    case V6(a) => Ip6(a)
  }
}
