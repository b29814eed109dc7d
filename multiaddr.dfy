// Multiaddresses (multiaddr.rs of volans-core): a multiaddr is the byte
// string of its components written one after another. It is a value
// here: the source keeps the bytes in a shared copy-on-write buffer, so
// `push`, `pop` and `with` give the caller a new byte string and leave
// every other holder of the old one untouched.
module Multiaddrs {
  import opened Wrappers
  import opened Bytes
  import Identity
  import opened MultiaddrProtocol

  datatype Multiaddr = Multiaddr(bytes: seq<byte>)

  // ---------------------------------------------------------------------
  // The binary form

  /// The components `bytes` spells, or the first error `from_bytes`
  /// reports when reading them one after another.
  function Parse(bytes: seq<byte>): (r: Result<seq<Protocol>, Error>)
    decreases |bytes|
  {
    if bytes == [] then Ok([])
    else
      match FromBytes(bytes)
      case Err(e) => Err(e)
      case Ok((p, rest)) =>
        match Parse(rest)
        case Err(e) => Err(e)
        case Ok(ps) => Ok([p] + ps)
  }

  /// The bytes are components all the way through.
  predicate Valid(m: Multiaddr) { Parse(m.bytes).Ok? }

  function Components(m: Multiaddr): seq<Protocol>
    requires Valid(m)
  {
    Parse(m.bytes).value
  }

  /// The components written one after another.
  function Encoding(ps: seq<Protocol>): seq<byte>
  {
    if ps == [] then [] else WriteBytes(ps[0]) + Encoding(ps[1..])
  }

  predicate AllWellSized(ps: seq<Protocol>) { forall i :: 0 <= i < |ps| ==> WellSized(ps[i]) }

  /// Reading written components gives them back.
  lemma {:induction false} ParseEncoding(ps: seq<Protocol>)
    requires AllWellSized(ps)
    ensures Parse(Encoding(ps)) == Ok(ps)
  {
    if ps != [] {
      var tail := Encoding(ps[1..]);
      FromBytesWriteBytes(ps[0], tail);
      assert AllWellSized(ps[1..]) by {
        forall i | 0 <= i < |ps[1..]| ensures WellSized(ps[1..][i]) { assert ps[1..][i] == ps[i + 1]; }
      }
      ParseEncoding(ps[1..]);
      assert WriteBytes(ps[0]) + tail != [];
      assert ps == [ps[0]] + ps[1..];
    }
  }

  lemma {:induction false} EncodingAppend(ps: seq<Protocol>, qs: seq<Protocol>)
    ensures Encoding(ps + qs) == Encoding(ps) + Encoding(qs)
  {
    if ps == [] {
      assert ps + qs == qs;
    } else {
      assert (ps + qs)[1..] == ps[1..] + qs;
      EncodingAppend(ps[1..], qs);
    }
  }

  lemma EncodingSnoc(ps: seq<Protocol>, i: nat)
    requires i < |ps|
    ensures Encoding(ps[..i + 1]) == Encoding(ps[..i]) + WriteBytes(ps[i])
  {
    assert ps[..i + 1] == ps[..i] + [ps[i]];
    EncodingAppend(ps[..i], [ps[i]]);
    assert Encoding([ps[i]]) == WriteBytes(ps[i]) + Encoding([]);
  }

  /// Appending the bytes of one more component appends that component.
  lemma {:induction false} ParseAppend(x: seq<byte>, c: seq<byte>, p: Protocol)
    requires Parse(x).Ok? && FromBytes(c) == Ok((p, []))
    ensures Parse(x + c) == Ok(Parse(x).value + [p])
    decreases |x|
  {
    if x == [] {
      assert x + c == c && c != [];
      assert Parse(c) == Ok([p] + Parse([]).value);
      assert [p] + [] == [p] == Parse(x).value + [p];
      assert Parse(x + c) == Ok([p]);
    } else {
      var q := FromBytes(x).value.0;
      var x' := FromBytes(x).value.1;
      FromBytesAppend(x, c);
      var ps' := Parse(x').value;
      assert Parse(x) == Ok([q] + ps');
      ParseAppend(x', c, p);
      assert x + c != [];
      assert Parse(x + c) == Ok([q] + (ps' + [p]));
      assert [q] + (ps' + [p]) == ([q] + ps') + [p];
    }
  }

  /// The pieces of one more component: appending it keeps the prefix and
  /// adds it after the others.
  lemma PushComponents(m: Multiaddr, p: Protocol)
    requires Valid(m) && WellSized(p)
    ensures Valid(Push(m, p)) && Components(Push(m, p)) == Components(m) + [p]
  {
    FromBytesWriteBytes(p, []);
    assert WriteBytes(p) + [] == WriteBytes(p);
    ParseAppend(m.bytes, WriteBytes(p), p);
  }

  /// The bytes after the first `k` components.
  function Rest(bytes: seq<byte>, k: nat): (r: seq<byte>)
    requires Parse(bytes).Ok? && k <= |Parse(bytes).value|
    ensures |r| <= |bytes|
    ensures Parse(r) == Ok(Parse(bytes).value[k..])
    decreases k
  {
    if k == 0 then bytes
    else
      var ps := Parse(bytes).value;
      var tail := FromBytes(bytes).value.1;
      assert ps[k..] == ps[1..][k - 1..];
      Rest(tail, k - 1)
  }

  /// The rest after component `k` is what reading it leaves over.
  lemma {:induction false} RestStep(bytes: seq<byte>, k: nat)
    requires Parse(bytes).Ok? && k < |Parse(bytes).value|
    ensures FromBytes(Rest(bytes, k)).Ok?
    ensures Rest(bytes, k + 1) == FromBytes(Rest(bytes, k)).value.1
    decreases k
  {
    if k > 0 {
      RestStep(FromBytes(bytes).value.1, k - 1);
    }
  }

  /// The bytes of the first `k` components.
  function Head(bytes: seq<byte>, k: nat): seq<byte>
    requires Parse(bytes).Ok? && k <= |Parse(bytes).value|
    decreases k
  {
    if k == 0 then []
    else
      var tail := FromBytes(bytes).value.1;
      bytes[..|bytes| - |tail|] + Head(tail, k - 1)
  }

  /// A component in front of valid bytes is read first.
  lemma ParsePrepend(c: seq<byte>, y: seq<byte>, q: Protocol)
    requires FromBytes(c) == Ok((q, [])) && Parse(y).Ok?
    ensures Parse(c + y) == Ok([q] + Parse(y).value)
  {
    FromBytesAppend(c, y);
    assert [] + y == y;
    assert c + y != [];
  }

  /// `Head` after its first component.
  lemma HeadUnfold(bytes: seq<byte>, k: nat)
    requires Parse(bytes).Ok? && 0 < k <= |Parse(bytes).value|
    ensures var q := FromBytes(bytes).value.0;
            var tail := FromBytes(bytes).value.1;
            Head(bytes, k) == bytes[..|bytes| - |tail|] + Head(tail, k - 1)
            && Rest(bytes, k) == Rest(tail, k - 1)
            && Parse(bytes).value == [q] + Parse(tail).value
  {
  }

  /// The bytes of a first component, put in front of valid bytes.
  lemma ConsumedPrepend(bytes: seq<byte>, h: seq<byte>)
    requires FromBytes(bytes).Ok? && Parse(h).Ok?
    ensures var q := FromBytes(bytes).value.0;
            var tail := FromBytes(bytes).value.1;
            var c := bytes[..|bytes| - |tail|];
            bytes == c + tail && Parse(c + h) == Ok([q] + Parse(h).value)
  {
    var (q, tail) := FromBytes(bytes).value;
    FromBytesConsumed(bytes);
    var c := bytes[..|bytes| - |tail|];
    assert FromBytes(c) == Ok((q, []));
    ParsePrepend(c, h, q);
  }

  /// The first `k` components and the rest make up the bytes.
  lemma {:induction false} HeadRest(bytes: seq<byte>, k: nat)
    requires Parse(bytes).Ok? && k <= |Parse(bytes).value|
    ensures bytes == Head(bytes, k) + Rest(bytes, k)
    decreases k
  {
    if k > 0 {
      var tail := FromBytes(bytes).value.1;
      var c := bytes[..|bytes| - |tail|];
      HeadUnfold(bytes, k);
      HeadRest(tail, k - 1);
      ConsumedPrepend(bytes, []);
      var h := Head(tail, k - 1);
      var r := Rest(tail, k - 1);
      assert bytes == c + (h + r);
      assert c + (h + r) == (c + h) + r;
    }
  }

  /// The first `k` components on their own are valid.
  lemma {:induction false} HeadComponents(bytes: seq<byte>, k: nat)
    requires Parse(bytes).Ok? && k <= |Parse(bytes).value|
    ensures Parse(Head(bytes, k)) == Ok(Parse(bytes).value[..k])
    decreases k
  {
    if k > 0 {
      var tail := FromBytes(bytes).value.1;
      HeadUnfold(bytes, k);
      HeadComponents(tail, k - 1);
      HeadComponentsStep(bytes, k);
    }
  }

  /// The inductive step of `HeadComponents`.
  lemma HeadComponentsStep(bytes: seq<byte>, k: nat)
    requires Parse(bytes).Ok? && 0 < k <= |Parse(bytes).value|
    requires var tail := FromBytes(bytes).value.1;
             Parse(tail).Ok? && k - 1 <= |Parse(tail).value|
             && Parse(Head(tail, k - 1)) == Ok(Parse(tail).value[..k - 1])
    ensures Parse(Head(bytes, k)) == Ok(Parse(bytes).value[..k])
  {
    var ps := Parse(bytes).value;
    var q := FromBytes(bytes).value.0;
    var tail := FromBytes(bytes).value.1;
    var c := bytes[..|bytes| - |tail|];
    HeadUnfold(bytes, k);
    var h := Head(tail, k - 1);
    assert Head(bytes, k) == c + h;
    var qs := Parse(tail).value;
    ConsumedPrepend(bytes, h);
    assert Parse(c + h) == Ok([q] + qs[..k - 1]);
    assert ps == [q] + qs;
    assert [q] + qs[..k - 1] == ps[..k];
  }

  /// After the components of `x` come the bytes that follow `x`.
  lemma {:induction false} RestOfPrefix(x: seq<byte>, y: seq<byte>)
    requires Parse(x).Ok? && Parse(x + y).Ok? && |Parse(x).value| <= |Parse(x + y).value|
    ensures Rest(x + y, |Parse(x).value|) == y
    decreases |x|
  {
    if x == [] {
      assert x + y == y;
    } else {
      var x' := FromBytes(x).value.1;
      FromBytesAppend(x, y);
      RestOfPrefix(x', y);
    }
  }

  // ---------------------------------------------------------------------
  // Building and taking apart

  /// `Multiaddr::empty` (and `with_capacity`, whose capacity is not
  /// observable).
  function Empty(): (r: Multiaddr)
    ensures Valid(r) && Components(r) == []
  {
    Multiaddr([])
  }

  /// `len`.
  function Len(m: Multiaddr): nat { |m.bytes| }

  /// `push` and `with`: the component's bytes appended.
  function Push(m: Multiaddr, p: Protocol): Multiaddr
  {
    Multiaddr(m.bytes + WriteBytes(p))
  }

  /// `From<Protocol>` and the `From` of IP addresses, which go through
  /// the Ip4 or Ip6 component.
  function FromProtocol(p: Protocol): (r: Multiaddr)
    ensures WellSized(p) ==> Valid(r) && Components(r) == [p]
  {
    if WellSized(p) then PushComponents(Empty(), p); Push(Empty(), p)
    else Push(Empty(), p)
  }

  /// `From<IpAddr> for Multiaddr`: the one ip4 or ip6 component.
  function FromIpAddr(ip: IpAddr): (r: Multiaddr)
    ensures Valid(r) && Components(r) == [FromIp(ip)]
  {
    FromProtocol(FromIp(ip))
  }

  /// `protocol_stack`: the tags of the components, in order.
  function ProtocolStack(ps: seq<Protocol>): (r: seq<seq<byte>>)
    ensures |r| == |ps|
    ensures forall i :: 0 <= i < |ps| ==> r[i] == Tag(ps[i])
  {
    if ps == [] then [] else [Tag(ps[0])] + ProtocolStack(ps[1..])
  }

  /// What `pop` computes, as a value: the last component and the
  /// multiaddr made of the bytes before it, or nothing when empty.
  function Popped(m: Multiaddr): (r: Option<(Protocol, Multiaddr)>)
    requires Valid(m)
    ensures r.None? <==> m.bytes == []
    ensures r.Some? ==>
              var ps := Components(m);
              |ps| > 0 && r.value.0 == ps[|ps| - 1]
              && Valid(r.value.1) && Components(r.value.1) == ps[..|ps| - 1]
  {
    if m.bytes == [] then None
    else
      var ps := Components(m);
      HeadComponents(m.bytes, |ps| - 1);
      Some((ps[|ps| - 1], Multiaddr(Head(m.bytes, |ps| - 1))))
  }

  /// On the encoding of well-sized components, the bytes before the
  /// last `k` components are the encoding of the first ones.
  lemma {:induction false} HeadOfEncoding(ps: seq<Protocol>, k: nat)
    requires AllWellSized(ps) && k <= |ps|
    ensures Parse(Encoding(ps)) == Ok(ps)
    ensures Head(Encoding(ps), k) == Encoding(ps[..k])
    decreases k
  {
    ParseEncoding(ps);
    if k > 0 {
      assert AllWellSized(ps[1..]) by {
        forall i | 0 <= i < |ps[1..]| ensures WellSized(ps[1..][i]) { assert ps[1..][i] == ps[i + 1]; }
      }
      HeadOfEncoding(ps[1..], k - 1);
      HeadOfEncodingStep(ps, k);
    }
  }

  /// The inductive step of `HeadOfEncoding`.
  lemma HeadOfEncodingStep(ps: seq<Protocol>, k: nat)
    requires AllWellSized(ps) && 0 < k <= |ps| && Parse(Encoding(ps)) == Ok(ps)
    requires Parse(Encoding(ps[1..])) == Ok(ps[1..])
    requires Head(Encoding(ps[1..]), k - 1) == Encoding(ps[1..][..k - 1])
    ensures Head(Encoding(ps), k) == Encoding(ps[..k])
  {
    var e := Encoding(ps);
    var tail := Encoding(ps[1..]);
    FromBytesWriteBytes(ps[0], tail);
    assert e[..|e| - |tail|] == WriteBytes(ps[0]);
    EncodingPrefixCons(ps, k);
  }

  lemma EncodingPrefixCons(ps: seq<Protocol>, k: nat)
    requires 0 < k <= |ps|
    ensures Encoding(ps) == WriteBytes(ps[0]) + Encoding(ps[1..])
    ensures Encoding(ps[..k]) == WriteBytes(ps[0]) + Encoding(ps[1..][..k - 1])
  {
    assert ps[1..][..k - 1] == ps[..k][1..];
  }

  /// `pop`: the last component and the multiaddr without it. The source
  /// expects the bytes to be valid; that is the precondition.
  method Pop(m: Multiaddr) returns (p: Option<Protocol>, m': Multiaddr)
    requires Valid(m)
    ensures m.bytes == [] ==> p == None && m' == m
    ensures m.bytes != [] ==>
              var ps := Components(m);
              |ps| > 0 && p == Some(ps[|ps| - 1])
              && m'.bytes == Head(m.bytes, |ps| - 1)
              && Valid(m') && Components(m') == ps[..|ps| - 1]
    ensures m.bytes != [] ==> p.Some? && Popped(m) == Some((p.value, m'))
  {
    var slice := m.bytes;
    if slice == [] {
      return None, m;
    }
    ghost var ps := Components(m);
    ghost var k := 0;
    var protocol;
    while true
      invariant k < |ps|
      invariant slice == Rest(m.bytes, k)
      decreases |slice|
    {
      var (q, s) := FromBytes(slice).value;
      if s == [] {
        assert Parse(slice) == Ok([q] + Parse([]).value);
        assert ps[k..] == [q];
        protocol := q;
        break;
      }
      RestStep(m.bytes, k);
      slice := s;
      k := k + 1;
    }
    assert k == |ps| - 1 && protocol == ps[|ps| - 1];
    var remaining := |m.bytes| - |slice|;
    m' := Multiaddr(m.bytes[..remaining]);
    HeadRest(m.bytes, k);
    HeadComponents(m.bytes, k);
    assert m.bytes[..remaining] == Head(m.bytes, k);
    p := Some(protocol);
  }

  /// Popping what was pushed: the component comes back and the rest is
  /// the multiaddr it was pushed on, byte for byte.
  lemma PopOfPush(a: Multiaddr, p: Protocol)
    requires Valid(a) && WellSized(p)
    ensures var m := Push(a, p);
            Valid(m) && m.bytes != []
            && var ps := Components(m);
            ps[|ps| - 1] == p
            && Head(m.bytes, |ps| - 1) == a.bytes
  {
    PushComponents(a, p);
    var m := Push(a, p);
    assert WriteBytes(p) == Varint.Encode(Code(p)) + Payload(p);
    assert |m.bytes| > 0;
    RestOfPrefix(a.bytes, WriteBytes(p));
    HeadRest(m.bytes, |Components(a)|);
    CancelRight(Head(m.bytes, |Components(a)|), a.bytes, WriteBytes(p));
  }

  /// `iter().next()`: nothing once the bytes are used up, otherwise the
  /// first component and the bytes after it.
  function IterNext(rest: seq<byte>): (r: Option<(Protocol, seq<byte>)>)
    requires Parse(rest).Ok?
    ensures r.None? <==> rest == []
    ensures r.Some? ==> Parse(r.value.1).Ok?
                        && Parse(rest).value == [r.value.0] + Parse(r.value.1).value
  {
    if rest == [] then None else Some(FromBytes(rest).value)
  }

  /// `with_peer`: a multiaddr already ending with this peer is kept, one
  /// ending with another peer is handed back as the error, any other gets
  /// the peer appended.
  function WithPeer(m: Multiaddr, peer: Identity.PeerId): (r: Result<Multiaddr, Multiaddr>)
    requires Valid(m)
  {
    var ps := Components(m);
    if ps != [] && ps[|ps| - 1].Peer? then
      if ps[|ps| - 1].peer == peer then Ok(m) else Err(m)
    else Ok(Push(m, Peer(peer)))
  }

  /// What `with_peer` promises: success means the result ends with the
  /// peer and starts with the components before it; failure means the
  /// multiaddr ends with a different peer.
  lemma WithPeerEndsWithPeer(m: Multiaddr, peer: Identity.PeerId)
    requires Valid(m)
    ensures var ps := Components(m);
            var r := WithPeer(m, peer);
            (r.Ok? ==> Valid(r.value)
                       && var qs := Components(r.value);
                       qs != [] && qs[|qs| - 1] == Peer(peer)
                       && (ps == [] || ps[|ps| - 1] != Peer(peer) ==> qs == ps + [Peer(peer)])
                       && (ps != [] && ps[|ps| - 1] == Peer(peer) ==> r.value == m))
            && (r.Err? <==> ps != [] && ps[|ps| - 1].Peer? && ps[|ps| - 1].peer != peer)
            && (r.Err? ==> r.error == m)
  {
    var ps := Components(m);
    if !(ps != [] && ps[|ps| - 1].Peer?) {
      PushComponents(m, Peer(peer));
    }
  }

  /// The result `replace` is specified by: present only when `at` is a
  /// component's index and `replacement` gives a replacement for it.
  function Replaced(ps: seq<Protocol>, at: nat, replacement: Protocol -> Option<Protocol>): Option<Multiaddr>
  {
    if at < |ps| && replacement(ps[at]).Some? then Some(Multiaddr(Encoding(ps[at := replacement(ps[at]).value])))
    else None
  }

  /// `replace`: the components written out again, the one at `at`
  /// swapped for what `replacement` makes of it.
  method Replace(m: Multiaddr, at: nat, replacement: Protocol -> Option<Protocol>) returns (r: Option<Multiaddr>)
    requires Valid(m)
    ensures r == Replaced(Components(m), at, replacement)
  {
    var ps := Components(m);
    ghost var qs := if at < |ps| && replacement(ps[at]).Some? then ps[at := replacement(ps[at]).value] else ps;
    var address := Empty();
    var replaced := false;
    for i := 0 to |ps|
      invariant |qs| == |ps|
      invariant replaced <==> i > at
      invariant replaced ==> at < |ps| && replacement(ps[at]).Some?
      invariant address.bytes == Encoding(qs[..i])
    {
      if i == at {
        var q := replacement(ps[i]);
        if q.Some? {
          PushNext(address, qs, i);
          address := Push(address, q.value);
          replaced := true;
          continue;
        }
        return None;
      }
      PushNext(address, qs, i);
      address := Push(address, ps[i]);
    }
    if replaced {
      assert qs[..|ps|] == qs;
      r := Some(address);
    } else {
      r := None;
    }
  }

  /// Writing out one more component of `qs`.
  lemma PushNext(address: Multiaddr, qs: seq<Protocol>, i: nat)
    requires i < |qs| && address.bytes == Encoding(qs[..i])
    ensures Push(address, qs[i]).bytes == Encoding(qs[..i + 1])
  {
    EncodingSnoc(qs, i);
  }

  /// A replacement changes the component at `at` and no other.
  lemma ReplacedComponents(ps: seq<Protocol>, at: nat, replacement: Protocol -> Option<Protocol>)
    requires AllWellSized(ps)
    requires at < |ps| && replacement(ps[at]).Some? && WellSized(replacement(ps[at]).value)
    ensures var r := Replaced(ps, at, replacement);
            r.Some? && Valid(r.value)
            && |Components(r.value)| == |ps|
            && Components(r.value)[at] == replacement(ps[at]).value
            && forall i :: 0 <= i < |ps| && i != at ==> Components(r.value)[i] == ps[i]
  {
    var qs := ps[at := replacement(ps[at]).value];
    assert AllWellSized(qs) by {
      forall i | 0 <= i < |qs| ensures WellSized(qs[i]) { }
    }
    ParseEncoding(qs);
  }

  /// `ends_with`: `other`'s bytes are the last bytes of `m`.
  function EndsWith(m: Multiaddr, other: Multiaddr): (r: bool)
    ensures r <==> |other.bytes| <= |m.bytes|
                   && forall i :: 0 <= i < |other.bytes| ==> m.bytes[|m.bytes| - |other.bytes| + i] == other.bytes[i]
  {
    var n := |m.bytes|;
    var k := |other.bytes|;
    if n < k then false
    else
      assert |m.bytes[n - k..]| == k;
      m.bytes[n - k..] == other.bytes
  }

  /// `starts_with`: `other`'s bytes are the first bytes of `m`.
  function StartsWith(m: Multiaddr, other: Multiaddr): (r: bool)
    ensures r <==> |other.bytes| <= |m.bytes| && forall i :: 0 <= i < |other.bytes| ==> m.bytes[i] == other.bytes[i]
  {
    var n := |m.bytes|;
    var k := |other.bytes|;
    if n < k then false else m.bytes[..k] == other.bytes
  }

  /// Every multiaddr starts and ends with itself and with the empty one,
  /// a pushed multiaddr starts with the old one and ends with the pushed
  /// component.
  lemma StartsEndsWith(m: Multiaddr, p: Protocol)
    ensures StartsWith(m, m) && EndsWith(m, m)
    ensures StartsWith(m, Empty()) && EndsWith(m, Empty())
    ensures StartsWith(Push(m, p), m)
    ensures EndsWith(Push(m, p), Multiaddr(WriteBytes(p)))
  {
  }

  /// `TryFrom<Vec<u8>>`: the bytes are read component by component and
  /// kept as they are when every component reads.
  method TryFromBytes(v: seq<byte>) returns (r: Result<Multiaddr, Error>)
    ensures Parse(v).Ok? ==> r == Ok(Multiaddr(v))
    ensures Parse(v).Err? ==> r == Err(Parse(v).error)
  {
    var slice := v;
    while slice != []
      invariant Parse(v).Err? <==> Parse(slice).Err?
      invariant Parse(v).Err? ==> Parse(v).error == Parse(slice).error
      decreases |slice|
    {
      var next := FromBytes(slice);
      if next.Err? {
        return Err(next.error);
      }
      slice := next.value.1;
    }
    r := Ok(Multiaddr(v));
  }

  /// `FromIterator<Protocol>`: the components written in order.
  method FromIter(ps: seq<Protocol>) returns (r: Multiaddr)
    ensures r.bytes == Encoding(ps)
    ensures AllWellSized(ps) ==> Valid(r) && Components(r) == ps
  {
    var bytes := [];
    for i := 0 to |ps|
      invariant bytes == Encoding(ps[..i])
    {
      EncodingSnoc(ps, i);
      bytes := bytes + WriteBytes(ps[i]);
    }
    assert ps[..|ps|] == ps;
    r := Multiaddr(bytes);
    if AllWellSized(ps) {
      ParseEncoding(ps);
    }
  }

  // ---------------------------------------------------------------------
  // The text form

  /// The position of the first `/`.
  function IndexOfSlash(s: seq<byte>): (i: nat)
    requires SLASH in s
    ensures i < |s| && s[i] == SLASH && SLASH !in s[..i]
  {
    if s[0] == SLASH then 0
    else
      assert SLASH in s[1..] by { var j :| 0 <= j < |s| && s[j] == SLASH; assert s[1..][j - 1] == SLASH; }
      var i := 1 + IndexOfSlash(s[1..]);
      assert s[..i] == [s[0]] + s[1..][..i - 1];
      i
  }

  /// `split('/')`: the byte strings between the slashes, at least one.
  function SplitBytes(s: seq<byte>): (r: seq<seq<byte>>)
    ensures |r| >= 1
    decreases |s|
  {
    if SLASH !in s then [s]
    else
      var i := IndexOfSlash(s);
      [s[..i]] + SplitBytes(s[i + 1..])
  }

  predicate AllUtf8(b: seq<seq<byte>>) { forall i :: 0 <= i < |b| ==> ValidUtf8(b[i]) }

  lemma AllUtf8Cons(h: seq<byte>, t: seq<seq<byte>>)
    requires ValidUtf8(h) && AllUtf8(t)
    ensures AllUtf8([h] + t)
  {
    forall j | 0 <= j < |[h] + t| ensures ValidUtf8(([h] + t)[j]) {
      if j > 0 {
        assert ([h] + t)[j] == t[j - 1];
      }
    }
  }

  /// Cutting UTF-8 text at `/` leaves UTF-8 text.
  lemma {:induction false} SplitValid(s: seq<byte>)
    requires ValidUtf8(s)
    ensures AllUtf8(SplitBytes(s))
    decreases |s|
  {
    if SLASH in s {
      var i := IndexOfSlash(s);
      assert s == s[..i] + [SLASH] + s[i + 1..];
      Utf8SplitAscii(s[..i], SLASH, s[i + 1..]);
      SplitValid(s[i + 1..]);
      AllUtf8Cons(s[..i], SplitBytes(s[i + 1..]));
    }
  }

  /// The same byte strings, typed as text.
  function AsUtf8Parts(b: seq<seq<byte>>): (r: seq<Utf8>)
    requires AllUtf8(b)
    ensures r == b
  {
    if b == [] then []
    else
      var h: Utf8 := b[0];
      [h] + AsUtf8Parts(b[1..])
  }

  /// `str::split('/')`.
  function Split(s: Utf8): (r: seq<Utf8>)
    ensures r == SplitBytes(s)
  {
    SplitValid(s);
    AsUtf8Parts(SplitBytes(s))
  }

  /// Splitting at the first slash.
  lemma SplitCons(x: seq<byte>, rest: seq<byte>)
    requires SLASH !in x
    ensures SplitBytes(x + [SLASH] + rest) == [x] + SplitBytes(rest)
  {
    var s := x + [SLASH] + rest;
    assert s[|x|] == SLASH;
    assert s[..|x|] == x;
    var i := IndexOfSlash(s);
    assert i == |x|;
    assert s[..i] == x && s[i + 1..] == rest;
  }

  /// The components that the parts spell, or the first error.
  function PartsToComponents(parts: seq<Utf8>, codec: TextCodec): (r: Result<seq<Protocol>, Error>)
    decreases |parts|
  {
    if parts == [] then Ok([])
    else
      match FromStrParts(parts, codec)
      case Err(e) => Err(e)
      case Ok((p, rest)) =>
        match PartsToComponents(rest, codec)
        case Err(e) => Err(e)
        case Ok(ps) => Ok([p] + ps)
  }

  /// What `from_str` is specified by: the text must start with `/`, then
  /// the parts after it spell the components.
  function ParseText(input: Utf8, codec: TextCodec): Result<Multiaddr, Error>
  {
    var parts := Split(input);
    if parts[0] != [] then Err(InvalidMultiaddr)
    else
      match PartsToComponents(parts[1..], codec)
      case Err(e) => Err(e)
      case Ok(ps) => Ok(Multiaddr(Encoding(ps)))
  }

  /// Prepends the components read so far to what the rest gives.
  function Prefixed(acc: seq<Protocol>, r: Result<seq<Protocol>, Error>): Result<seq<Protocol>, Error>
  {
    if r.Ok? then Ok(acc + r.value) else r
  }

  lemma PrefixedEmpty(r: Result<seq<Protocol>, Error>)
    ensures Prefixed([], r) == r
  {
    if r.Ok? {
      assert [] + r.value == r.value;
    }
  }

  lemma PrefixedAssoc(acc: seq<Protocol>, p: Protocol, r: Result<seq<Protocol>, Error>)
    ensures Prefixed(acc, Prefixed([p], r)) == Prefixed(acc + [p], r)
  {
    if r.Ok? {
      assert acc + ([p] + r.value) == (acc + [p]) + r.value;
    }
  }

  /// One step of reading parts.
  lemma PartsStep(parts: seq<Utf8>, codec: TextCodec)
    requires parts != [] && FromStrParts(parts, codec).Ok?
    ensures PartsToComponents(parts, codec)
            == Prefixed([FromStrParts(parts, codec).value.0], PartsToComponents(FromStrParts(parts, codec).value.1, codec))
  {
  }

  /// `FromStr for Multiaddr`.
  method FromStr(input: Utf8, codec: TextCodec) returns (r: Result<Multiaddr, Error>)
    ensures r == ParseText(input, codec)
  {
    var split := Split(input);
    if split[0] != [] {
      return Err(InvalidMultiaddr);
    }
    var parts := split[1..];
    var bytes := [];
    ghost var acc := [];
    PrefixedEmpty(PartsToComponents(parts, codec));
    while parts != []
      invariant PartsToComponents(split[1..], codec) == Prefixed(acc, PartsToComponents(parts, codec))
      invariant bytes == Encoding(acc)
      decreases |parts|
    {
      var next := FromStrParts(parts, codec);
      if next.Err? {
        return Err(next.error);
      }
      var (p, rest) := next.value;
      PartsStep(parts, codec);
      PrefixedAssoc(acc, p, PartsToComponents(rest, codec));
      EncodingAppend(acc, [p]);
      assert Encoding([p]) == WriteBytes(p) + Encoding([]);
      bytes := bytes + WriteBytes(p);
      acc := acc + [p];
      parts := rest;
    }
    assert acc + [] == acc;
    r := Ok(Multiaddr(bytes));
  }

  /// `Display for Multiaddr`: the text of every component in order.
  function DisplayAll(ps: seq<Protocol>, codec: TextCodec): seq<byte>
  {
    if ps == [] then [] else MultiaddrProtocol.Display(ps[0], codec) + DisplayAll(ps[1..], codec)
  }

  function Display(m: Multiaddr, codec: TextCodec): seq<byte>
    requires Valid(m)
  {
    DisplayAll(Components(m), codec)
  }

  predicate AllPrintable(ps: seq<Protocol>) { forall i :: 0 <= i < |ps| ==> Printable(ps[i]) }

  /// The parts of every component in order.
  function AllParts(ps: seq<Protocol>, codec: TextCodec): seq<Utf8>
    requires Lawful(codec) && AllPrintable(ps)
  {
    if ps == [] then []
    else
      assert AllPrintable(ps[1..]) by {
        forall i | 0 <= i < |ps[1..]| ensures Printable(ps[1..][i]) { assert ps[1..][i] == ps[i + 1]; }
      }
      Parts(ps[0], codec) + AllParts(ps[1..], codec)
  }

  /// `Display` text of a component is `/`, the tag and, for a valued one,
  /// `/` and its value.
  lemma DisplayOfParts(p: Protocol, codec: TextCodec)
    requires Lawful(codec) && Printable(p)
    ensures Bare(p) ==> MultiaddrProtocol.Display(p, codec) == [SLASH] + Parts(p, codec)[0]
    ensures !Bare(p) ==> MultiaddrProtocol.Display(p, codec) == [SLASH] + Parts(p, codec)[0] + [SLASH] + Parts(p, codec)[1]
    ensures SLASH !in Parts(p, codec)[0]
    ensures !Bare(p) ==> SLASH !in Parts(p, codec)[1]
  {
    ValueTextIsPart(p, codec);
  }

  /// Parts written each after a `/`.
  function Joined(parts: seq<seq<byte>>): seq<byte>
  {
    if parts == [] then [] else [SLASH] + parts[0] + Joined(parts[1..])
  }

  lemma {:induction false} JoinedAppend(a: seq<seq<byte>>, b: seq<seq<byte>>)
    ensures Joined(a + b) == Joined(a) + Joined(b)
  {
    if a == [] {
      assert a + b == b;
    } else {
      assert (a + b)[1..] == a[1..] + b;
      JoinedAppend(a[1..], b);
    }
  }

  /// Parts without `/`, joined, split back into the same parts.
  lemma {:induction false} SplitJoined(parts: seq<seq<byte>>)
    requires parts != [] && forall i :: 0 <= i < |parts| ==> SLASH !in parts[i]
    ensures |Joined(parts)| > 0 && Joined(parts)[0] == SLASH
    ensures SplitBytes(Joined(parts)[1..]) == parts
  {
    var tail := parts[1..];
    var j := Joined(parts);
    assert j[1..] == parts[0] + Joined(tail);
    assert SLASH !in parts[0];
    if tail == [] {
      assert j[1..] == parts[0];
      assert parts == [parts[0]];
    } else {
      var jt := Joined(tail);
      assert |jt| > 0 && jt[0] == SLASH && SplitBytes(jt[1..]) == tail by {
        NoSlashInTail(parts);
        SplitJoined(tail);
      }
      var rest := jt[1..];
      assert j[1..] == parts[0] + [SLASH] + rest by {
        assert jt == [SLASH] + rest;
      }
      assert SplitBytes(parts[0] + [SLASH] + rest) == [parts[0]] + tail by {
        SplitCons(parts[0], rest);
      }
      assert parts == [parts[0]] + tail;
    }
  }

  lemma NoSlashInTail(parts: seq<seq<byte>>)
    requires parts != [] && forall i :: 0 <= i < |parts| ==> SLASH !in parts[i]
    ensures forall i :: 0 <= i < |parts[1..]| ==> SLASH !in parts[1..][i]
  {
    forall i | 0 <= i < |parts[1..]| ensures SLASH !in parts[1..][i] { assert parts[1..][i] == parts[i + 1]; }
  }

  /// The text of components is their parts joined, and no part holds a
  /// `/`.
  lemma {:induction false} DisplayJoined(ps: seq<Protocol>, codec: TextCodec)
    requires Lawful(codec) && AllPrintable(ps)
    ensures DisplayAll(ps, codec) == Joined(AllParts(ps, codec))
    ensures forall i :: 0 <= i < |AllParts(ps, codec)| ==> SLASH !in AllParts(ps, codec)[i]
  {
    if ps != [] {
      var p := ps[0];
      var qs := ps[1..];
      assert AllPrintable(qs) by {
        forall i | 0 <= i < |qs| ensures Printable(qs[i]) { assert qs[i] == ps[i + 1]; }
      }
      DisplayOfParts(p, codec);
      var parts := Parts(p, codec);
      DisplayJoined(qs, codec);
      var after := AllParts(qs, codec);
      assert AllParts(ps, codec) == parts + after;
      JoinedAppend(parts, after);
      if Bare(p) {
        assert parts == [parts[0]];
        assert Joined(parts) == [SLASH] + parts[0] + Joined([]);
      } else {
        assert parts == [parts[0], parts[1]];
        assert parts[1..] == [parts[1]];
        assert Joined(parts) == [SLASH] + parts[0] + ([SLASH] + parts[1] + Joined([]));
      }
      assert MultiaddrProtocol.Display(p, codec) == Joined(parts);
      forall i | 0 <= i < |parts + after| ensures SLASH !in (parts + after)[i] {
        if i >= |parts| {
          assert (parts + after)[i] == after[i - |parts|];
        }
      }
    }
  }

  /// The text of a component is UTF-8.
  lemma DisplayUtf8(p: Protocol, codec: TextCodec)
    requires Lawful(codec) && Printable(p)
    ensures ValidUtf8(MultiaddrProtocol.Display(p, codec))
  {
    DisplayOfParts(p, codec);
    var parts := Parts(p, codec);
    AsciiIsUtf8([SLASH]);
    Utf8Concat([SLASH], parts[0]);
    if !Bare(p) {
      Utf8Concat([SLASH] + parts[0], [SLASH]);
      Utf8Concat([SLASH] + parts[0] + [SLASH], parts[1]);
    }
  }

  /// The text of components is UTF-8.
  lemma {:induction false} DisplayAllUtf8(ps: seq<Protocol>, codec: TextCodec)
    requires Lawful(codec) && AllPrintable(ps)
    ensures ValidUtf8(DisplayAll(ps, codec))
  {
    if ps != [] {
      assert AllPrintable(ps[1..]) by {
        forall i | 0 <= i < |ps[1..]| ensures Printable(ps[1..][i]) { assert ps[1..][i] == ps[i + 1]; }
      }
      DisplayUtf8(ps[0], codec);
      DisplayAllUtf8(ps[1..], codec);
      Utf8Concat(MultiaddrProtocol.Display(ps[0], codec), DisplayAll(ps[1..], codec));
    }
  }

  /// Reading the parts of displayed components gives the components.
  lemma {:induction false} PartsOfDisplay(ps: seq<Protocol>, codec: TextCodec)
    requires Lawful(codec) && AllPrintable(ps)
    ensures PartsToComponents(AllParts(ps, codec), codec) == Ok(ps)
  {
    if ps != [] {
      var qs := ps[1..];
      assert AllPrintable(qs) by {
        forall i | 0 <= i < |qs| ensures Printable(qs[i]) { assert qs[i] == ps[i + 1]; }
      }
      PartsOfDisplay(qs, codec);
      PartsOfDisplayStep(ps[0], qs, AllParts(qs, codec), codec);
      assert AllParts(ps, codec) == Parts(ps[0], codec) + AllParts(qs, codec);
      assert ps == [ps[0]] + qs;
    }
  }

  /// The parts of one component, read before parts that give `qs`, give
  /// the component and then `qs`.
  lemma PartsOfDisplayStep(p: Protocol, qs: seq<Protocol>, after: seq<Utf8>, codec: TextCodec)
    requires Lawful(codec) && Printable(p) && PartsToComponents(after, codec) == Ok(qs)
    ensures PartsToComponents(Parts(p, codec) + after, codec) == Ok([p] + qs)
  {
    var parts := Parts(p, codec) + after;
    assert FromStrParts(parts, codec) == Ok((p, after)) by {
      FromStrPartsOfDisplay(p, codec, after);
    }
    PartsStep(parts, codec);
  }

  /// Joined parts, none holding a `/`, split into an empty first part and
  /// then the parts.
  lemma SplitOfJoined(parts: seq<seq<byte>>)
    requires parts != [] && forall i :: 0 <= i < |parts| ==> SLASH !in parts[i]
    ensures SplitBytes(Joined(parts)) == [[]] + parts
  {
    var d := Joined(parts);
    assert |d| > 0 && d[0] == SLASH && SplitBytes(d[1..]) == parts by {
      SplitJoined(parts);
    }
    var rest := d[1..];
    assert [] + [SLASH] + rest == d;
    SplitCons([], rest);
  }

  /// The text of components splits into an empty first part and then
  /// their parts.
  lemma SplitOfDisplay(ps: seq<Protocol>, codec: TextCodec)
    requires Lawful(codec) && AllPrintable(ps)
    ensures SplitBytes(DisplayAll(ps, codec)) == [[]] + AllParts(ps, codec)
  {
    if ps == [] {
      assert DisplayAll(ps, codec) == [];
      assert SplitBytes([]) == [[]];
      assert AllParts(ps, codec) == [];
    } else {
      var parts := AllParts(ps, codec);
      assert |parts| >= |Parts(ps[0], codec)| >= 1;
      DisplayJoined(ps, codec);
      SplitOfJoined(parts);
    }
  }

  /// Text round trip: the text of a multiaddr is valid UTF-8 and parses
  /// back to the same multiaddr, for components whose text a lawful codec
  /// can write and read back.
  lemma FromStrOfDisplay(ps: seq<Protocol>, codec: TextCodec)
    requires Lawful(codec) && AllPrintable(ps)
    ensures ValidUtf8(DisplayAll(ps, codec))
    ensures ParseText(DisplayAll(ps, codec), codec) == Ok(Multiaddr(Encoding(ps)))
  {
    DisplayAllUtf8(ps, codec);
    var d: Utf8 := DisplayAll(ps, codec);
    SplitOfDisplay(ps, codec);
    var parts := Split(d);
    assert parts[0] == [] && parts[1..] == AllParts(ps, codec);
    PartsOfDisplay(ps, codec);
  }

  /// A non-empty text without a `/` is refused; the empty text is the
  /// empty multiaddr.
  lemma TextErrors(x: Utf8, codec: TextCodec)
    ensures x != [] && SLASH !in x ==> ParseText(x, codec) == Err(InvalidMultiaddr)
    ensures ParseText([], codec) == Ok(Empty())
  {
    assert SplitBytes([]) == [[]];
  }
}
