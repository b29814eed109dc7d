// The relay ("bridge") transport (protocols/volans-bridge/src/transport.rs):
// reading a relayed address `<relay address>/peer/<relay>/circuit/peer/<dst>`,
// the state of a listener waiting for relayed connections, and the read
// buffer of a relayed connection. The channels to the relay behaviour are
// replaced by their outcomes, passed in as parameters.
module BridgeTransport {
  import opened Wrappers
  import opened Bytes
  import Identity
  import opened MultiaddrProtocol
  import opened Multiaddrs
  import opened Transport
  import Io

  /// `transport::Error`, for the cases this model produces.
  datatype Error =
    | MissingRelayPeerId
    | MissingDstPeerId
    | MultipleCircuit
    | InvalidMultiaddr

  /// `MultiaddrExt::is_circuit`.
  predicate IsCircuit(m: Multiaddr)
    requires Valid(m)
  {
    Circuit in Components(m)
  }

  /// `RelayedMultiaddr`, together with the `before_circuit` flag of the
  /// scan that fills it.
  datatype Relayed = Relayed(
    beforeCircuit: bool,
    relayPeer: Option<Identity.PeerId>,
    relayAddr: Option<Multiaddr>,
    dstPeer: Option<Identity.PeerId>)

  const Start := Relayed(true, None, None, None)

  /// One turn of the loop of `parse_relayed_multiaddr`.
  function Step(s: Relayed, p: Protocol): (r: Result<Relayed, Error>)
  {
    if p == Circuit then
      if s.beforeCircuit then Ok(s.(beforeCircuit := false)) else Err(MultipleCircuit)
    else if p.Peer? then
      if s.beforeCircuit then
        if s.relayPeer.Some? then Err(Error.InvalidMultiaddr) else Ok(s.(relayPeer := Some(p.peer)))
      else
        if s.dstPeer.Some? then Err(Error.InvalidMultiaddr) else Ok(s.(dstPeer := Some(p.peer)))
    else if s.beforeCircuit then
      Ok(s.(relayAddr := Some(Push(if s.relayAddr.Some? then s.relayAddr.value else Empty(), p))))
    else Err(Error.InvalidMultiaddr)
  }

  /// The loop over the components, left to right, stopping at the first
  /// error.
  function Scan(s: Relayed, ps: seq<Protocol>): Result<Relayed, Error>
    decreases |ps|
  {
    if ps == [] then Ok(s)
    else
      var next := Step(s, ps[0]);
      if next.Ok? then Scan(next.value, ps[1..]) else Err(next.error)
  }

  /// Scanning `[p] + rest` is one step, then the scan of `rest`.
  lemma ScanCons(s: Relayed, p: Protocol, rest: seq<Protocol>)
    ensures Scan(s, [p] + rest) == if Step(s, p).Ok? then Scan(Step(s, p).value, rest) else Err(Step(s, p).error)
  {
    assert ([p] + rest)[0] == p && ([p] + rest)[1..] == rest;
  }

  /// `parse_relayed_multiaddr`.
  method ParseRelayedMultiaddr(m: Multiaddr) returns (r: Result<Relayed, TransportError<Error, Multiaddr>>)
    requires Valid(m)
    ensures !IsCircuit(m) ==> r == Err(NotSupported(m))
    ensures IsCircuit(m) ==>
              match Scan(Start, Components(m))
              case Ok(s) => r == Ok(s)
              case Err(e) => r == Err(Other(e))
  {
    if !IsCircuit(m) {
      return Err(NotSupported(m));
    }
    var ps := Components(m);
    var s := Start;
    for i := 0 to |ps|
      invariant Scan(Start, ps) == Scan(s, ps[i..])
    {
      assert ps[i..] == [ps[i]] + ps[i + 1..];
      match Step(s, ps[i]) {
        case Err(e) =>
          return Err(Other(e));
        case Ok(s') =>
          s := s';
      }
    }
    assert ps[|ps|..] == [];
    r := Ok(s);
  }

  // ---------------------------------------------------------------------
  // What the scan accepts and what it reads

  function PeerCount(ps: seq<Protocol>): nat
  {
    if ps == [] then 0 else (if ps[0].Peer? then 1 else 0) + PeerCount(ps[1..])
  }

  /// The components of `ps` other than peers, in order.
  function NonPeers(ps: seq<Protocol>): (r: seq<Protocol>)
    ensures |r| == |ps| - PeerCount(ps)
    ensures forall i :: 0 <= i < |r| ==> !r[i].Peer? && r[i] in ps
    ensures forall c :: c in ps && !c.Peer? ==> c in r
  {
    if ps == [] then [] else (if ps[0].Peer? then [] else [ps[0]]) + NonPeers(ps[1..])
  }

  /// The one peer of `ps`, if any.
  function PeerOf(ps: seq<Protocol>): Option<Identity.PeerId>
  {
    if ps == [] then None else if ps[0].Peer? then Some(ps[0].peer) else PeerOf(ps[1..])
  }

  /// The relay address a list of components adds up to: none for no
  /// components, otherwise their encoding.
  function AddrOf(prior: Option<Multiaddr>, qs: seq<Protocol>): Option<Multiaddr>
  {
    if qs == [] then prior
    else Some(Multiaddr((if prior.Some? then prior.value.bytes else []) + Encoding(qs)))
  }

  /// What scanning the part before the circuit leaves: the peer, if
  /// there is at most one, becomes the relay peer, and every other
  /// component is pushed onto the relay address, in order.
  function Before(s: Relayed, pre: seq<Protocol>): Relayed
  {
    Relayed(true, if s.relayPeer.Some? then s.relayPeer else PeerOf(pre), AddrOf(s.relayAddr, NonPeers(pre)), s.dstPeer)
  }

  lemma {:induction false} ScanBefore(s: Relayed, pre: seq<Protocol>, rest: seq<Protocol>)
    requires s.beforeCircuit && Circuit !in pre
    requires PeerCount(pre) + (if s.relayPeer.Some? then 1 else 0) <= 1
    ensures Scan(s, pre + rest) == Scan(Before(s, pre), rest)
    decreases |pre|
  {
    if pre == [] {
      assert pre + rest == rest;
      assert Before(s, pre) == s;
    } else {
      var p := pre[0];
      assert pre + rest == [p] + (pre[1..] + rest);
      ScanCons(s, p, pre[1..] + rest);
      var s' := Step(s, p).value;
      assert Circuit !in pre[1..];
      ScanBefore(s', pre[1..], rest);
      BeforeStep(s, pre);
    }
  }

  /// The inductive step of `ScanBefore`.
  lemma BeforeStep(s: Relayed, pre: seq<Protocol>)
    requires s.beforeCircuit && pre != [] && pre[0] != Circuit
    requires PeerCount(pre) + (if s.relayPeer.Some? then 1 else 0) <= 1
    ensures Step(s, pre[0]).Ok? && Before(Step(s, pre[0]).value, pre[1..]) == Before(s, pre)
  {
    if pre[0].Peer? {
      BeforePeerStep(s, pre);
    } else {
      BeforeOtherStep(s, pre);
    }
  }

  lemma BeforePeerStep(s: Relayed, pre: seq<Protocol>)
    requires s.beforeCircuit && pre != [] && pre[0].Peer? && s.relayPeer.None?
    ensures Step(s, pre[0]) == Ok(s.(relayPeer := Some(pre[0].peer)))
    ensures Before(s.(relayPeer := Some(pre[0].peer)), pre[1..]) == Before(s, pre)
  {
    assert PeerOf(pre) == Some(pre[0].peer);
    assert NonPeers(pre) == NonPeers(pre[1..]);
  }

  lemma BeforeOtherStep(s: Relayed, pre: seq<Protocol>)
    requires s.beforeCircuit && pre != [] && !pre[0].Peer? && pre[0] != Circuit
    ensures Step(s, pre[0]).Ok?
    ensures Before(Step(s, pre[0]).value, pre[1..]) == Before(s, pre)
  {
    var p := pre[0];
    StepOther(s, p);
    OtherCons(pre);
    AddrOfCons(s.relayAddr, p, NonPeers(pre[1..]));
  }

  lemma StepOther(s: Relayed, p: Protocol)
    requires s.beforeCircuit && !p.Peer? && p != Circuit
    ensures Step(s, p) == Ok(s.(relayAddr := Some(Push(if s.relayAddr.Some? then s.relayAddr.value else Empty(), p))))
  {
  }

  lemma OtherCons(pre: seq<Protocol>)
    requires pre != [] && !pre[0].Peer?
    ensures PeerOf(pre) == PeerOf(pre[1..])
    ensures NonPeers(pre) == [pre[0]] + NonPeers(pre[1..])
  {
  }

  lemma AddrOfCons(prior: Option<Multiaddr>, p: Protocol, qs: seq<Protocol>)
    ensures AddrOf(Some(Push(if prior.Some? then prior.value else Empty(), p)), qs) == AddrOf(prior, [p] + qs)
  {
    var base := if prior.Some? then prior.value.bytes else [];
    EncodingCons(p, qs);
    if qs != [] {
      AppendAssoc(base, WriteBytes(p), Encoding(qs));
    } else {
      assert Empty().bytes == [];
      assert WriteBytes(p) + [] == WriteBytes(p);
    }
  }

  lemma EncodingCons(p: Protocol, qs: seq<Protocol>)
    ensures Encoding([p] + qs) == WriteBytes(p) + Encoding(qs)
  {
    assert ([p] + qs)[1..] == qs;
  }

  lemma AppendAssoc(a: seq<byte>, b: seq<byte>, c: seq<byte>)
    ensures a + b + c == a + (b + c)
  {
  }

  /// A relayed address is read exactly when it is some components with at
  /// most one peer, the circuit, and at most the destination peer: the
  /// relay peer and the destination are those peers, and the relay
  /// address holds the other components.
  lemma RelayedLayout(pre: seq<Protocol>, post: seq<Protocol>)
    requires Circuit !in pre && PeerCount(pre) <= 1
    requires |post| <= 1 && (post != [] ==> post[0].Peer?)
    ensures Scan(Start, pre + [Circuit] + post)
            == Ok(Relayed(false, PeerOf(pre), AddrOf(None, NonPeers(pre)),
                          if post == [] then None else Some(post[0].peer)))
  {
    assert pre + [Circuit] + post == pre + ([Circuit] + post);
    ScanBefore(Start, pre, [Circuit] + post);
    var s := Before(Start, pre);
    ScanCons(s, Circuit, post);
    if post != [] {
      assert post == [post[0]] + [];
      ScanCons(s.(beforeCircuit := false), post[0], []);
    }
  }

  /// The components of the relay address, when they are well sized.
  lemma RelayAddrComponents(pre: seq<Protocol>)
    requires NonPeers(pre) != [] && AllWellSized(NonPeers(pre))
    ensures AddrOf(None, NonPeers(pre)).Some?
    ensures Valid(AddrOf(None, NonPeers(pre)).value)
    ensures Components(AddrOf(None, NonPeers(pre)).value) == NonPeers(pre)
  {
    ParseEncoding(NonPeers(pre));
    assert [] + Encoding(NonPeers(pre)) == Encoding(NonPeers(pre));
  }

  /// A second peer before the circuit is InvalidMultiaddr, whatever
  /// follows.
  lemma SecondRelayPeerRefused(a: seq<Protocol>, x: Identity.PeerId, b: seq<Protocol>, y: Identity.PeerId, rest: seq<Protocol>)
    requires Circuit !in a && Circuit !in b && PeerCount(a) == 0 && PeerCount(b) == 0
    ensures Scan(Start, a + [Peer(x)] + b + [Peer(y)] + rest) == Err(Error.InvalidMultiaddr)
  {
    var pre := a + [Peer(x)] + b;
    PeerCountAppend(a, [Peer(x)] + b);
    assert PeerCount([Peer(x)] + b) == 1 + PeerCount(b) by {
      assert ([Peer(x)] + b)[1..] == b;
    }
    assert a + [Peer(x)] + b == a + ([Peer(x)] + b);
    assert Circuit !in pre;
    assert a + [Peer(x)] + b + [Peer(y)] + rest == pre + ([Peer(y)] + rest);
    ScanBefore(Start, pre, [Peer(y)] + rest);
    PeerOfSome(pre);
    ScanCons(Before(Start, pre), Peer(y), rest);
  }

  lemma PeerCountAppend(a: seq<Protocol>, b: seq<Protocol>)
    ensures PeerCount(a + b) == PeerCount(a) + PeerCount(b)
  {
    if a != [] {
      assert (a + b)[1..] == a[1..] + b;
      PeerCountAppend(a[1..], b);
    } else {
      assert a + b == b;
    }
  }

  lemma PeerOfSome(ps: seq<Protocol>)
    requires PeerCount(ps) > 0
    ensures PeerOf(ps).Some?
  {
    if !ps[0].Peer? {
      PeerOfSome(ps[1..]);
    }
  }

  /// After the circuit, a component that is not a peer is refused: a
  /// second circuit with MultipleCircuit, anything else with
  /// InvalidMultiaddr; and a second destination peer is refused too.
  lemma AfterCircuitRefused(pre: seq<Protocol>, mid: seq<Protocol>, p: Protocol, rest: seq<Protocol>)
    requires Circuit !in pre && PeerCount(pre) <= 1
    requires |mid| <= 1 && (mid != [] ==> mid[0].Peer?)
    requires !p.Peer? || mid != []
    ensures Scan(Start, pre + [Circuit] + mid + [p] + rest)
            == Err(if p == Circuit then MultipleCircuit else Error.InvalidMultiaddr)
  {
    assert pre + [Circuit] + mid + [p] + rest == pre + ([Circuit] + (mid + ([p] + rest)));
    ScanBefore(Start, pre, [Circuit] + (mid + ([p] + rest)));
    var s := Before(Start, pre);
    ScanCons(s, Circuit, mid + ([p] + rest));
    var s1 := s.(beforeCircuit := false);
    if mid == [] {
      assert mid + ([p] + rest) == [p] + rest;
      ScanCons(s1, p, rest);
    } else {
      assert mid + ([p] + rest) == [mid[0]] + ([p] + rest);
      ScanCons(s1, mid[0], [p] + rest);
      ScanCons(s1.(dstPeer := Some(mid[0].peer)), p, rest);
    }
  }

  /// The usual relayed address: the relay's own address (with no peer and
  /// no circuit in it), the relay peer, the circuit and the destination
  /// peer.
  lemma RelayedAddress(pre: seq<Protocol>, relay: Identity.PeerId, dst: Identity.PeerId)
    requires Circuit !in pre && PeerCount(pre) == 0 && pre != []
    ensures Scan(Start, pre + [Peer(relay), Circuit, Peer(dst)])
            == Ok(Relayed(false, Some(relay), Some(Multiaddr(Encoding(pre))), Some(dst)))
  {
    var tail := [Peer(relay), Circuit, Peer(dst)];
    ScanBefore(Start, pre, tail);
    var s0 := Before(Start, pre);
    FirstRelayState(pre);
    var s1 := s0.(relayPeer := Some(relay));
    var s2 := s1.(beforeCircuit := false);
    var s3 := s2.(dstPeer := Some(dst));
    ScanCons(s0, Peer(relay), tail[1..]);
    ScanCons(s1, Circuit, tail[2..]);
    ScanCons(s2, Peer(dst), []);
    assert tail == [Peer(relay)] + tail[1..];
    assert tail[1..] == [Circuit] + tail[2..];
    assert tail[2..] == [Peer(dst)] + [];
  }

  lemma FirstRelayState(pre: seq<Protocol>)
    requires PeerCount(pre) == 0 && pre != []
    ensures Before(Start, pre) == Relayed(true, None, Some(Multiaddr(Encoding(pre))), None)
  {
    NoPeers(pre);
    PeerOfNone(pre);
    assert [] + Encoding(pre) == Encoding(pre);
  }

  lemma PeerOfNone(ps: seq<Protocol>)
    requires PeerCount(ps) == 0
    ensures PeerOf(ps).None?
  {
    if ps != [] {
      PeerOfNone(ps[1..]);
    }
  }

  // ---------------------------------------------------------------------
  // Dialling and listening

  /// What `dial` sends to the relay behaviour.
  datatype DialRequest = DialRequest(relayAddr: Multiaddr, relayPeer: Identity.PeerId, dstPeer: Identity.PeerId)

  /// `dial`: the relay peer, the destination peer and a relay address are
  /// all required, checked in that order.
  method Dial(m: Multiaddr) returns (r: Result<DialRequest, TransportError<Error, Multiaddr>>)
    requires Valid(m)
    ensures !IsCircuit(m) ==> r == Err(NotSupported(m))
    ensures IsCircuit(m) && Scan(Start, Components(m)).Err? ==> r == Err(Other(Scan(Start, Components(m)).error))
    ensures IsCircuit(m) && Scan(Start, Components(m)).Ok? ==>
              var s := Scan(Start, Components(m)).value;
              r == (if s.relayPeer.None? then Err(Other(MissingRelayPeerId))
                    else if s.dstPeer.None? then Err(Other(MissingDstPeerId))
                    else if s.relayAddr.None? then Err(Other(Error.InvalidMultiaddr))
                    else Ok(DialRequest(s.relayAddr.value, s.relayPeer.value, s.dstPeer.value)))
  {
    var parsed := ParseRelayedMultiaddr(m);
    if parsed.Err? {
      return Err(parsed.error);
    }
    var s := parsed.value;
    if s.relayPeer.None? {
      return Err(Other(MissingRelayPeerId));
    }
    if s.dstPeer.None? {
      return Err(Other(MissingDstPeerId));
    }
    if s.relayAddr.None? {
      return Err(Other(Error.InvalidMultiaddr));
    }
    r := Ok(DialRequest(s.relayAddr.value, s.relayPeer.value, s.dstPeer.value));
  }

  /// Order is kept: the kept components of two runs of components are
  /// those of the first followed by those of the second.
  lemma {:induction false} NonPeersAppend(a: seq<Protocol>, b: seq<Protocol>)
    ensures NonPeers(a + b) == NonPeers(a) + NonPeers(b)
  {
    if a != [] {
      assert (a + b)[1..] == a[1..] + b;
      NonPeersAppend(a[1..], b);
    } else {
      assert a + b == b;
    }
  }

  lemma PeerOfAppend(a: seq<Protocol>, b: seq<Protocol>)
    requires PeerCount(a) == 0
    ensures PeerOf(a + b) == PeerOf(b)
  {
    if a != [] {
      assert (a + b)[1..] == a[1..] + b;
      PeerOfAppend(a[1..], b);
    } else {
      assert a + b == b;
    }
  }

  lemma NoPeers(ps: seq<Protocol>)
    requires PeerCount(ps) == 0
    ensures NonPeers(ps) == ps
  {
    if ps != [] {
      NoPeers(ps[1..]);
    }
  }

  // ---------------------------------------------------------------------
  // The listener

  /// A relayed connection handed over by the relay behaviour.
  datatype IncomingRelayed<C> = IncomingRelayed(stream: C, srcPeer: Identity.PeerId, relayPeer: Identity.PeerId, relayAddr: Multiaddr)

  /// The upgrade of an incoming relayed connection, which is ready with
  /// the stream.
  type Event<C> = ListenerEvent<C, Error, Multiaddr>

  /// `ListenerBackend`: the listener of one circuit address.
  class ListenerBackend<C> {
    const localAddr: Multiaddr
    var pendingRequest: bool
    var closed: bool
    var pendingEvents: seq<Event<C>>

    /// The listener `listen` makes: it still has its listen request to
    /// send.
    constructor (addr: Multiaddr)
      ensures localAddr == addr && pendingRequest && !closed && pendingEvents == []
    {
      localAddr := addr;
      pendingRequest := true;
      closed := false;
      pendingEvents := [];
    }

    /// `poll_event`, given whether the channel to the behaviour is ready
    /// and what polling the incoming channel gives.
    method PollEvent(senderReady: bool, incoming: Poll<Option<IncomingRelayed<C>>>) returns (r: Poll<Event<C>>)
      modifies this
      ensures old(pendingEvents) != [] ==>
                r == Ready(old(pendingEvents)[0]) && pendingEvents == old(pendingEvents)[1..]
                && closed == old(closed) && pendingRequest == old(pendingRequest)
      ensures old(pendingEvents) == [] && old(closed) ==>
                r == Ready(Closed(Ok(()))) && pendingEvents == [] && closed && pendingRequest == old(pendingRequest)
      ensures old(pendingEvents) == [] && !old(closed) && old(pendingRequest) && senderReady ==>
                r == Ready(NewAddress(localAddr)) && !pendingRequest && pendingEvents == [] && !closed
      ensures old(pendingEvents) == [] && !old(closed) && !(old(pendingRequest) && senderReady) ==>
                pendingRequest == old(pendingRequest) && pendingEvents == []
                && match incoming
                   case Ready(Some(c)) =>
                     r == Ready(Incoming(Push(c.relayAddr, Circuit), FromProtocol(Peer(c.srcPeer)), c.stream)) && !closed
                   case Ready(None) => r == Ready(Closed(Ok(()))) && closed
                   case Pending => r == Pending && !closed
      ensures pendingRequest ==> old(pendingRequest)
    {
      while true
        invariant pendingRequest ==> old(pendingRequest)
        invariant old(pendingEvents) != [] ==> pendingEvents == old(pendingEvents) && closed == old(closed) && pendingRequest == old(pendingRequest)
        invariant old(pendingEvents) == [] && old(closed) ==> pendingEvents == [] && closed && pendingRequest == old(pendingRequest)
        invariant old(pendingEvents) == [] && !old(closed) && old(pendingRequest) && senderReady ==>
                    (pendingEvents == [] && !closed && pendingRequest)
                    || (pendingEvents == [NewAddress(localAddr)] && !closed && !pendingRequest)
        invariant old(pendingEvents) == [] && !old(closed) && !(old(pendingRequest) && senderReady) ==>
                    pendingRequest == old(pendingRequest)
                    && ((pendingEvents == [] && !closed)
                        || (incoming.Ready? && incoming.value.Some? && !closed
                            && pendingEvents == [Incoming(Push(incoming.value.value.relayAddr, Circuit),
                                                          FromProtocol(Peer(incoming.value.value.srcPeer)),
                                                          incoming.value.value.stream)])
                        || (incoming == Ready(None) && closed && pendingEvents == [Closed(Ok(()))]))
        decreases if pendingEvents == [] then 1 else 0
      {
        if pendingEvents != [] {
          r := Ready(pendingEvents[0]);
          pendingEvents := pendingEvents[1..];
          return;
        }
        if closed {
          return Ready(Closed(Ok(())));
        }
        if pendingRequest && senderReady {
          pendingRequest := false;
          pendingEvents := pendingEvents + [NewAddress(localAddr)];
          continue;
        }
        match incoming {
          case Ready(Some(c)) =>
            pendingEvents := pendingEvents + [Incoming(Push(c.relayAddr, Circuit), FromProtocol(Peer(c.srcPeer)), c.stream)];
          case Ready(None) =>
            pendingEvents := pendingEvents + [Closed(Ok(()))];
            closed := true;
          case Pending =>
            return Pending;
        }
      }
    }

    /// `poll_close`: queues the Closed event and marks the listener
    /// closed.
    method PollClose() returns (r: Poll<Result<(), Error>>)
      modifies this
      ensures r == Ready(Ok(()))
      ensures pendingEvents == old(pendingEvents) + [Closed(Ok(()))] && closed
      ensures pendingRequest == old(pendingRequest)
    {
      pendingEvents := pendingEvents + [Closed(Ok(()))];
      closed := true;
      r := Ready(Ok(()));
    }
  }

  /// `listen`: only an address with a circuit component is listened on;
  /// any other is refused as not supported and handed back.
  method Listen<C>(addr: Multiaddr) returns (r: Result<ListenerBackend<C>, TransportError<Error, Multiaddr>>)
    requires Valid(addr)
    ensures !IsCircuit(addr) ==> r == Err(NotSupported(addr))
    ensures IsCircuit(addr) ==>
              r.Ok? && fresh(r.value) && r.value.localAddr == addr
              && r.value.pendingRequest && !r.value.closed && r.value.pendingEvents == []
  {
    if !IsCircuit(addr) {
      return Err(NotSupported(addr));
    }
    var l := new ListenerBackend(addr);
    r := Ok(l);
  }

  /// Once closed and drained, the listener reports Closed on every poll
  /// and stays as it is.
  method ClosedStaysClosed<C>(l: ListenerBackend<C>, senderReady: bool, incoming: Poll<Option<IncomingRelayed<C>>>) returns (r: Poll<Event<C>>)
    requires l.closed && l.pendingEvents == []
    modifies l
    ensures r == Ready(Closed(Ok(()))) && l.closed && l.pendingEvents == []
  {
    r := l.PollEvent(senderReady, incoming);
  }

  // ---------------------------------------------------------------------
  // A relayed connection

  /// `Connection`: accepting the circuit, or accepted with the bytes the
  /// relay had already read and the substream.
  class Connection {
    var accepted: bool
    var readBuffer: seq<byte>

    constructor Accepting()
      ensures !accepted && readBuffer == []
    {
      accepted := false;
      readBuffer := [];
    }

    constructor Accepted(buffer: seq<byte>)
      ensures accepted && readBuffer == buffer
    {
      accepted := true;
      readBuffer := buffer;
    }

    /// The first part of every poll: an accepting connection polls the
    /// accept future, which gives the initial read buffer when done.
    method Accept(accept: Poll<Result<seq<byte>, Io.IoError>>) returns (r: Option<Poll<Result<(), Io.IoError>>>)
      modifies this
      ensures old(accepted) ==> r == None && accepted && readBuffer == old(readBuffer)
      ensures !old(accepted) && accept.Ready? && accept.value.Ok? ==>
                r == None && accepted && readBuffer == accept.value.value
      ensures !old(accepted) && accept == Pending ==> r == Some(Pending) && !accepted && readBuffer == old(readBuffer)
      ensures !old(accepted) && accept.Ready? && accept.value.Err? ==>
                r == Some(Ready(Err(accept.value.error))) && !accepted && readBuffer == old(readBuffer)
    {
      if accepted {
        return None;
      }
      match accept {
        case Pending =>
          return Some(Pending);
        case Ready(Err(e)) =>
          return Some(Ready(Err(e)));
        case Ready(Ok(buffer)) =>
          accepted := true;
          readBuffer := buffer;
          return None;
      }
    }

    /// `poll_read` into a buffer of `capacity` bytes: bytes left in the
    /// read buffer are served first, and only an empty read buffer reads
    /// the substream.
    method PollRead(capacity: nat, accept: Poll<Result<seq<byte>, Io.IoError>>, substream: Poll<Result<seq<byte>, Io.IoError>>)
      returns (r: Poll<Result<seq<byte>, Io.IoError>>)
      requires substream.Ready? && substream.value.Ok? ==> |substream.value.value| <= capacity
      modifies this
      ensures var buffer := if old(accepted) then old(readBuffer) else if accept.Ready? && accept.value.Ok? then accept.value.value else [];
              var ready := old(accepted) || (accept.Ready? && accept.value.Ok?);
              && (!ready ==> r == (if accept == Pending then Pending else Ready(Err(accept.value.error))) && readBuffer == old(readBuffer))
              && (ready && buffer != [] ==>
                    var n := if |buffer| < capacity then |buffer| else capacity;
                    r == Ready(Ok(buffer[..n])) && readBuffer == buffer[n..])
              && (ready && buffer == [] ==> r == substream && readBuffer == [])
      ensures r.Ready? && r.value.Ok? ==> |r.value.value| <= capacity
    {
      var early := Accept(accept);
      if early.Some? {
        return match early.value case Pending => Pending case Ready(e) => Ready(Err(e.error));
      }
      if readBuffer != [] {
        var n := if |readBuffer| < capacity then |readBuffer| else capacity;
        r := Ready(Ok(readBuffer[..n]));
        readBuffer := readBuffer[n..];
        return;
      }
      r := substream;
    }

    /// `poll_write`, `poll_flush` and `poll_close`: after accepting, the
    /// call goes to the substream.
    method PollForward<T>(accept: Poll<Result<seq<byte>, Io.IoError>>, substream: Poll<Result<T, Io.IoError>>)
      returns (r: Poll<Result<T, Io.IoError>>)
      modifies this
      ensures var ready := old(accepted) || (accept.Ready? && accept.value.Ok?);
              && (ready ==> r == substream && accepted)
              && (!ready ==> r == (if accept == Pending then Pending else Ready(Err(accept.value.error))) && !accepted)
    {
      var early := Accept(accept);
      if early.Some? {
        return match early.value case Pending => Pending case Ready(e) => Ready(Err(e.error));
      }
      r := substream;
    }
  }

  /// Reading from the read buffer loses and repeats nothing: the bytes
  /// served followed by the bytes kept are the buffer.
  method ReadBufferSplit(c: Connection, capacity: nat, empty: Poll<Result<seq<byte>, Io.IoError>>) returns (served: seq<byte>)
    requires c.accepted && c.readBuffer != [] && capacity > 0
    modifies c
    ensures served + c.readBuffer == old(c.readBuffer)
    ensures 0 < |served| <= capacity
  {
    var r := c.PollRead(capacity, Pending, Pending);
    served := r.value.value;
    assert served + c.readBuffer == old(c.readBuffer);
  }
}
