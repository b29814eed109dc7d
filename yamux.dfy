// The stream muxer over the `yamux` crate (muxers/volans-yamux/src/lib.rs).
// The crate's connection is outside the model: what its
// `poll_next_inbound` gives at a call is an input. What is modelled is
// the muxer's own buffer of inbound streams, and the upgrade that makes a
// muxer out of a socket.
module Yamux {
  import opened Wrappers

  /// `MAX_BUFFERED_INBOUND_STREAMS`.
  const MAX_BUFFERED_INBOUND_STREAMS: nat := 256

  /// The crate's `ConnectionError`: Closed, or some other error of the
  /// connection.
  datatype ConnectionError<E> = Closed | Failed(error: E)

  /// What the connection's `poll_next_inbound` gives: a new stream, an
  /// error, the end of the inbound side, or nothing yet.
  type Inbound<S, E> = Poll<Option<Result<S, ConnectionError<E>>>>

  /// The stream `poll` takes from the connection, with the end of the
  /// inbound side reported as Closed.
  function NextInbound<S, E>(next: Inbound<S, E>): (r: Poll<Result<S, ConnectionError<E>>>)
    ensures r.Pending? <==> next.Pending?
    ensures next == Ready(None) ==> r == Ready(Err(Closed))
    ensures next.Ready? && next.value.Some? ==> r == Ready(next.value.value)
  {
    match next
    case Pending => Pending
    case Ready(None) => Ready(Err(Closed))
    case Ready(Some(res)) => Ready(res)
  }

  /// `Muxer`.
  class Muxer<S, E> {
    var buffer: seq<S>
    /// Whether `inbound_stream_waker` holds a waker.
    var inboundWaker: bool

    ghost predicate Valid()
      reads this
    {
      |buffer| <= MAX_BUFFERED_INBOUND_STREAMS
    }

    /// `Muxer::new`.
    constructor()
      ensures Valid() && buffer == [] && !inboundWaker
    {
      buffer := [];
      inboundWaker := false;
    }

    /// `poll_inbound`: the oldest buffered stream; with none, Pending,
    /// with the waker kept for `poll` to wake. The connection itself is
    /// only polled by `poll`.
    method PollInbound() returns (r: Poll<Result<S, ConnectionError<E>>>)
      requires Valid()
      modifies this
      ensures Valid()
      ensures old(buffer) != [] ==> r == Ready(Ok(old(buffer)[0])) && buffer == old(buffer)[1..]
                                    && inboundWaker == old(inboundWaker)
      ensures old(buffer) == [] ==> r.Pending? && buffer == [] && inboundWaker
    {
      if buffer != [] {
        var s := buffer[0];
        buffer := buffer[1..];
        return Ready(Ok(s));
      }
      inboundWaker := true;
      return Pending;
    }

    /// `poll`: a new inbound stream is buffered, woken for, or dropped
    /// when the buffer is full; an error is returned. Otherwise the
    /// muxer asks to be polled again and is Pending.
    method Poll(next: Inbound<S, E>) returns (r: Poll<Result<(), ConnectionError<E>>>)
      requires Valid()
      modifies this
      ensures Valid()
      ensures var inner := NextInbound(next);
              && (inner.Ready? && inner.value.Err? ==> r == Ready(Err(inner.value.error)))
              && (!(inner.Ready? && inner.value.Err?) ==> r.Pending?)
      ensures var inner := NextInbound(next);
              inner.Ready? && inner.value.Ok? && |old(buffer)| < MAX_BUFFERED_INBOUND_STREAMS ==>
                buffer == old(buffer) + [inner.value.value] && !inboundWaker
      ensures var inner := NextInbound(next);
              !(inner.Ready? && inner.value.Ok? && |old(buffer)| < MAX_BUFFERED_INBOUND_STREAMS) ==>
                buffer == old(buffer) && inboundWaker == old(inboundWaker)
    {
      var inner := NextInbound(next);
      if inner.Pending? {
        return Pending;
      }
      if inner.value.Err? {
        return Ready(Err(inner.value.error));
      }
      if |buffer| < MAX_BUFFERED_INBOUND_STREAMS {
        buffer := buffer + [inner.value.value];
        inboundWaker := false;
      }
      return Pending;
    }
  }

  /// A full buffer drops the new stream and keeps the ones it has.
  method FullBufferDrops<S, E>(m: Muxer<S, E>, s: S) returns (r: Poll<Result<(), ConnectionError<E>>>)
    requires m.Valid() && |m.buffer| == MAX_BUFFERED_INBOUND_STREAMS
    modifies m
    ensures r.Pending? && m.buffer == old(m.buffer) && |m.buffer| == MAX_BUFFERED_INBOUND_STREAMS
  {
    r := m.Poll(Ready(Some(Ok(s))));
  }

  /// Streams buffered by `poll` come out of `poll_inbound` in the order
  /// they came in.
  method BufferedInOrder<S, E>(m: Muxer<S, E>, a: S, b: S) returns (x: Poll<Result<S, ConnectionError<E>>>, y: Poll<Result<S, ConnectionError<E>>>)
    requires m.Valid() && m.buffer == []
    modifies m
    ensures x == Ready(Ok(a)) && y == Ready(Ok(b)) && m.buffer == []
  {
    var _ := m.Poll(Ready(Some(Ok(a))));
    var _ := m.Poll(Ready(Some(Ok(b))));
    x := m.PollInbound();
    y := m.PollInbound();
  }

  // ---------------------------------------------------------------------
  // The upgrade

  /// The crate's `Mode`.
  datatype Mode = Server | Client

  /// `PROTOCOL_NAME` offered by `protocol_info`.
  const PROTOCOL_NAME: string := "/v1/yamux"

  /// `protocol_info`: the one protocol offered.
  function ProtocolInfo(): (r: seq<string>)
    ensures r == [PROTOCOL_NAME] && |r| == 1
  {
    [PROTOCOL_NAME]
  }

  /// The mode an upgrade gives the new connection, as written: the
  /// listening side runs as the client and the dialling side as the
  /// server, the reverse of the usual naming.
  function UpgradeMode(inbound: bool): Mode
  {
    if inbound then Client else Server
  }

  /// The two ends of a connection, one upgrading inbound and one
  /// outbound, still take different modes, which is what yamux needs.
  lemma EndsDiffer()
    ensures UpgradeMode(true) != UpgradeMode(false)
  {
  }
}
