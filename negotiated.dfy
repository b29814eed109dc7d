// `Negotiated` (negotiated.rs of volans-stream-select): the stream handed
// out when negotiation finishes. In Expecting the dialer has sent its last
// proposal optimistically and the listener's answer is still to be read;
// it is read, and checked, before the first read of application data.
module NegotiatedStream {
  import opened Wrappers
  import opened Bytes
  import opened Io
  import opened SelectProtocol
  import opened MessageChannel
  import opened LengthDelimitedCodec

  datatype NegotiationError = NegotiationProtocolError(err: ProtocolError) | Failed

  /// `From<io::Error> for NegotiationError`: through ProtocolError.
  function FromIoError(e: IoError): NegotiationError
  {
    NegotiationProtocolError(ProtocolIoError(e))
  }

  const FAILED_MESSAGE: string := "Protocol negotiation failed."

  /// `From<NegotiationError> for io::Error`: a ProtocolError is converted as
  /// such, Failed becomes an error of kind Other.
  function NegotiationToIoError(err: NegotiationError): (e: IoError)
    ensures err.NegotiationProtocolError? ==> e == ToIoError(err.err)
    ensures err == Failed ==> e == IoError(Other, FAILED_MESSAGE)
  {
    match err
    case NegotiationProtocolError(p) => ToIoError(p)
    case Failed => IoError(Other, FAILED_MESSAGE)
  }

  /// An I/O error survives the trip into a NegotiationError and back.
  lemma IoErrorThroughNegotiation(e: IoError)
    ensures NegotiationToIoError(FromIoError(e)) == e
  {
  }

  /// The error kinds the conversion produces: an invalid message is
  /// InvalidData, an invalid name InvalidInput, failure Other.
  lemma NegotiationErrorKinds()
    ensures NegotiationToIoError(NegotiationProtocolError(InvalidMessage)).kind == InvalidData
    ensures NegotiationToIoError(NegotiationProtocolError(InvalidProtocol)).kind == InvalidInput
    ensures NegotiationToIoError(Failed).kind == Other
  {
  }

  datatype NegotiatedState = Expecting(protocol: Protocol) | Completed | Invalid

  const UNEXPECTED_EOF_ERROR: IoError := IoError(UnexpectedEof, "unexpected end of stream")

  /// Whether `poll_negotiated`, as written, reaches `io.into_inner()` with
  /// frame bytes still queued: expecting, the flush stopped on the codec's
  /// WriteZero with the last proposal unsent (tolerated like any WriteZero),
  /// and the next message echoes the protocol. `into_inner` of the codec
  /// asserts an empty write buffer, so the source panics there.
  predicate IntoInnerPanics(state: NegotiatedState, c: Channel)
  {
    state.Expecting? && FramesQueued(c)
    && var polled := PollNextMsg(PollSink(c).1).0;
       polled.Ready? && polled.value.Some? && polled.value.value.Ok?
       && polled.value.value.value.MessageProtocol?
       && polled.value.value.value.protocol.name == state.protocol.name
  }

  /// The outcome of `poll_negotiated` as written and the state and channel
  /// after it, wherever it does not panic.
  function PollNegotiatedAsWritten(state: NegotiatedState, c: Channel)
    : (r: (Poll<Result<(), NegotiationError>>, NegotiatedState, Channel))
    requires !state.Invalid? && !IntoInnerPanics(state, c)
    ensures r.0 == Ready(Ok(())) ==> r.1 == Completed
    ensures r.0.Pending? ==> r.1 == state
    ensures r.0.Ready? && r.0.value.Err? ==> r.1 == Invalid || r.1 == state
  {
    var (flushed, c1) := PollSink(c);
    if flushed.Pending? then (Pending, state, c1)
    else if flushed.value.Err? && flushed.value.error.kind != WriteZero then
      (Ready(Err(FromIoError(flushed.value.error))), state, c1)
    else if state.Completed? then (Ready(Ok(())), Completed, c1)
    else
      var (polled, c2) := PollNextMsg(c1);
      match polled
      case Pending => (Pending, state, c2)
      case Ready(None) => (Ready(Err(FromIoError(UNEXPECTED_EOF_ERROR))), Invalid, c2)
      case Ready(Some(Err(e))) => (Ready(Err(NegotiationProtocolError(e))), Invalid, c2)
      case Ready(Some(Ok(msg))) =>
        if msg.MessageProtocol? && msg.protocol.name == state.protocol.name then
          (Ready(Ok(())), Completed, c2)
        else (Ready(Err(Failed)), Invalid, c2)
  }

  /// As written, the echo read after a flush that left the last proposal
  /// queued reaches `into_inner`: a stream that takes none of the
  /// proposal's frame leaves the whole frame in the codec's write buffer,
  /// where `into_inner` requires it empty.
  lemma AsWrittenEchoAfterStuckFlush(p: Protocol, rest: seq<Incoming>, sink: seq<SinkEvent>, sent: seq<Message>,
                                     writes: seq<WriteEvent>)
    requires |Encode(MessageProtocol(p))| <= MAX_FRAME_SIZE
    ensures IntoInnerPanics(Expecting(p), Channel([RecvMsg(MessageProtocol(p))] + rest, [SinkStuck] + sink, sent))
    ensures var frame := Frame(Encode(MessageProtocol(p)));
            var d := Drain(frame, [WriteAccept(0)] + writes);
            d.0 == Ready(Err(WRITE_ZERO)) && d.2 == frame && d.2 != []
  {
    var c := Channel([RecvMsg(MessageProtocol(p))] + rest, [SinkStuck] + sink, sent);
    assert PollSink(c).1.incoming == [RecvMsg(MessageProtocol(p))] + rest;
    DrainIntoStuckSink(Frame(Encode(MessageProtocol(p))), writes);
  }

  /// The outcome of `poll_negotiated` and the state and channel after it,
  /// with the panic corrected: where the source would call `into_inner`
  /// with the proposal still queued, the WriteZero is returned and the
  /// stream is spent. A stream is never completed while frames are queued.
  function PollNegotiatedSpec(state: NegotiatedState, c: Channel)
    : (r: (Poll<Result<(), NegotiationError>>, NegotiatedState, Channel))
    requires !state.Invalid?
    ensures r.0 == Ready(Ok(())) ==> r.1 == Completed
    ensures r.0.Pending? ==> r.1 == state
    ensures r.0.Ready? && r.0.value.Err? ==> r.1 == Invalid || r.1 == state
    ensures state.Expecting? && FramesQueued(c) ==> r.1 != Completed && r.0 != Ready(Ok(()))
  {
    if IntoInnerPanics(state, c) then
      (Ready(Err(FromIoError(WRITE_ZERO))), Invalid, PollNextMsg(PollSink(c).1).1)
    else PollNegotiatedAsWritten(state, c)
  }

  /// The stream after negotiation. `chan` is the message view of the
  /// stream; what follows the negotiation messages is the byte script
  /// `data` that application reads see, and `writes` how the stream answers
  /// application writes.
  class Negotiated {
    var state: NegotiatedState
    var chan: Channel
    var data: seq<ReadEvent>
    var writes: seq<WriteEvent>
    var written: seq<byte>
    var closed: bool

    /// `Negotiated::completed`.
    constructor Completed(chan: Channel, data: seq<ReadEvent>, writes: seq<WriteEvent>)
      ensures state == NegotiatedState.Completed && this.chan == chan
      ensures this.data == data && this.writes == writes && written == [] && !closed
    {
      state := NegotiatedState.Completed;
      this.chan := chan;
      this.data := data;
      this.writes := writes;
      written := [];
      closed := false;
    }

    /// `Negotiated::expecting`.
    constructor Expecting(chan: Channel, protocol: Protocol, data: seq<ReadEvent>, writes: seq<WriteEvent>)
      ensures state == NegotiatedState.Expecting(protocol) && this.chan == chan
      ensures this.data == data && this.writes == writes && written == [] && !closed
    {
      state := NegotiatedState.Expecting(protocol);
      this.chan := chan;
      this.data := data;
      this.writes := writes;
      written := [];
      closed := false;
    }

    /// `poll_negotiated`: flush what is queued (a WriteZero error is
    /// tolerated), then, when still expecting, read the listener's answer.
    /// The source's loop always returns in its first turn. An echo read
    /// while the proposal is still queued gives the WriteZero error, where
    /// the source panics in `into_inner`.
    method PollNegotiated() returns (res: Poll<Result<(), NegotiationError>>)
      requires !state.Invalid?
      modifies this`state, this`chan
      ensures (res, state, chan) == PollNegotiatedSpec(old(state), old(chan))
    {
      var stuck := FramesQueued(chan);
      var (flushed, c1) := PollSink(chan);
      chan := c1;
      if flushed.Pending? {
        return Pending;
      }
      if flushed.value.Err? && flushed.value.error.kind != WriteZero {
        return Ready(Err(FromIoError(flushed.value.error)));
      }
      if state.Completed? {
        return Ready(Ok(()));
      }
      var protocol := state.protocol;
      state := Invalid;
      var (polled, c2) := PollNextMsg(chan);
      chan := c2;
      if polled.Pending? {
        state := NegotiatedState.Expecting(protocol);
        return Pending;
      }
      if polled.value.None? {
        return Ready(Err(FromIoError(UNEXPECTED_EOF_ERROR)));
      }
      if polled.value.value.Err? {
        return Ready(Err(NegotiationProtocolError(polled.value.value.error)));
      }
      var msg := polled.value.value.value;
      if msg.MessageProtocol? && msg.protocol.name == protocol.name {
        if stuck {
          return Ready(Err(FromIoError(WRITE_ZERO)));
        }
        state := NegotiatedState.Completed;
        return Ready(Ok(()));
      }
      return Ready(Err(Failed));
    }

    /// `AsyncRead::poll_read`: a completed stream reads the inner stream;
    /// otherwise the negotiation is finished first.
    method PollRead(room: nat) returns (res: Poll<Result<seq<byte>, IoError>>)
      requires !state.Invalid?
      modifies this`state, this`chan, this`data
      ensures old(state).Completed? ==>
                state == old(state) && chan == old(chan) && (res, data) == Io.PollRead(old(data), room)
      ensures !old(state).Completed? ==>
                var n := PollNegotiatedSpec(old(state), old(chan));
                state == n.1 && chan == n.2
                && if n.0 == Ready(Ok(())) then (res, data) == Io.PollRead(old(data), room)
                   else data == old(data)
                        && res == (if n.0.Pending? then Pending else Ready(Err(NegotiationToIoError(n.0.value.error))))
    {
      while true
        invariant !state.Invalid?
        invariant old(state).Completed? ==> state == old(state) && chan == old(chan)
        invariant !old(state).Completed? && state != old(state) ==>
                    var n := PollNegotiatedSpec(old(state), old(chan));
                    state == n.1 && chan == n.2 && n.0 == Ready(Ok(()))
        invariant state == old(state) ==> chan == old(chan)
        invariant data == old(data)
        decreases if state.Completed? then 0 else 1
      {
        if state.Completed? {
          var (r, rest) := Io.PollRead(data, room);
          data := rest;
          return r;
        }
        var n := PollNegotiated();
        if n.Pending? {
          return Pending;
        }
        if n.value.Err? {
          return Ready(Err(NegotiationToIoError(n.value.error)));
        }
      }
    }

    /// `AsyncWrite::poll_write`: a completed stream writes to the inner
    /// stream; while expecting, the write goes through the framed reader,
    /// which first drains the frames still queued (the optimistic last
    /// proposal among them) and gives up on Pending or an error.
    method PollWrite(buf: seq<byte>) returns (res: Poll<Result<nat, IoError>>)
      requires !state.Invalid?
      modifies this`chan, this`writes, this`written
      ensures var (drained, c) := if old(state).Completed? then (Ready(Ok(())), old(chan)) else PollSink(old(chan));
              chan == c
              && if drained.Pending? || drained.value.Err? then
                   res == (if drained.Pending? then Pending else Ready(Err(drained.value.error)))
                   && writes == old(writes) && written == old(written)
                 else
                   (res, writes) == Io.PollWrite(old(writes), buf)
                   && written == old(written) + (if res.Ready? && res.value.Ok? then buf[..res.value.value] else [])
    {
      if state.Expecting? {
        var (drained, c) := PollSink(chan);
        chan := c;
        if drained.Pending? {
          return Pending;
        }
        if drained.value.Err? {
          return Ready(Err(drained.value.error));
        }
      }
      var (r, rest) := Io.PollWrite(writes, buf);
      writes := rest;
      if r.Ready? && r.value.Ok? {
        written := written + buf[..r.value.value];
      }
      res := r;
    }

    /// `AsyncWrite::poll_flush`: forwarded to the inner stream in both
    /// states.
    method PollFlush() returns (res: Poll<Result<(), IoError>>)
      requires !state.Invalid?
      modifies this`chan
      ensures (res, chan) == PollSink(old(chan))
    {
      var (r, c) := PollSink(chan);
      chan := c;
      res := r;
    }

    /// `AsyncWrite::poll_close`: flushes, then closes the inner stream
    /// (which the model takes to succeed at once).
    method PollClose() returns (res: Poll<Result<(), IoError>>)
      requires !state.Invalid?
      modifies this`chan, this`closed
      ensures var (r, c) := PollSink(old(chan));
              chan == c && res == r && closed == (old(closed) || r == Ready(Ok(())))
    {
      var r := PollFlush();
      if r == Ready(Ok(())) {
        closed := true;
      }
      res := r;
    }
  }

  /// A completed stream stays completed whatever the channel does next,
  /// unless its flush fails with an error other than WriteZero.
  lemma CompletedStaysCompleted(c: Channel)
    ensures var r := PollNegotiatedSpec(Completed, c);
            r.1 == Completed
            && (r.0.Ready? && r.0.value.Err? <==>
                  PollSink(c).0.Ready? && PollSink(c).0.value.Err? && PollSink(c).0.value.error.kind != WriteZero)
  {
  }

  /// Expecting `p`, after a flush that sent the proposal, an echo of `p`
  /// confirms the negotiation and any other message fails it. A WriteZero
  /// of the inner stream's own flush comes after the frames went out, and
  /// is tolerated.
  lemma ExpectingAnswered(p: Protocol, m: Message, rest: seq<Incoming>, sink: seq<SinkEvent>, sent: seq<Message>)
    requires sink == [] || sink[0] == SinkReady || (sink[0].SinkFailed? && sink[0].err.kind == WriteZero)
    ensures var r := PollNegotiatedSpec(Expecting(p), Channel([RecvMsg(m)] + rest, sink, sent));
            if m == MessageProtocol(p) then r.0 == Ready(Ok(())) && r.1 == Completed
            else r.0 == Ready(Err(Failed)) && r.1 == Invalid
  {
    var c := Channel([RecvMsg(m)] + rest, sink, sent);
    assert PollSink(c).1.incoming == [RecvMsg(m)] + rest;
    if m.MessageProtocol? && m.protocol.name == p.name {
      assert m == MessageProtocol(p);
    }
  }

  /// Expecting `p`, after a flush that left the proposal queued, the echo
  /// gives the WriteZero error (the source panics there) and any other
  /// message fails the negotiation as usual; the stream is spent either way.
  lemma ExpectingStuckAnswered(p: Protocol, m: Message, rest: seq<Incoming>, sink: seq<SinkEvent>, sent: seq<Message>)
    ensures var r := PollNegotiatedSpec(Expecting(p), Channel([RecvMsg(m)] + rest, [SinkStuck] + sink, sent));
            r.1 == Invalid
            && if m == MessageProtocol(p) then r.0 == Ready(Err(FromIoError(WRITE_ZERO)))
               else r.0 == Ready(Err(Failed))
  {
    var c := Channel([RecvMsg(m)] + rest, [SinkStuck] + sink, sent);
    assert PollSink(c).1.incoming == [RecvMsg(m)] + rest;
    if m.MessageProtocol? && m.protocol.name == p.name {
      assert m == MessageProtocol(p);
    }
  }

  /// End of stream while expecting is an UnexpectedEof error.
  lemma ExpectingEnd(p: Protocol, sent: seq<Message>)
    ensures PollNegotiatedSpec(Expecting(p), Channel([RecvEnd], [], sent))
            == (Ready(Err(FromIoError(UNEXPECTED_EOF_ERROR))), Invalid, Channel([RecvEnd], [], sent))
  {
  }

  /// `NegotiatedComplete`: a future that drives `poll_negotiated` to its
  /// end and hands the stream back on success.
  class NegotiatedComplete {
    var inner: Option<Negotiated>

    constructor (io: Negotiated)
      ensures inner == Some(io)
    {
      inner := Some(io);
    }

    /// `Future::poll`: only allowed while the stream has not been handed
    /// out.
    method PollFuture() returns (res: Poll<Result<Negotiated, NegotiationError>>)
      requires inner.Some? && !inner.value.state.Invalid?
      modifies this, inner.value`state, inner.value`chan
      ensures var n := PollNegotiatedSpec(old(inner.value.state), old(inner.value.chan));
              old(inner.value).state == n.1 && old(inner.value).chan == n.2
              && (n.0.Pending? ==> res.Pending? && inner == old(inner))
              && (n.0 == Ready(Ok(())) ==> res == Ready(Ok(old(inner.value))) && inner.None?)
              && (n.0.Ready? && n.0.value.Err? ==> res == Ready(Err(n.0.value.error)) && inner.None?)
    {
      var io := inner.value;
      inner := None;
      var r := io.PollNegotiated();
      if r.Pending? {
        inner := Some(io);
        return Pending;
      }
      if r.value.Ok? {
        return Ready(Ok(io));
      }
      return Ready(Err(r.value.error));
    }
  }
}
