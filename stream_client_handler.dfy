// The connection handler of the stream protocol's opening side
// (protocols/volans-stream/src/client/handler.rs, with `StreamError` from
// client.rs). Requests for a new stream arrive on a channel; the handler
// takes them one at a time into a single slot, asks the connection for a
// stream of the requested protocol, and answers the requester once the
// stream is negotiated or has failed. The channels are outside the model:
// what the request channel gives when polled is an input, and each answer
// is returned together with the requester it goes to.
module StreamClientHandler {
  import opened Wrappers
  import opened Io
  import opened SwarmHandler
  import opened StreamServer

  /// A `mpsc` channel of stream requests, by identity.
  datatype Channel = Channel(id: nat)

  /// The `oneshot::Sender` a requester waits on, by identity.
  datatype ReplyTo = ReplyTo(id: nat)

  /// `NewStream`: a request for a stream of one protocol.
  datatype NewStream = NewStream(protocol: StreamProtocol, sender: ReplyTo)

  /// `StreamError`.
  datatype StreamError = Unsupported(protocol: StreamProtocol) | Io(error: IoError)

  /// An answer sent to a requester.
  datatype Reply<St> = Reply(to: ReplyTo, result: Result<St, StreamError>)

  /// The answer a failed upgrade of the slot's request gives: a timeout
  /// as a TimedOut error, a failed negotiation naming the protocol, an
  /// I/O error as it is.
  function UpgradeFailure(protocol: StreamProtocol, error: StreamUpgradeError<()>): (e: StreamError)
    requires !error.Apply?
    ensures error.Timeout? ==> e == StreamError.Io(FromKind(TimedOut))
    ensures error.NegotiationFailed? ==> e == Unsupported(protocol)
    ensures error.Io? ==> e == StreamError.Io(error.ioError)
  {
    match error
    case Timeout => StreamError.Io(FromKind(TimedOut))
    case NegotiationFailed => Unsupported(protocol)
    case Io(io) => StreamError.Io(io)
  }

  /// `Handler`.
  class Handler<St> {
    const receiver: Channel
    /// `pending_outbound`: the one request whose stream is being opened.
    var pendingOutbound: Option<NewStream>

    /// `Handler::new`: the slot is empty.
    constructor(receiver: Channel)
      ensures this.receiver == receiver && pendingOutbound.None?
    {
      this.receiver := receiver;
      pendingOutbound := None;
    }

    /// `on_fully_negotiated`: the slot's requester gets the stream and
    /// the slot empties; with the slot empty nothing is sent.
    method OnFullyNegotiated(stream: St, protocol: StreamProtocol) returns (sent: Option<Reply<St>>)
      modifies this
      ensures pendingOutbound.None?
      ensures old(pendingOutbound).None? ==> sent.None?
      ensures old(pendingOutbound).Some? ==> sent == Some(Reply(old(pendingOutbound).value.sender, Ok(stream)))
    {
      if pendingOutbound.None? {
        return None;
      }
      var request := pendingOutbound.value;
      pendingOutbound := None;
      return Some(Reply(request.sender, Ok(stream)));
    }

    /// `on_upgrade_error`: the slot's requester gets the failure and the
    /// slot empties; with the slot empty nothing is sent. An `Apply` error
    /// for a request cannot happen (the source's `unreachable!`).
    method OnUpgradeError(error: StreamUpgradeError<()>) returns (sent: Option<Reply<St>>)
      requires pendingOutbound.Some? ==> !error.Apply?
      modifies this
      ensures pendingOutbound.None?
      ensures old(pendingOutbound).None? ==> sent.None?
      ensures old(pendingOutbound).Some? ==>
                var request := old(pendingOutbound).value;
                sent == Some(Reply(request.sender, Err(UpgradeFailure(request.protocol, error))))
    {
      if pendingOutbound.None? {
        return None;
      }
      var request := pendingOutbound.value;
      pendingOutbound := None;
      return Some(Reply(request.sender, Err(UpgradeFailure(request.protocol, error))));
    }

    /// `poll_outbound_request`: while a request is in the slot nothing
    /// else is taken; otherwise the next request on the channel, if there
    /// is one, fills the slot and a stream of its protocol alone is asked
    /// for.
    method PollOutboundRequest(next: Poll<Option<NewStream>>) returns (r: Poll<SubstreamProtocol<seq<StreamProtocol>, ()>>)
      modifies this
      ensures old(pendingOutbound).Some? ==> r.Pending? && pendingOutbound == old(pendingOutbound)
      ensures old(pendingOutbound).None? && next.Ready? && next.value.Some? ==>
                && pendingOutbound == next.value
                && r == Ready(NewSubstreamProtocol([next.value.value.protocol], ()))
      ensures old(pendingOutbound).None? && !(next.Ready? && next.value.Some?) ==>
                r.Pending? && pendingOutbound.None?
    {
      if pendingOutbound.Some? {
        return Pending;
      }
      if next.Ready? && next.value.Some? {
        var request := next.value.value;
        pendingOutbound := Some(request);
        return Ready(NewSubstreamProtocol([request.protocol], ()));
      }
      return Pending;
    }
  }

  /// One request at a time: while the first request's stream is being
  /// opened, a second one is not taken, and it is taken once the first
  /// is answered.
  method OneAtATime<St>(h: Handler<St>, a: NewStream, b: NewStream, stream: St)
    returns (first: Poll<SubstreamProtocol<seq<StreamProtocol>, ()>>, blocked: Poll<SubstreamProtocol<seq<StreamProtocol>, ()>>,
             answer: Option<Reply<St>>, second: Poll<SubstreamProtocol<seq<StreamProtocol>, ()>>)
    requires h.pendingOutbound.None?
    modifies h
    ensures first.Ready? && first.value.upgrade == [a.protocol]
    ensures blocked.Pending?
    ensures answer == Some(Reply(a.sender, Ok(stream)))
    ensures second.Ready? && second.value.upgrade == [b.protocol] && h.pendingOutbound == Some(b)
  {
    first := h.PollOutboundRequest(Ready(Some(a)));
    blocked := h.PollOutboundRequest(Ready(Some(b)));
    answer := h.OnFullyNegotiated(stream, a.protocol);
    second := h.PollOutboundRequest(Ready(Some(b)));
  }
}
