// The connection handler of the relay client (protocols/volans-bridge/src/
// client/handler.rs): requests to reach a peer through this connection's
// relay are queued, and taken one at a time into a single slot while the
// stream to the relay for it is opened. The requester is answered through
// its `oneshot` sender; here each answer is returned with the sender it
// goes to.
module BridgeClientHandler {
  import opened Wrappers
  import opened Io
  import opened Identity
  import opened SwarmHandler
  import opened Multiaddrs

  /// `PROTOCOL_NAME` (protocol.rs).
  const PROTOCOL_NAME: string := "/v1/bridge"

  /// The text of an upgrade failure, before the relay address and the
  /// destination.
  const UPGRADE_FAILED: string := "Failed to upgrade outbound stream to "

  /// The `oneshot::Sender` a requester waits on, by identity.
  datatype SendBack = SendBack(id: nat)

  /// `NewOutboundBridgeRequest`.
  datatype NewOutboundBridgeRequest = NewOutboundBridgeRequest(relayAddr: Multiaddr, relayPeer: PeerId, dstPeer: PeerId, sendBack: SendBack)

  /// An answer sent to a requester.
  datatype Answer<St> = Answer(to: SendBack, result: Result<St, IoError>)

  /// `DestinationUpgrade`: the upgrade that names the destination to the
  /// relay.
  datatype DestinationUpgrade = DestinationUpgrade(dstPeer: PeerId)

  /// `protocol_info`: the bridge protocol, and only it.
  function ProtocolInfo(u: DestinationUpgrade): (r: seq<string>)
    ensures r == [PROTOCOL_NAME]
  {
    [PROTOCOL_NAME]
  }

  /// `Handler`.
  class Handler<St> {
    /// `outbound_requests`, oldest first.
    var outboundRequests: seq<NewOutboundBridgeRequest>
    /// `pending_outbound`: the request whose stream is being opened.
    var pendingOutbound: Option<NewOutboundBridgeRequest>

    /// `Handler::new`.
    constructor()
      ensures outboundRequests == [] && pendingOutbound.None?
    {
      outboundRequests := [];
      pendingOutbound := None;
    }

    /// `handle_action`: the request joins the back of the queue.
    method HandleAction(action: NewOutboundBridgeRequest)
      modifies this
      ensures outboundRequests == old(outboundRequests) + [action] && pendingOutbound == old(pendingOutbound)
    {
      outboundRequests := outboundRequests + [action];
    }

    /// `on_fully_negotiated`: the slot's requester gets the stream. A
    /// stream with the slot empty panics.
    method OnFullyNegotiated(stream: St) returns (sent: Answer<St>)
      requires pendingOutbound.Some?
      modifies this
      ensures sent == Answer(old(pendingOutbound).value.sendBack, Ok(stream))
      ensures pendingOutbound.None? && outboundRequests == old(outboundRequests)
    {
      var request := pendingOutbound.value;
      pendingOutbound := None;
      return Answer(request.sendBack, Ok(stream));
    }

    /// `on_upgrade_error`: the slot's requester gets an error of kind
    /// Other naming the relay address and the destination, whatever the
    /// upgrade error was; `rendered` is that address and destination as
    /// text. An error with the slot empty panics.
    method OnUpgradeError(error: StreamUpgradeError<IoError>, rendered: string) returns (sent: Answer<St>)
      requires pendingOutbound.Some?
      modifies this
      ensures sent == Answer(old(pendingOutbound).value.sendBack, Err(IoError(ErrorKind.Other, UPGRADE_FAILED + rendered)))
      ensures pendingOutbound.None? && outboundRequests == old(outboundRequests)
    {
      var request := pendingOutbound.value;
      pendingOutbound := None;
      return Answer(request.sendBack, Err(IoError(ErrorKind.Other, UPGRADE_FAILED + rendered)));
    }

    /// `poll_outbound_request`: with the slot empty, the oldest queued
    /// request fills it and a stream naming its destination is asked for;
    /// otherwise nothing happens.
    method PollOutboundRequest() returns (r: Poll<SubstreamProtocol<DestinationUpgrade, ()>>)
      modifies this
      ensures old(pendingOutbound).None? && old(outboundRequests) != [] ==>
                && r == Ready(NewSubstreamProtocol(DestinationUpgrade(old(outboundRequests)[0].dstPeer), ()))
                && pendingOutbound == Some(old(outboundRequests)[0])
                && outboundRequests == old(outboundRequests)[1..]
      ensures old(pendingOutbound).Some? || old(outboundRequests) == [] ==>
                r.Pending? && pendingOutbound == old(pendingOutbound) && outboundRequests == old(outboundRequests)
    {
      if pendingOutbound.None? && outboundRequests != [] {
        var request := outboundRequests[0];
        outboundRequests := outboundRequests[1..];
        pendingOutbound := Some(request);
        return Ready(NewSubstreamProtocol(DestinationUpgrade(request.dstPeer), ()));
      }
      return Pending;
    }
  }

  /// Requests are served in the order they arrive, one at a time: the
  /// second is taken only once the first is answered.
  method ServedInOrder<St>(h: Handler<St>, a: NewOutboundBridgeRequest, b: NewOutboundBridgeRequest, stream: St)
    returns (first: Poll<SubstreamProtocol<DestinationUpgrade, ()>>, blocked: Poll<SubstreamProtocol<DestinationUpgrade, ()>>,
             answer: Answer<St>, second: Poll<SubstreamProtocol<DestinationUpgrade, ()>>)
    requires h.outboundRequests == [] && h.pendingOutbound.None?
    modifies h
    ensures first.Ready? && first.value.upgrade == DestinationUpgrade(a.dstPeer)
    ensures blocked.Pending?
    ensures answer == Answer(a.sendBack, Ok(stream))
    ensures second.Ready? && second.value.upgrade == DestinationUpgrade(b.dstPeer)
  {
    h.HandleAction(a);
    h.HandleAction(b);
    first := h.PollOutboundRequest();
    blocked := h.PollOutboundRequest();
    answer := h.OnFullyNegotiated(stream);
    second := h.PollOutboundRequest();
  }
}
