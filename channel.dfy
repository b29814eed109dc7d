// The message channel the negotiation machines talk over: `MessageIO` seen
// at the level of whole messages. What the peer sends is a script of
// receive outcomes, every `poll_ready`/`poll_flush` takes the next scripted
// sink outcome, and `start_send` records the message. The byte-level
// behaviour of the same stream is the `LengthDelimited` and `MessageIo`
// model; `MessageRoundTrip` there shows that a message sent is the message
// received.
module MessageChannel {
  import opened Wrappers
  import opened Bytes
  import opened Io
  import opened LengthDelimitedCodec
  import opened SelectProtocol

  /// What one `poll_next` of the peer's messages gives.
  datatype Incoming =
    | RecvPending                  // nothing has arrived yet
    | RecvFailed(err: ProtocolError) // a read error or an undecodable frame
    | RecvMsg(msg: Message)        // the next message
    | RecvEnd                      // end of stream, for this and every later poll

  /// What one `poll_ready` or `poll_flush` gives; an exhausted script is
  /// always ready. `SinkStuck` is the stream taking none of the frame bytes
  /// still queued: the codec's WriteZero error, with those bytes left in its
  /// write buffer. A `SinkFailed` error comes from the inner stream's own
  /// flush, once the queued frames have gone out.
  datatype SinkEvent = SinkPending | SinkFailed(err: IoError) | SinkStuck | SinkReady

  datatype Channel = Channel(incoming: seq<Incoming>, sink: seq<SinkEvent>, sent: seq<Message>)

  /// `poll_ready` or `poll_flush` of the underlying stream.
  function PollSink(c: Channel): (r: (Poll<Result<(), IoError>>, Channel))
    ensures r.1.incoming == c.incoming && r.1.sent == c.sent
    ensures c.sink == [] ==> r == (Ready(Ok(())), c)
    ensures c.sink != [] ==> r.1.sink == c.sink[1..]
  {
    if c.sink == [] then (Ready(Ok(())), c)
    else
      var c' := c.(sink := c.sink[1..]);
      match c.sink[0]
      case SinkPending => (Pending, c')
      case SinkFailed(e) => (Ready(Err(e)), c')
      case SinkStuck => (Ready(Err(WRITE_ZERO)), c')
      case SinkReady => (Ready(Ok(())), c')
  }

  /// Whether the next `poll_flush` stops with frame bytes still queued in
  /// the codec's write buffer.
  predicate FramesQueued(c: Channel)
  {
    c.sink != [] && c.sink[0].SinkStuck?
  }

  /// `MessageIO::poll_ready` and `MessageIO::poll_flush`: the sink outcome
  /// with its I/O error wrapped as a ProtocolError.
  function PollReadyMsg(c: Channel): (r: (Poll<Result<(), ProtocolError>>, Channel))
    ensures r.1 == PollSink(c).1 && r.0 == MapIo(PollSink(c).0)
  {
    var (p, c') := PollSink(c);
    (MapIo(p), c')
  }

  /// `MessageIO::start_send`: the codec refuses an encoding longer than a
  /// frame can carry; otherwise the message is sent.
  function StartSendMsg(c: Channel, m: Message): (r: (Result<(), ProtocolError>, Channel))
    ensures |Encode(m)| > MAX_FRAME_SIZE ==> r == (Err(ProtocolIoError(FRAME_TOO_LARGE)), c)
    ensures |Encode(m)| <= MAX_FRAME_SIZE ==> r == (Ok(()), c.(sent := c.sent + [m]))
  {
    if |Encode(m)| > MAX_FRAME_SIZE then (Err(ProtocolIoError(FRAME_TOO_LARGE)), c)
    else (Ok(()), c.(sent := c.sent + [m]))
  }

  /// `MessageIO::poll_next`.
  function PollNextMsg(c: Channel): (r: (Poll<Option<Result<Message, ProtocolError>>>, Channel))
    ensures r.1.sink == c.sink && r.1.sent == c.sent
    ensures |r.1.incoming| <= |c.incoming|
    ensures r.0.Ready? && r.0.value.Some? ==> |r.1.incoming| < |c.incoming|
    ensures c.incoming == [] ==> r == (Pending, c)
    ensures c.incoming != [] && c.incoming[0].RecvMsg? ==>
              r == (Ready(Some(Ok(c.incoming[0].msg))), c.(incoming := c.incoming[1..]))
    ensures c.incoming != [] && c.incoming[0].RecvEnd? ==> r == (Ready(None), c)
  {
    if c.incoming == [] then (Pending, c)
    else
      var c' := c.(incoming := c.incoming[1..]);
      match c.incoming[0]
      case RecvPending => (Pending, c')
      case RecvFailed(e) => (Ready(Some(Err(e))), c')
      case RecvMsg(m) => (Ready(Some(Ok(m))), c')
      case RecvEnd => (Ready(None), c)
  }

  /// A peer that sends exactly these messages, with nothing else in
  /// between and the stream staying open.
  function Script(msgs: seq<Message>): (s: seq<Incoming>)
    ensures |s| == |msgs|
  {
    seq(|msgs|, i requires 0 <= i < |msgs| => RecvMsg(msgs[i]))
  }
}
