// The messages of the negotiation protocol (`protocol.rs` of
// volans-stream-select): a message is either the two bytes "na" or a
// protocol name, which starts with `/`, each carried as the payload of one
// length-delimited frame.
module SelectProtocol {
  import opened Wrappers
  import opened Bytes
  import opened Io
  import opened LengthDelimitedCodec

  /// `MSG_PROTOCOL_NA`, the bytes of "na".
  const MSG_PROTOCOL_NA: seq<byte> := [0x6E, 0x61]

  predicate StartsWithSlash(s: seq<byte>)
  {
    |s| > 0 && s[0] == SLASH
  }

  /// The names a `Protocol` can hold: UTF-8 text that starts with `/`.
  predicate IsProtocolName(s: seq<byte>)
  {
    StartsWithSlash(s) && ValidUtf8(s)
  }

  type ProtocolName = s: seq<byte> | IsProtocolName(s) witness [SLASH]

  datatype Protocol = Protocol(name: ProtocolName)

  datatype ProtocolError =
    | ProtocolIoError(err: IoError)
    | InvalidMessage
    | InvalidProtocol

  datatype Message = MessageProtocol(protocol: Protocol) | NotAvailable

  /// `Protocol::try_from(Bytes)`: the name must start with `/` and be UTF-8.
  function ProtocolFromBytes(value: seq<byte>): (r: Result<Protocol, ProtocolError>)
    ensures r.Ok? <==> StartsWithSlash(value) && ValidUtf8(value)
    ensures r.Ok? ==> r.value.name == value
    ensures r.Err? ==> r.error == InvalidProtocol
  {
    if !StartsWithSlash(value) then Err(InvalidProtocol)
    else if !ValidUtf8(value) then Err(InvalidProtocol)
    else Ok(Protocol(value))
  }

  /// `Protocol::try_from(&str)`: text is UTF-8 already, so only the leading
  /// `/` is checked.
  function ProtocolFromStr(value: Utf8): (r: Result<Protocol, ProtocolError>)
    ensures r.Ok? <==> StartsWithSlash(value)
    ensures r.Ok? ==> r.value.name == value
    ensures r.Err? ==> r.error == InvalidProtocol
  {
    if !StartsWithSlash(value) then Err(InvalidProtocol)
    else Ok(Protocol(value))
  }

  /// The two conversions agree on every text.
  lemma FromStrAgreesWithFromBytes(value: Utf8)
    ensures ProtocolFromStr(value) == ProtocolFromBytes(value)
  {
  }

  /// The `From<ProtocolError> for io::Error` conversion.
  function ToIoError(err: ProtocolError): (e: IoError)
    ensures err.ProtocolIoError? ==> e == err.err
    ensures err == InvalidMessage ==> e.kind == InvalidData
    ensures err == InvalidProtocol ==> e.kind == InvalidInput
  {
    match err
    case ProtocolIoError(e) => e
    case InvalidMessage => IoError(InvalidData, "Received an invalid message.")
    case InvalidProtocol => IoError(InvalidInput, "A protocol (name) is invalid.")
  }

  /// `#[from] io::Error` and back gives the original error.
  lemma IoErrorRoundTrip(e: IoError)
    ensures ToIoError(ProtocolIoError(e)) == e
  {
  }

  /// `Message::encode`: "na", or the name's bytes verbatim.
  function Encode(m: Message): (r: seq<byte>)
    ensures m.NotAvailable? ==> r == MSG_PROTOCOL_NA
    ensures m.MessageProtocol? ==> r == m.protocol.name
  {
    match m
    case NotAvailable => MSG_PROTOCOL_NA
    case MessageProtocol(p) => p.name
  }

  /// `Message::decode`.
  function Decode(src: seq<byte>): (r: Result<Message, ProtocolError>)
    ensures src == MSG_PROTOCOL_NA <==> r == Ok(NotAvailable)
    ensures r.Ok? && r.value.MessageProtocol? <==> IsProtocolName(src)
    ensures r.Ok? && r.value.MessageProtocol? ==> r.value.protocol.name == src
    ensures r == Err(InvalidProtocol) <==> StartsWithSlash(src) && !ValidUtf8(src)
    ensures r == Err(InvalidMessage) <==> src != MSG_PROTOCOL_NA && !StartsWithSlash(src)
  {
    if src == MSG_PROTOCOL_NA then Ok(NotAvailable)
    else if |src| > 0 && src[0] == SLASH then
      match ProtocolFromBytes(src)
      case Ok(p) => Ok(MessageProtocol(p))
      case Err(e) => Err(e)
    else Err(InvalidMessage)
  }

  /// Every message decodes back from its encoding: a protocol name starts
  /// with `/`, so it is never "na".
  lemma DecodeEncode(m: Message)
    ensures Decode(Encode(m)) == Ok(m)
  {
  }

  /// A payload that decodes re-encodes to itself.
  lemma EncodeDecode(src: seq<byte>)
    requires Decode(src).Ok?
    ensures Encode(Decode(src).value) == src
  {
  }

  /// `poll_stream`: one frame from the length-delimited stream decoded into
  /// a message.
  function PollStream(frame: FrameResult): (r: Poll<Option<Result<Message, ProtocolError>>>)
    ensures frame.Pending? <==> r.Pending?
    ensures frame == Ready(None) <==> r == Ready(None)
    ensures frame.Ready? && frame.value.Some? && frame.value.value.Err? ==>
              r == Ready(Some(Err(ProtocolIoError(frame.value.value.error))))
    ensures frame.Ready? && frame.value.Some? && frame.value.value.Ok? ==>
              r == Ready(Some(Decode(frame.value.value.value)))
  {
    match frame
    case Pending => Pending
    case Ready(None) => Ready(None)
    case Ready(Some(Err(e))) => Ready(Some(Err(ProtocolIoError(e))))
    case Ready(Some(Ok(msg))) =>
      match Decode(msg)
      case Ok(m) => Ready(Some(Ok(m)))
      case Err(err) => Ready(Some(Err(err)))
  }

  /// The I/O side of a `Sink` result mapped into a ProtocolError.
  function MapIo<T>(r: Poll<Result<T, IoError>>): (m: Poll<Result<T, ProtocolError>>)
    ensures r.Pending? <==> m.Pending?
    ensures r.Ready? && r.value.Ok? ==> m == Ready(Ok(r.value.value))
    ensures r.Ready? && r.value.Err? ==> m == Ready(Err(ProtocolIoError(r.value.error)))
  {
    match r
    case Pending => Pending
    case Ready(Ok(v)) => Ready(Ok(v))
    case Ready(Err(e)) => Ready(Err(ProtocolIoError(e)))
  }

  /// `MessageIO`: messages over a length-delimited stream, read as the
  /// source reads them (the length is decoded after HEADER_READY bytes).
  class MessageIo {
    const inner: LengthDelimited

    ghost predicate Valid()
      reads inner
    {
      inner.Valid() && inner.ready == HEADER_READY
    }

    /// `MessageIO::new`.
    constructor (incoming: seq<ReadEvent>, writeScript: seq<WriteEvent>)
      ensures Valid() && fresh(inner)
      ensures inner.readState == DEFAULT_STATE && inner.readBuffer == [] && inner.writeBuffer == []
      ensures inner.incoming == incoming && inner.writeScript == writeScript
      ensures inner.written == [] && !inner.closed
    {
      inner := new LengthDelimited(HEADER_READY, incoming, writeScript);
    }

    /// `Sink::start_send`: the frame of the message's encoding is queued,
    /// unless the codec refuses it as too large.
    method StartSend(m: Message) returns (res: Result<(), ProtocolError>)
      modifies inner`writeBuffer
      ensures |Encode(m)| > MAX_FRAME_SIZE ==>
                res == Err(ProtocolIoError(FRAME_TOO_LARGE)) && inner.writeBuffer == old(inner.writeBuffer)
      ensures |Encode(m)| <= MAX_FRAME_SIZE ==>
                res == Ok(()) && inner.writeBuffer == old(inner.writeBuffer) + Frame(Encode(m))
    {
      var r := inner.StartSend(Encode(m));
      if r.Err? {
        return Err(ProtocolIoError(r.error));
      }
      return Ok(());
    }

    /// `Sink::poll_ready`.
    method PollReady() returns (res: Poll<Result<(), ProtocolError>>)
      modifies inner`writeBuffer, inner`writeScript, inner`written
      ensures |old(inner.writeBuffer)| < MAX_FRAME_SIZE ==>
                res == Ready(Ok(())) && inner.writeBuffer == old(inner.writeBuffer)
                && inner.writeScript == old(inner.writeScript) && inner.written == old(inner.written)
      ensures |old(inner.writeBuffer)| >= MAX_FRAME_SIZE ==>
                var d := Drain(old(inner.writeBuffer), old(inner.writeScript));
                res == MapIo(d.0) && inner.written == old(inner.written) + d.1
                && inner.writeBuffer == d.2 && inner.writeScript == d.3
    {
      var r := inner.PollReady();
      res := MapIo(r);
    }

    /// `Sink::poll_flush`.
    method PollFlush() returns (res: Poll<Result<(), ProtocolError>>)
      modifies inner`writeBuffer, inner`writeScript, inner`written
      ensures var d := Drain(old(inner.writeBuffer), old(inner.writeScript));
              res == MapIo(d.0) && inner.written == old(inner.written) + d.1
              && inner.writeBuffer == d.2 && inner.writeScript == d.3
    {
      var r := inner.PollFlush();
      res := MapIo(r);
    }

    /// `Sink::poll_close`.
    method PollClose() returns (res: Poll<Result<(), ProtocolError>>)
      modifies inner`writeBuffer, inner`writeScript, inner`written, inner`closed
      ensures var d := Drain(old(inner.writeBuffer), old(inner.writeScript));
              res == MapIo(d.0) && inner.written == old(inner.written) + d.1
              && inner.writeBuffer == d.2 && inner.writeScript == d.3
      ensures inner.closed == (res == Ready(Ok(())) || old(inner.closed))
    {
      var r := inner.PollClose();
      res := MapIo(r);
    }

    /// `Stream::poll_next`: the next frame, decoded.
    method PollNext() returns (res: Poll<Option<Result<Message, ProtocolError>>>)
      requires Valid()
      modifies inner`readState, inner`readBuffer, inner`incoming
      ensures Valid()
      ensures var n := NextFrame(HEADER_READY, old(inner.ReaderOf()));
              res == PollStream(n.0) && inner.ReaderOf() == n.1
    {
      var frame := inner.PollNext();
      res := PollStream(frame);
    }

    /// `into_inner`: only allowed with both codec buffers empty; the inner
    /// stream comes back as it stands, with nothing read or written lost.
    function IntoInner(): (io: InnerIo)
      reads inner
      requires inner.readBuffer == [] && inner.writeBuffer == []
      ensures io.incoming == inner.incoming && io.written == inner.written
      ensures io.writeScript == inner.writeScript
    {
      inner.IntoInner()
    }
  }

  /// As the source reads: a message sent with `start_send` is the next
  /// message `poll_next` returns when the first read brings its whole
  /// header, however the rest of its frame is split.
  lemma MessageRoundTrip(m: Message, chunks: seq<ReadEvent>, rest: seq<ReadEvent>)
    requires |Encode(m)| <= MAX_FRAME_SIZE && Delivers(chunks, Frame(Encode(m)))
    requires |chunks[0].data| >= MAX_LENGTH_SIZE
    ensures var n := NextFrame(HEADER_READY, Reader(DEFAULT_STATE, [], chunks + rest));
            PollStream(n.0) == Ready(Some(Ok(m))) && n.1 == Reader(DEFAULT_STATE, [], rest)
  {
    FrameRoundTrip(Encode(m), chunks, rest);
    DecodeEncode(m);
  }

  /// With the intended reader, a message sent with `start_send` and
  /// delivered in any non-empty chunks is the next message `poll_next`
  /// returns.
  lemma IntendedMessageRoundTrip(m: Message, chunks: seq<ReadEvent>, rest: seq<ReadEvent>)
    requires |Encode(m)| <= MAX_FRAME_SIZE && Delivers(chunks, Frame(Encode(m)))
    ensures var n := NextFrame(MAX_LENGTH_SIZE, Reader(DEFAULT_STATE, [], chunks + rest));
            PollStream(n.0) == Ready(Some(Ok(m))) && n.1 == Reader(DEFAULT_STATE, [], rest)
  {
    IntendedFrameRoundTrip(Encode(m), chunks, rest);
    DecodeEncode(m);
  }
}
