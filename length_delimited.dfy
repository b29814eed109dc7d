// The length-prefixed framing of the negotiation protocol
// (`LengthDelimited`): every frame is a 4-byte big-endian length followed by
// that many payload bytes. Reading is a small state machine over the bytes
// the inner stream delivers; writing appends frames to a buffer that is
// drained into the inner stream.
module LengthDelimitedCodec {
  import opened Wrappers
  import opened Bytes
  import opened Io

  const MAX_LENGTH_SIZE: nat := 4
  /// `u32::MAX >> MAX_LENGTH_SIZE`.
  const MAX_FRAME_SIZE: nat := 0x0FFF_FFFF
  /// The source's reader decodes the length once this many header bytes
  /// are in (`if *pos <= 1 { continue }`), not once all four are. The
  /// intended threshold is MAX_LENGTH_SIZE.
  const HEADER_READY: nat := 2

  datatype ReadState =
    | ReadLength(buf: seq<byte>, pos: nat)
    | ReadData(len: nat, pos: nat)

  /// `ReadState::default()`.
  const DEFAULT_STATE: ReadState := ReadLength([0, 0, 0, 0], 0)

  const UNEXPECTED_EOF: IoError := IoError(UnexpectedEof, "unexpected end of stream")
  const WRITE_ZERO: IoError := IoError(WriteZero, "write zero bytes")
  const FRAME_TOO_LARGE: IoError := IoError(InvalidData, "Maximum frame size exceeded.")

  function Zeros(n: nat): (z: seq<byte>)
    ensures |z| == n && forall i :: 0 <= i < n ==> z[i] == 0
  {
    seq(n, _ => 0)
  }

  /// The bytes `start_send` appends for one payload.
  function Frame(item: seq<byte>): (f: seq<byte>)
    requires |item| <= MAX_FRAME_SIZE
    ensures |f| == MAX_LENGTH_SIZE + |item|
    ensures FromBE(f[..MAX_LENGTH_SIZE]) == |item| && f[MAX_LENGTH_SIZE..] == item
  {
    var h := U32ToBE(|item|);
    assert (h + item)[..4] == h && (h + item)[4..] == item;
    h + item
  }

  // ---------------------------------------------------------------------
  // Reading

  /// The reading half of the codec: its state, the data buffer and what the
  /// inner stream has still to deliver.
  datatype Reader = Reader(state: ReadState, buffer: seq<byte>, incoming: seq<ReadEvent>)

  type FrameResult = Poll<Option<Result<seq<byte>, IoError>>>

  /// What holds between polls when the length is decoded after `ready`
  /// header bytes: in ReadLength fewer than `ready` bytes are in, the unread
  /// part of the header buffer is zero and the data buffer is empty; in
  /// ReadData the data buffer has the frame's length and is not full yet.
  predicate ReaderValid(r: Reader, ready: nat)
  {
    match r.state
    case ReadLength(buf, pos) =>
      |buf| == MAX_LENGTH_SIZE && pos < ready && r.buffer == []
      && forall i :: pos <= i < MAX_LENGTH_SIZE ==> buf[i] == 0
    case ReadData(len, pos) =>
      1 <= len && pos < len && |r.buffer| == len
  }

  /// One turn of the `poll_next` loop: either the poll is over with an
  /// item, or the loop goes round again.
  datatype Step = Yield(item: FrameResult, next: Reader) | Continue(next: Reader)

  /// One turn of the read loop of a reader that decodes the length after
  /// `ready` header bytes. The source as written uses HEADER_READY; the
  /// intended reader uses MAX_LENGTH_SIZE.
  function ReadStep(ready: nat, r: Reader): (s: Step)
    requires 2 <= ready <= MAX_LENGTH_SIZE
    requires ReaderValid(r, ready)
    ensures ReaderValid(s.next, ready)
    ensures s.Continue? ==> ScriptSize(s.next.incoming) < ScriptSize(r.incoming)
  {
    match r.state
    case ReadLength(buf, pos) => LengthStep(ready, buf, pos, r.incoming)
    case ReadData(len, pos) => DataStep(ready, len, pos, r.buffer, r.incoming)
  }

  /// The ReadLength arm: read at most the rest of the header, and decode the
  /// length once `ready` header bytes are in.
  function LengthStep(ready: nat, buf: seq<byte>, pos: nat, incoming: seq<ReadEvent>): (s: Step)
    requires 2 <= ready <= MAX_LENGTH_SIZE
    requires ReaderValid(Reader(ReadLength(buf, pos), [], incoming), ready)
    ensures ReaderValid(s.next, ready)
    ensures s.Continue? ==> ScriptSize(s.next.incoming) < ScriptSize(incoming)
  {
    var (polled, rest) := PollRead(incoming, MAX_LENGTH_SIZE - pos);
    var waiting := Reader(ReadLength(buf, pos), [], rest);
    match polled
    case Pending => Yield(Pending, waiting)
    case Ready(Err(e)) => Yield(Ready(Some(Err(e))), waiting)
    case Ready(Ok(data)) =>
      if pos == 0 && data == [] then Yield(Ready(None), waiting)
      else if data == [] then Yield(Ready(Some(Err(UNEXPECTED_EOF))), waiting)
      else
        var pos' := pos + |data|;
        var buf' := buf[..pos] + data + buf[pos'..];
        if pos' < ready then Continue(Reader(ReadLength(buf', pos'), [], rest))
        else
          var len := FromBE(buf');
          if len >= 1 then Continue(Reader(ReadData(len, 0), Zeros(len), rest))
          else Yield(Ready(Some(Ok([]))), Reader(DEFAULT_STATE, [], rest))
  }

  /// The ReadData arm: read at most the rest of the payload into the data
  /// buffer, and return the frame once it is full.
  function DataStep(ready: nat, len: nat, pos: nat, buffer: seq<byte>, incoming: seq<ReadEvent>): (s: Step)
    requires 2 <= ready <= MAX_LENGTH_SIZE
    requires ReaderValid(Reader(ReadData(len, pos), buffer, incoming), ready)
    ensures ReaderValid(s.next, ready)
    ensures s.Continue? ==> ScriptSize(s.next.incoming) < ScriptSize(incoming)
  {
    var (polled, rest) := PollRead(incoming, len - pos);
    var waiting := Reader(ReadData(len, pos), buffer, rest);
    match polled
    case Pending => Yield(Pending, waiting)
    case Ready(Err(e)) => Yield(Ready(Some(Err(e))), waiting)
    case Ready(Ok(data)) =>
      if data == [] then Yield(Ready(Some(Err(UNEXPECTED_EOF))), waiting)
      else
        var pos' := pos + |data|;
        var buffer' := buffer[..pos] + data + buffer[pos'..];
        if pos' == len then Yield(Ready(Some(Ok(buffer'))), Reader(DEFAULT_STATE, [], rest))
        else Continue(Reader(ReadData(len, pos'), buffer', rest))
  }

  /// One `poll_next`: the item it yields and the reader afterwards.
  function NextFrame(ready: nat, r: Reader): (res: (FrameResult, Reader))
    requires 2 <= ready <= MAX_LENGTH_SIZE
    requires ReaderValid(r, ready)
    ensures ReaderValid(res.1, ready)
    decreases ScriptSize(r.incoming)
  {
    match ReadStep(ready, r)
    case Yield(item, next) => (item, next)
    case Continue(next) => NextFrame(ready, next)
  }

  // ---------------------------------------------------------------------
  // Writing

  /// `poll_write_buffer` on a write buffer and a write script: the poll
  /// result, the bytes handed to the inner stream, the bytes left in the
  /// buffer and the rest of the script.
  function Drain(buffer: seq<byte>, script: seq<WriteEvent>)
    : (r: (Poll<Result<(), IoError>>, seq<byte>, seq<byte>, seq<WriteEvent>))
    ensures r.1 + r.2 == buffer
    ensures r.0.Ready? && r.0.value.Ok? <==> r.2 == []
    decreases |buffer|
  {
    if buffer == [] then (Ready(Ok(())), [], [], script)
    else
      var (polled, rest) := PollWrite(script, buffer);
      match polled
      case Pending => (Pending, [], buffer, rest)
      case Ready(Err(e)) => (Ready(Err(e)), [], buffer, rest)
      case Ready(Ok(n)) =>
        if n == 0 then (Ready(Err(WRITE_ZERO)), [], buffer, rest)
        else
          var d := Drain(buffer[n..], rest);
          assert buffer == buffer[..n] + buffer[n..];
          (d.0, buffer[..n] + d.1, d.2, d.3)
  }

  /// What is left of a drain, after `sent` went out, finishes the drain
  /// `d`.
  predicate DrainsTo(buffer: seq<byte>, script: seq<WriteEvent>, sent: seq<byte>,
                     d: (Poll<Result<(), IoError>>, seq<byte>, seq<byte>, seq<WriteEvent>))
  {
    var e := Drain(buffer, script);
    e.0 == d.0 && sent + e.1 == d.1 && e.2 == d.2 && e.3 == d.3
  }

  lemma DrainsToStep(b0: seq<byte>, s0: seq<WriteEvent>, b1: seq<byte>, s1: seq<WriteEvent>, piece: seq<byte>,
                     sent: seq<byte>, d: (Poll<Result<(), IoError>>, seq<byte>, seq<byte>, seq<WriteEvent>))
    requires DrainsTo(b0, s0, sent, d)
    requires var e := Drain(b1, s1); Drain(b0, s0) == (e.0, piece + e.1, e.2, e.3)
    ensures DrainsTo(b1, s1, sent + piece, d)
  {
    PrefixStep(sent, piece, Drain(b0, s0).1, Drain(b1, s1).1);
  }

  lemma DrainsToEnd(b: seq<byte>, s: seq<WriteEvent>, sent: seq<byte>,
                    d: (Poll<Result<(), IoError>>, seq<byte>, seq<byte>, seq<WriteEvent>))
    requires DrainsTo(b, s, sent, d) && Drain(b, s).1 == []
    ensures d == (Drain(b, s).0, sent, Drain(b, s).2, Drain(b, s).3)
  {
    assert sent + [] == sent;
  }

  /// Moving a piece from what is still to be handed out to what was.
  lemma PrefixStep(sent: seq<byte>, piece: seq<byte>, before: seq<byte>, after: seq<byte>)
    requires before == piece + after
    ensures (sent + piece) + after == sent + before
  {
  }

  /// The inner stream once the codec is taken apart.
  datatype InnerIo = InnerIo(incoming: seq<ReadEvent>, writeScript: seq<WriteEvent>, written: seq<byte>)

  class LengthDelimited {
    /// How many header bytes the reader waits for before decoding the
    /// length: HEADER_READY as the source reads, MAX_LENGTH_SIZE as
    /// intended.
    const ready: nat
    var readState: ReadState
    var readBuffer: seq<byte>
    var writeBuffer: seq<byte>
    /// What the inner stream will deliver to reads.
    var incoming: seq<ReadEvent>
    /// How the inner stream will answer writes.
    var writeScript: seq<WriteEvent>
    /// Everything the inner stream has accepted so far.
    var written: seq<byte>
    /// Whether the inner stream has been closed.
    var closed: bool

    ghost predicate Valid()
      reads this
    {
      2 <= ready <= MAX_LENGTH_SIZE && ReaderValid(Reader(readState, readBuffer, incoming), ready)
    }

    function ReaderOf(): Reader
      reads this
    {
      Reader(readState, readBuffer, incoming)
    }

    /// `LengthDelimited::new(inner)`, reading with the threshold `ready`.
    constructor (ready: nat, incoming: seq<ReadEvent>, writeScript: seq<WriteEvent>)
      requires ready == HEADER_READY || ready == MAX_LENGTH_SIZE
      ensures Valid() && this.ready == ready
      ensures readState == DEFAULT_STATE && readBuffer == [] && writeBuffer == []
      ensures this.incoming == incoming && this.writeScript == writeScript
      ensures written == [] && !closed
    {
      this.ready := ready;
      readState := DEFAULT_STATE;
      readBuffer := [];
      writeBuffer := [];
      this.incoming := incoming;
      this.writeScript := writeScript;
      written := [];
      closed := false;
    }

    /// `into_inner`: only allowed (asserted) when both buffers are empty.
    function IntoInner(): (io: InnerIo)
      reads this
      requires readBuffer == [] && writeBuffer == []
      ensures io.incoming == incoming && io.written == written
      ensures io.writeScript == writeScript
    {
      InnerIo(incoming, writeScript, written)
    }

    /// `Stream::poll_next`: reads until a frame is complete, the inner
    /// stream is not ready, fails or ends. The length is decoded once
    /// `ready` header bytes are in.
    method PollNext() returns (res: FrameResult)
      requires Valid()
      modifies this`readState, this`readBuffer, this`incoming
      ensures Valid()
      ensures (res, ReaderOf()) == NextFrame(ready, old(ReaderOf()))
    {
      while true
        invariant Valid()
        invariant NextFrame(ready, ReaderOf()) == NextFrame(ready, old(ReaderOf()))
        decreases ScriptSize(incoming)
      {
        var item := ReadOnce();
        if item.Some? {
          return item.value;
        }
      }
    }

    /// The body of the `poll_next` loop: one read from the inner stream and
    /// the state change it causes; `Some(item)` when the poll returns.
    method ReadOnce() returns (item: Option<FrameResult>)
      requires Valid()
      modifies this`readState, this`readBuffer, this`incoming
      ensures Valid()
      ensures var s := ReadStep(ready, old(ReaderOf()));
              ReaderOf() == s.next && item == (if s.Yield? then Some(s.item) else None)
    {
      if readState.ReadLength? {
        item := ReadHeader();
      } else {
        item := ReadPayload();
      }
    }

    /// The ReadLength arm of the loop body.
    method ReadHeader() returns (item: Option<FrameResult>)
      requires Valid() && readState.ReadLength?
      modifies this`readState, this`readBuffer, this`incoming
      ensures Valid()
      ensures var s := LengthStep(ready, old(readState.buf), old(readState.pos), old(incoming));
              ReaderOf() == s.next && item == (if s.Yield? then Some(s.item) else None)
    {
      var buf, pos := readState.buf, readState.pos;
      var (polled, rest) := PollRead(incoming, MAX_LENGTH_SIZE - pos);
      incoming := rest;
      if polled.Pending? {
        return Some(Pending);
      }
      if polled.value.Err? {
        return Some(Ready(Some(Err(polled.value.error))));
      }
      var data := polled.value.value;
      if pos == 0 && |data| == 0 {
        return Some(Ready(None));
      } else if |data| == 0 {
        return Some(Ready(Some(Err(UNEXPECTED_EOF))));
      }
      var pos' := pos + |data|;
      var buf' := buf[..pos] + data + buf[pos'..];
      readState := ReadLength(buf', pos');
      if pos' < ready {
        return None;
      }
      var len := FromBE(buf');
      if len >= 1 {
        readState := ReadData(len, 0);
        readBuffer := Zeros(len);
        return None;
      }
      readState := DEFAULT_STATE;
      return Some(Ready(Some(Ok([]))));
    }

    /// The ReadData arm of the loop body.
    method ReadPayload() returns (item: Option<FrameResult>)
      requires Valid() && readState.ReadData?
      modifies this`readState, this`readBuffer, this`incoming
      ensures Valid()
      ensures var s := DataStep(ready, old(readState.len), old(readState.pos), old(readBuffer), old(incoming));
              ReaderOf() == s.next && item == (if s.Yield? then Some(s.item) else None)
    {
      var len, pos := readState.len, readState.pos;
      var (polled, rest) := PollRead(incoming, len - pos);
      incoming := rest;
      if polled.Pending? {
        return Some(Pending);
      }
      if polled.value.Err? {
        return Some(Ready(Some(Err(polled.value.error))));
      }
      var data := polled.value.value;
      if |data| == 0 {
        return Some(Ready(Some(Err(UNEXPECTED_EOF))));
      }
      var pos' := pos + |data|;
      readBuffer := readBuffer[..pos] + data + readBuffer[pos'..];
      readState := ReadData(len, pos');
      if pos' == len {
        var frame := readBuffer;
        readBuffer := [];
        readState := DEFAULT_STATE;
        return Some(Ready(Some(Ok(frame))));
      }
      return None;
    }

    /// `poll_write_buffer`: hands the write buffer to the inner stream until
    /// it is empty, the stream is not ready or fails, or takes nothing.
    method PollWriteBuffer() returns (res: Poll<Result<(), IoError>>)
      modifies this`writeBuffer, this`writeScript, this`written
      ensures var d := Drain(old(writeBuffer), old(writeScript));
              res == d.0 && written == old(written) + d.1
              && writeBuffer == d.2 && writeScript == d.3
    {
      ghost var d := Drain(writeBuffer, writeScript);
      ghost var sent: seq<byte> := [];
      assert DrainsTo(writeBuffer, writeScript, sent, d);
      while writeBuffer != []
        invariant written == old(written) + sent
        invariant DrainsTo(writeBuffer, writeScript, sent, d)
        decreases |writeBuffer|
      {
        ghost var buffer0, script0 := writeBuffer, writeScript;
        var done := WriteOnce();
        if done.Some? {
          DrainsToEnd(buffer0, script0, sent, d);
          return done.value;
        }
        ghost var n := |buffer0| - |writeBuffer|;
        DrainsToStep(buffer0, script0, writeBuffer, writeScript, buffer0[..n], sent, d);
        sent := sent + buffer0[..n];
      }
      DrainsToEnd(writeBuffer, writeScript, sent, d);
      return Ready(Ok(()));
    }

    /// One turn of the `poll_write_buffer` loop: one write to the inner
    /// stream; `Some(res)` when the poll returns. A write that takes no
    /// bytes is a WriteZero error; one that takes some removes them from
    /// the front of the buffer.
    method WriteOnce() returns (done: Option<Poll<Result<(), IoError>>>)
      requires writeBuffer != []
      modifies this`writeBuffer, this`writeScript, this`written
      ensures writeScript == PollWrite(old(writeScript), old(writeBuffer)).1
      ensures PollWrite(old(writeScript), old(writeBuffer)).0 == Ready(Ok(0)) ==> done == Some(Ready(Err(WRITE_ZERO)))
      ensures done.Some? ==>
                var d := Drain(old(writeBuffer), old(writeScript));
                done.value == d.0 && d.1 == [] && written == old(written) && writeBuffer == d.2 && writeScript == d.3
      ensures done.None? ==>
                var d := Drain(old(writeBuffer), old(writeScript));
                var e := Drain(writeBuffer, writeScript);
                var n := |old(writeBuffer)| - |writeBuffer|;
                && PollWrite(old(writeScript), old(writeBuffer)).0 == Ready(Ok(n))
                && 0 < n <= |old(writeBuffer)| && writeBuffer == old(writeBuffer)[n..]
                && written == old(written) + old(writeBuffer)[..n]
                && d == (e.0, old(writeBuffer)[..n] + e.1, e.2, e.3)
    {
      var (polled, rest) := PollWrite(writeScript, writeBuffer);
      writeScript := rest;
      if polled.Pending? {
        return Some(Pending);
      }
      if polled.value.Err? {
        return Some(Ready(Err(polled.value.error)));
      }
      var n := polled.value.value;
      if n == 0 {
        return Some(Ready(Err(WRITE_ZERO)));
      }
      written := written + writeBuffer[..n];
      writeBuffer := writeBuffer[n..];
      return None;
    }

    /// `poll_write` of `LengthDelimitedReader`: drains the frame buffer,
    /// then writes `buf` unframed to the inner stream.
    method PollWriteRaw(buf: seq<byte>) returns (res: Poll<Result<nat, IoError>>)
      modifies this`writeBuffer, this`writeScript, this`written
      ensures var d := Drain(old(writeBuffer), old(writeScript));
              if d.0.Pending? || d.0.value.Err? then
                res == (if d.0.Pending? then Pending else Ready(Err(d.0.value.error)))
                && written == old(written) + d.1 && writeBuffer == d.2 && writeScript == d.3
              else
                var (polled, rest) := PollWrite(d.3, buf);
                res == polled && writeBuffer == [] && writeScript == rest
                && written == old(written) + old(writeBuffer)
                             + (if polled.Ready? && polled.value.Ok? then buf[..polled.value.value] else [])
    {
      var drained := PollWriteBuffer();
      if drained.Pending? {
        return Pending;
      }
      if drained.value.Err? {
        return Ready(Err(drained.value.error));
      }
      var (polled, rest) := PollWrite(writeScript, buf);
      writeScript := rest;
      if polled.Ready? && polled.value.Ok? {
        written := written + buf[..polled.value.value];
      }
      res := polled;
    }

    /// `Sink::poll_ready`: drains the buffer first only once it holds at
    /// least MAX_FRAME_SIZE bytes.
    method PollReady() returns (res: Poll<Result<(), IoError>>)
      modifies this`writeBuffer, this`writeScript, this`written
      ensures |old(writeBuffer)| < MAX_FRAME_SIZE ==>
                res == Ready(Ok(())) && writeBuffer == old(writeBuffer)
                && writeScript == old(writeScript) && written == old(written)
      ensures |old(writeBuffer)| >= MAX_FRAME_SIZE ==>
                var d := Drain(old(writeBuffer), old(writeScript));
                res == d.0 && written == old(written) + d.1 && writeBuffer == d.2 && writeScript == d.3
    {
      if |writeBuffer| >= MAX_FRAME_SIZE {
        res := PollWriteBuffer();
      } else {
        res := Ready(Ok(()));
      }
    }

    /// `Sink::start_send`: appends one frame, or refuses a payload longer
    /// than MAX_FRAME_SIZE.
    method StartSend(item: seq<byte>) returns (res: Result<(), IoError>)
      modifies this`writeBuffer
      ensures |item| > MAX_FRAME_SIZE ==>
                res == Err(FRAME_TOO_LARGE) && writeBuffer == old(writeBuffer)
      ensures |item| <= MAX_FRAME_SIZE ==>
                res == Ok(()) && writeBuffer == old(writeBuffer) + Frame(item)
    {
      if |item| > MAX_FRAME_SIZE {
        return Err(FRAME_TOO_LARGE);
      }
      writeBuffer := writeBuffer + U32ToBE(|item|) + item;
      return Ok(());
    }

    /// `Sink::poll_flush`: drains the buffer, then flushes the inner stream
    /// (which the model takes to be immediate).
    method PollFlush() returns (res: Poll<Result<(), IoError>>)
      modifies this`writeBuffer, this`writeScript, this`written
      ensures var d := Drain(old(writeBuffer), old(writeScript));
              res == d.0 && written == old(written) + d.1 && writeBuffer == d.2 && writeScript == d.3
      ensures res == Ready(Ok(())) ==> writeBuffer == []
    {
      res := PollWriteBuffer();
    }

    /// `Sink::poll_close`: drains the buffer, then closes the inner stream.
    method PollClose() returns (res: Poll<Result<(), IoError>>)
      modifies this`writeBuffer, this`writeScript, this`written, this`closed
      ensures var d := Drain(old(writeBuffer), old(writeScript));
              res == d.0 && written == old(written) + d.1 && writeBuffer == d.2 && writeScript == d.3
      ensures closed == (res == Ready(Ok(())) || old(closed))
    {
      res := PollWriteBuffer();
      if res == Ready(Ok(())) {
        closed := true;
      }
    }
  }

  // ---------------------------------------------------------------------
  // Properties of the writer

  /// A sink that takes whatever it is offered receives the whole buffer,
  /// in order.
  lemma DrainIntoWillingSink(buffer: seq<byte>)
    ensures Drain(buffer, []) == (Ready(Ok(())), buffer, [], [])
  {
    if buffer != [] {
      assert buffer[|buffer|..] == [];
    }
  }

  /// A sink that takes nothing is a WriteZero error and the buffer is kept.
  lemma DrainIntoStuckSink(buffer: seq<byte>, rest: seq<WriteEvent>)
    requires buffer != []
    ensures Drain(buffer, [WriteAccept(0)] + rest) == (Ready(Err(WRITE_ZERO)), [], buffer, rest)
  {
    assert ([WriteAccept(0)] + rest)[1..] == rest;
  }

  // ---------------------------------------------------------------------
  // Properties of the reader

  lemma {:induction false} DeliversNothing(script: seq<ReadEvent>)
    requires Delivers(script, [])
    ensures script == []
  {
  }

  /// Once the length is known, a payload delivered in any non-empty
  /// chunks is returned whole when its last byte arrives, and the reader is
  /// back at its default state with the rest of the input untouched.
  lemma {:induction false} DataPhase(ready: nat, p: seq<byte>, pos: nat, buffer: seq<byte>,
                                     chunks: seq<ReadEvent>, rest: seq<ReadEvent>)
    requires 2 <= ready <= MAX_LENGTH_SIZE
    requires pos < |p| == |buffer| && buffer[..pos] == p[..pos]
    requires Delivers(chunks, p[pos..])
    ensures ReaderValid(Reader(ReadData(|p|, pos), buffer, chunks + rest), ready)
    ensures NextFrame(ready, Reader(ReadData(|p|, pos), buffer, chunks + rest))
            == (Ready(Some(Ok(p))), Reader(DEFAULT_STATE, [], rest))
    decreases |chunks|
  {
    var pos', buffer', tail := DataTurn(ready, p, pos, buffer, chunks, rest);
    if pos' < |p| {
      DataPhase(ready, p, pos', buffer', tail, rest);
    }
  }

  /// One turn of the payload phase: the reader takes the next chunk (or as
  /// much of it as the frame still needs), and either returns the payload or
  /// goes on collecting it.
  lemma DataTurn(ready: nat, p: seq<byte>, pos: nat, buffer: seq<byte>,
                 chunks: seq<ReadEvent>, rest: seq<ReadEvent>)
    returns (pos': nat, buffer': seq<byte>, tail: seq<ReadEvent>)
    requires 2 <= ready <= MAX_LENGTH_SIZE
    requires pos < |p| == |buffer| && buffer[..pos] == p[..pos]
    requires Delivers(chunks, p[pos..])
    ensures pos < pos' <= |p| == |buffer'| && buffer'[..pos'] == p[..pos']
    ensures Delivers(tail, p[pos'..]) && (pos' == |p| || |tail| < |chunks|)
    ensures ReaderValid(Reader(ReadData(|p|, pos), buffer, chunks + rest), ready)
    ensures pos' == |p| ==>
              NextFrame(ready, Reader(ReadData(|p|, pos), buffer, chunks + rest))
              == (Ready(Some(Ok(p))), Reader(DEFAULT_STATE, [], rest))
    ensures pos' < |p| ==>
              NextFrame(ready, Reader(ReadData(|p|, pos), buffer, chunks + rest))
              == NextFrame(ready, Reader(ReadData(|p|, pos'), buffer', tail + rest))
  {
    var taken;
    taken, tail := ReadDeliveredAt(chunks, p, pos, |p| - pos, rest);
    pos' := pos + |taken|;
    assert Delivers(tail, p[pos'..]);
    buffer' := buffer[..pos] + taken + buffer[pos'..];
    DataNext(ready, |p|, pos, buffer, chunks + rest, taken, tail + rest);
    Advance(p, buffer, pos, taken);
    if pos' == |p| {
      assert buffer' == p;
    }
  }

  /// `poll_next` in the payload phase after a read of some bytes.
  lemma DataNext(ready: nat, len: nat, pos: nat, buffer: seq<byte>, incoming: seq<ReadEvent>,
                 data: seq<byte>, after: seq<ReadEvent>)
    requires 2 <= ready <= MAX_LENGTH_SIZE
    requires ReaderValid(Reader(ReadData(len, pos), buffer, incoming), ready)
    requires PollRead(incoming, len - pos) == (Ready(Ok(data)), after) && data != []
    ensures var pos' := pos + |data|;
            var buffer' := buffer[..pos] + data + buffer[pos'..];
            NextFrame(ready, Reader(ReadData(len, pos), buffer, incoming))
            == if pos' == len then (Ready(Some(Ok(buffer'))), Reader(DEFAULT_STATE, [], after))
               else NextFrame(ready, Reader(ReadData(len, pos'), buffer', after))
  {
    DataReadStep(ready, len, pos, buffer, incoming, data, after);
    NextFrameUnfold(ready, Reader(ReadData(len, pos), buffer, incoming));
  }

  /// A read of some payload bytes either completes the frame or leaves the
  /// reader collecting it.
  lemma DataReadStep(ready: nat, len: nat, pos: nat, buffer: seq<byte>, incoming: seq<ReadEvent>,
                     data: seq<byte>, after: seq<ReadEvent>)
    requires 2 <= ready <= MAX_LENGTH_SIZE
    requires ReaderValid(Reader(ReadData(len, pos), buffer, incoming), ready)
    requires PollRead(incoming, len - pos) == (Ready(Ok(data)), after) && data != []
    ensures var pos' := pos + |data|;
            var buffer' := buffer[..pos] + data + buffer[pos'..];
            DataStep(ready, len, pos, buffer, incoming)
            == if pos' == len then Yield(Ready(Some(Ok(buffer'))), Reader(DEFAULT_STATE, [], after))
               else Continue(Reader(ReadData(len, pos'), buffer', after))
  {
  }

  /// A read that fills the whole header from the default state decodes
  /// the length from all four bytes.
  lemma WholeHeaderStep(ready: nat, incoming: seq<ReadEvent>, h: seq<byte>, after: seq<ReadEvent>)
    requires 2 <= ready <= MAX_LENGTH_SIZE && |h| == MAX_LENGTH_SIZE
    requires PollRead(incoming, MAX_LENGTH_SIZE) == (Ready(Ok(h)), after)
    ensures ReadStep(ready, Reader(DEFAULT_STATE, [], incoming))
            == if FromBE(h) >= 1 then Continue(Reader(ReadData(FromBE(h), 0), Zeros(FromBE(h)), after))
               else Yield(Ready(Some(Ok([]))), Reader(DEFAULT_STATE, [], after))
  {
    assert [0, 0, 0, 0][..0] + h + [0, 0, 0, 0][4..] == h;
  }

  /// Round trip of `start_send` and `poll_next` as the source reads: when
  /// the first read brings at least the four header bytes, a frame written
  /// by `start_send` and delivered in any non-empty chunks is read back as
  /// the original payload.
  lemma FrameRoundTrip(p: seq<byte>, chunks: seq<ReadEvent>, rest: seq<ReadEvent>)
    requires |p| <= MAX_FRAME_SIZE
    requires Delivers(chunks, Frame(p)) && |chunks[0].data| >= MAX_LENGTH_SIZE
    ensures NextFrame(HEADER_READY, Reader(DEFAULT_STATE, [], chunks + rest))
            == (Ready(Some(Ok(p))), Reader(DEFAULT_STATE, [], rest))
  {
    var f := Frame(p);
    var taken, tail := ReadDelivered(chunks, f, MAX_LENGTH_SIZE, rest);
    assert f[4..] == p;
    WholeHeaderStep(HEADER_READY, chunks + rest, f[..4], tail + rest);
    if p == [] {
      DeliversNothing(tail);
    } else {
      DataPhase(HEADER_READY, p, 0, Zeros(|p|), tail, rest);
    }
  }

  /// A read of zero bytes before any header byte is the clean end of the
  /// stream.
  lemma EndOfStreamAtFrameBoundary(ready: nat, buf: seq<byte>, rest: seq<ReadEvent>)
    requires 2 <= ready <= MAX_LENGTH_SIZE
    requires ReaderValid(Reader(ReadLength(buf, 0), [], [ReadEof] + rest), ready)
    ensures NextFrame(ready, Reader(ReadLength(buf, 0), [], [ReadEof] + rest)).0 == Ready(None)
  {
  }

  /// A read of zero bytes inside a header or a payload is an error.
  lemma EndOfStreamInsideFrame(ready: nat, r: Reader, rest: seq<ReadEvent>)
    requires 2 <= ready <= MAX_LENGTH_SIZE
    requires r.incoming == [ReadEof] + rest && ReaderValid(r, ready) && r.state.pos > 0
    ensures NextFrame(ready, r).0 == Ready(Some(Err(UNEXPECTED_EOF)))
  {
  }

  /// With the source's threshold the length is decoded from the first two
  /// header bytes, the two bytes not yet read counting as zero.
  lemma LengthFromTwoHeaderBytes(b0: byte, b1: byte, rest: seq<ReadEvent>)
    ensures var s := ReadStep(HEADER_READY, Reader(DEFAULT_STATE, [], [ReadBytes([b0, b1])] + rest));
            var len := b0 * 0x100_0000 + b1 * 0x1_0000;
            if len == 0 then s == Yield(Ready(Some(Ok([]))), Reader(DEFAULT_STATE, [], rest))
            else s == Continue(Reader(ReadData(len, 0), Zeros(len), rest))
  {
    var buf' := [0, 0, 0, 0][..0] + [b0, b1] + [0, 0, 0, 0][2..];
    assert buf' == [b0, b1, 0, 0];
    assert FromBE([b0, b1, 0, 0]) == b0 * 0x100_0000 + b1 * 0x1_0000 by {
      assert [b0, b1, 0, 0][..3] == [b0, b1, 0];
      assert [b0, b1, 0][..2] == [b0, b1];
      assert [b0, b1][..1] == [b0];
      assert [b0][..0] == [];
      assert FromBE([b0]) == b0;
      assert FromBE([b0, b1]) == b0 * 256 + b1;
      assert FromBE([b0, b1, 0]) == (b0 * 256 + b1) * 256;
    }
  }

  /// A read of some header bytes either leaves the reader collecting the
  /// header or decodes the length from the header buffer.
  lemma HeaderReadStep(ready: nat, buf: seq<byte>, pos: nat, incoming: seq<ReadEvent>,
                       data: seq<byte>, after: seq<ReadEvent>)
    requires 2 <= ready <= MAX_LENGTH_SIZE
    requires ReaderValid(Reader(ReadLength(buf, pos), [], incoming), ready)
    requires PollRead(incoming, MAX_LENGTH_SIZE - pos) == (Ready(Ok(data)), after) && data != []
    ensures var pos' := pos + |data|;
            var buf' := buf[..pos] + data + buf[pos'..];
            var len := FromBE(buf');
            LengthStep(ready, buf, pos, incoming)
            == if pos' < ready then Continue(Reader(ReadLength(buf', pos'), [], after))
               else if len >= 1 then Continue(Reader(ReadData(len, 0), Zeros(len), after))
               else Yield(Ready(Some(Ok([]))), Reader(DEFAULT_STATE, [], after))
  {
  }

  /// The intended reader, which decodes the length only once all four
  /// header bytes are in, reads back every frame `start_send` writes, in
  /// whatever non-empty chunks the inner stream delivers it.
  lemma {:induction false} HeaderPhase(p: seq<byte>, buf: seq<byte>, pos: nat,
                                       chunks: seq<ReadEvent>, rest: seq<ReadEvent>)
    requires |p| <= MAX_FRAME_SIZE
    requires |buf| == MAX_LENGTH_SIZE && pos < MAX_LENGTH_SIZE && buf[..pos] == Frame(p)[..pos]
    requires forall i :: pos <= i < MAX_LENGTH_SIZE ==> buf[i] == 0
    requires Delivers(chunks, Frame(p)[pos..])
    ensures ReaderValid(Reader(ReadLength(buf, pos), [], chunks + rest), MAX_LENGTH_SIZE)
    ensures NextFrame(MAX_LENGTH_SIZE, Reader(ReadLength(buf, pos), [], chunks + rest))
            == (Ready(Some(Ok(p))), Reader(DEFAULT_STATE, [], rest))
    decreases |chunks|
  {
    var f := Frame(p);
    var pos', buf', tail := HeaderTurn(f, buf, pos, chunks, rest);
    if pos' < MAX_LENGTH_SIZE {
      HeaderPhase(p, buf', pos', tail, rest);
    } else {
      assert f[pos'..] == p;
      if p == [] {
        DeliversNothing(tail);
        assert tail + rest == rest;
      } else {
        assert p[0..] == p;
        DataPhase(MAX_LENGTH_SIZE, p, 0, Zeros(|p|), tail, rest);
      }
    }
  }

  /// One turn of the header phase of the intended reader, on a script that
  /// delivers the bytes of `f` from `pos` on: the reader takes the next
  /// chunk (or as much of it as the header still needs), and either goes on
  /// collecting the header or decodes the length from the first four bytes
  /// of `f`.
  lemma HeaderTurn(f: seq<byte>, buf: seq<byte>, pos: nat, chunks: seq<ReadEvent>, rest: seq<ReadEvent>)
    returns (pos': nat, buf': seq<byte>, tail: seq<ReadEvent>)
    requires |buf| == MAX_LENGTH_SIZE <= |f| && pos < MAX_LENGTH_SIZE && buf[..pos] == f[..pos]
    requires forall i :: pos <= i < MAX_LENGTH_SIZE ==> buf[i] == 0
    requires Delivers(chunks, f[pos..])
    ensures pos < pos' <= MAX_LENGTH_SIZE == |buf'| && buf'[..pos'] == f[..pos']
    ensures forall i :: pos' <= i < MAX_LENGTH_SIZE ==> buf'[i] == 0
    ensures Delivers(tail, f[pos'..]) && (pos' == MAX_LENGTH_SIZE || |tail| < |chunks|)
    ensures ReaderValid(Reader(ReadLength(buf, pos), [], chunks + rest), MAX_LENGTH_SIZE)
    ensures pos' < MAX_LENGTH_SIZE ==>
              NextFrame(MAX_LENGTH_SIZE, Reader(ReadLength(buf, pos), [], chunks + rest))
              == NextFrame(MAX_LENGTH_SIZE, Reader(ReadLength(buf', pos'), [], tail + rest))
    ensures pos' == MAX_LENGTH_SIZE ==>
              var len := FromBE(f[..MAX_LENGTH_SIZE]);
              NextFrame(MAX_LENGTH_SIZE, Reader(ReadLength(buf, pos), [], chunks + rest))
              == if len >= 1 then NextFrame(MAX_LENGTH_SIZE, Reader(ReadData(len, 0), Zeros(len), tail + rest))
                 else (Ready(Some(Ok([]))), Reader(DEFAULT_STATE, [], tail + rest))
  {
    var taken;
    taken, tail := ReadDeliveredAt(chunks, f, pos, MAX_LENGTH_SIZE - pos, rest);
    pos' := pos + |taken|;
    assert Delivers(tail, f[pos'..]);
    buf' := buf[..pos] + taken + buf[pos'..];
    Advance(f, buf, pos, taken);
    assert forall i :: pos' <= i < MAX_LENGTH_SIZE ==> buf'[i] == 0;
    HeaderNext(MAX_LENGTH_SIZE, buf, pos, chunks + rest, taken, tail + rest);
    if pos' == MAX_LENGTH_SIZE {
      assert buf' == f[..MAX_LENGTH_SIZE];
    }
  }

  /// `poll_next` in the header phase after a read of some bytes.
  lemma HeaderNext(ready: nat, buf: seq<byte>, pos: nat, incoming: seq<ReadEvent>,
                   data: seq<byte>, after: seq<ReadEvent>)
    requires 2 <= ready <= MAX_LENGTH_SIZE
    requires ReaderValid(Reader(ReadLength(buf, pos), [], incoming), ready)
    requires PollRead(incoming, MAX_LENGTH_SIZE - pos) == (Ready(Ok(data)), after) && data != []
    ensures var pos' := pos + |data|;
            var buf' := buf[..pos] + data + buf[pos'..];
            var len := FromBE(buf');
            NextFrame(ready, Reader(ReadLength(buf, pos), [], incoming))
            == if pos' < ready then NextFrame(ready, Reader(ReadLength(buf', pos'), [], after))
               else if len >= 1 then NextFrame(ready, Reader(ReadData(len, 0), Zeros(len), after))
               else (Ready(Some(Ok([]))), Reader(DEFAULT_STATE, [], after))
  {
    HeaderReadStep(ready, buf, pos, incoming, data, after);
    NextFrameUnfold(ready, Reader(ReadLength(buf, pos), [], incoming));
  }

  /// Copying the next `taken` bytes of `f` into a buffer that agrees with
  /// `f` up to `pos` makes it agree up to `pos + |taken|`.
  lemma Advance(f: seq<byte>, buf: seq<byte>, pos: nat, taken: seq<byte>)
    requires pos + |taken| <= |f| && pos + |taken| <= |buf|
    requires buf[..pos] == f[..pos] && taken == f[pos..pos + |taken|]
    ensures |buf[..pos] + taken + buf[pos + |taken|..]| == |buf|
    ensures (buf[..pos] + taken + buf[pos + |taken|..])[..pos + |taken|] == f[..pos + |taken|]
    ensures forall i :: pos + |taken| <= i < |buf| ==> (buf[..pos] + taken + buf[pos + |taken|..])[i] == buf[i]
  {
    assert f[..pos + |taken|] == f[..pos] + f[pos..pos + |taken|];
  }

  /// A turn that yields ends the poll; a turn that goes round again leaves
  /// the outcome to the reader it moves to.
  lemma NextFrameUnfold(ready: nat, r: Reader)
    requires 2 <= ready <= MAX_LENGTH_SIZE && ReaderValid(r, ready)
    ensures ReadStep(ready, r).Continue? ==> NextFrame(ready, r) == NextFrame(ready, ReadStep(ready, r).next)
    ensures ReadStep(ready, r).Yield? ==> NextFrame(ready, r) == (ReadStep(ready, r).item, ReadStep(ready, r).next)
  {
  }

  /// Round trip of `start_send` and the intended `poll_next`.
  lemma IntendedFrameRoundTrip(p: seq<byte>, chunks: seq<ReadEvent>, rest: seq<ReadEvent>)
    requires |p| <= MAX_FRAME_SIZE && Delivers(chunks, Frame(p))
    ensures NextFrame(MAX_LENGTH_SIZE, Reader(DEFAULT_STATE, [], chunks + rest))
            == (Ready(Some(Ok(p))), Reader(DEFAULT_STATE, [], rest))
  {
    HeaderPhase(p, [0, 0, 0, 0], 0, chunks, rest);
  }

  /// The source's reader misreads a frame whose header arrives in two
  /// pieces: `[0, 0, 0, 1, 0x41]`, the frame of the one-byte payload
  /// `[0x41]`, delivered as `[0, 0]` and then `[0, 1, 0x41]`, is read as an
  /// empty frame, and the rest of the stream is out of step.
  lemma SplitHeaderMisread()
    ensures Frame([0x41]) == [0, 0, 0, 1, 0x41]
    ensures Delivers([ReadBytes([0, 0]), ReadBytes([0, 1, 0x41])], Frame([0x41]))
    ensures NextFrame(HEADER_READY, Reader(DEFAULT_STATE, [], [ReadBytes([0, 0]), ReadBytes([0, 1, 0x41])]))
            == (Ready(Some(Ok([]))), Reader(DEFAULT_STATE, [], [ReadBytes([0, 1, 0x41])]))
  {
    assert FromBE([0, 0, 0, 1]) == 1 by {
      assert [0, 0, 0, 1][..3] == [0, 0, 0];
      assert [0, 0, 0][..2] == [0, 0];
      assert [0, 0][..1] == [0];
    }
    ToBEOfFromBE([0, 0, 0, 1]);
    Pow256Values();
    assert U32ToBE(1) == [0, 0, 0, 1];
    assert Frame([0x41]) == [0, 0, 0, 1, 0x41];
    LengthFromTwoHeaderBytes(0, 0, [ReadBytes([0, 1, 0x41])]);
    assert [ReadBytes([0, 0])] + [ReadBytes([0, 1, 0x41])] == [ReadBytes([0, 0]), ReadBytes([0, 1, 0x41])];
  }
}
