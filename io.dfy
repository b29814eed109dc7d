// `std::io::Error` reduced to its kind and payload text, and a scripted
// model of the asynchronous byte stream (`AsyncRead` + `AsyncWrite`) that
// the framing layers sit on. The script replaces the socket: each read or
// write takes the next scripted outcome.
module Io {
  import opened Wrappers
  import opened Bytes

  datatype ErrorKind =
    | InvalidData
    | InvalidInput
    | UnexpectedEof
    | WriteZero
    | TimedOut
    | ConnectionRefused
    | BrokenPipe
    | NotConnected
    | Other

  /// An I/O error: its kind and the text of its payload.
  datatype IoError = IoError(kind: ErrorKind, message: string)

  /// `io::Error::from(kind)`: an error of that kind with no payload.
  function FromKind(kind: ErrorKind): IoError
  {
    IoError(kind, [])
  }

  // ---------------------------------------------------------------------
  // Scripted reads.

  datatype ReadEvent =
    | ReadPending                  // the read is not ready: the poll returns Pending
    | ReadFailed(err: IoError)     // the read fails with an error
    | ReadBytes(data: seq<byte>)    // these bytes arrive (a read takes as many as fit)
    | ReadEof                      // end of stream: every read from now on returns 0 bytes

  function EventSize(e: ReadEvent): nat
  {
    if e.ReadBytes? then 1 + |e.data| else 1
  }

  /// A measure that each consuming read decreases.
  function ScriptSize(s: seq<ReadEvent>): nat
  {
    if s == [] then 0 else EventSize(s[0]) + ScriptSize(s[1..])
  }

  /// `poll_read` into a buffer with room for `room` bytes: the poll result
  /// (the bytes read, possibly none for end of stream) and the rest of the
  /// script. An exhausted script means no more data has arrived yet.
  function PollRead(script: seq<ReadEvent>, room: nat)
    : (r: (Poll<Result<seq<byte>, IoError>>, seq<ReadEvent>))
    ensures r.0.Ready? && r.0.value.Ok? ==> |r.0.value.value| <= room
    ensures ScriptSize(r.1) <= ScriptSize(script)
    ensures r.0.Ready? && r.0.value.Ok? ==>
              ScriptSize(r.1) + |r.0.value.value| <= ScriptSize(script)
    ensures r.0.Ready? && r.0.value.Ok? && r.0.value.value != [] ==>
              ScriptSize(r.1) < ScriptSize(script)
    ensures r.0.Ready? && r.0.value.Ok? && r.0.value.value != [] ==>
              script[0].ReadBytes? && r.0.value.value <= script[0].data
    ensures script == [] ==> r.0.Pending? && r.1 == []
    ensures script != [] && script[0].ReadEof? ==> r == (Ready(Ok([])), script)
    ensures script != [] && script[0].ReadPending? ==> r == (Pending, script[1..])
    ensures script != [] && script[0].ReadFailed? ==> r == (Ready(Err(script[0].err)), script[1..])
  {
    if script == [] then (Pending, [])
    else
      match script[0]
      case ReadPending => (Pending, script[1..])
      case ReadFailed(e) => (Ready(Err(e)), script[1..])
      case ReadEof => (Ready(Ok([])), script)
      case ReadBytes(d) =>
        if |d| <= room then (Ready(Ok(d)), script[1..])
        else
          var rest := [ReadBytes(d[room..])] + script[1..];
          assert rest[1..] == script[1..];
          (Ready(Ok(d[..room])), rest)
  }

  /// A script that delivers exactly the bytes `s`, in order, as one or
  /// more non-empty chunks.
  predicate Delivers(script: seq<ReadEvent>, s: seq<byte>)
    decreases |script|
  {
    if script == [] then s == []
    else
      script[0].ReadBytes? && script[0].data != [] && script[0].data <= s
      && Delivers(script[1..], s[|script[0].data|..])
  }

  /// A read of at most `k` bytes from a script that delivers `s` takes a
  /// non-empty prefix of `s`, and what is left delivers the rest of `s`.
  lemma ReadDelivered(chunks: seq<ReadEvent>, s: seq<byte>, k: nat, rest: seq<ReadEvent>)
    returns (taken: seq<byte>, tail: seq<ReadEvent>)
    requires Delivers(chunks, s) && s != [] && k > 0
    ensures PollRead(chunks + rest, k) == (Ready(Ok(taken)), tail + rest)
    ensures |taken| == (if |chunks[0].data| <= k then |chunks[0].data| else k)
    ensures 0 < |taken| <= k && taken == s[..|taken|]
    ensures Delivers(tail, s[|taken|..])
    ensures |taken| < k ==> |tail| < |chunks|
  {
    var c := chunks[0].data;
    assert (chunks + rest)[0] == chunks[0] && (chunks + rest)[1..] == chunks[1..] + rest;
    assert s[|c|..] == s[|c|..];
    if |c| <= k {
      taken, tail := c, chunks[1..];
    } else {
      taken, tail := c[..k], [ReadBytes(c[k..])] + chunks[1..];
      assert [ReadBytes(c[k..])] + (chunks + rest)[1..] == tail + rest;
      assert c[k..] <= s[k..];
      assert s[k..][|c[k..]|..] == s[|c|..];
      assert tail[1..] == chunks[1..];
    }
  }

  /// `ReadDelivered` for a script that delivers the bytes of `f` from
  /// position `pos` on.
  lemma ReadDeliveredAt(chunks: seq<ReadEvent>, f: seq<byte>, pos: nat, k: nat, rest: seq<ReadEvent>)
    returns (taken: seq<byte>, tail: seq<ReadEvent>)
    requires pos < |f| && Delivers(chunks, f[pos..]) && k > 0
    ensures PollRead(chunks + rest, k) == (Ready(Ok(taken)), tail + rest)
    ensures 0 < |taken| <= k && pos + |taken| <= |f| && taken == f[pos..pos + |taken|]
    ensures Delivers(tail, f[pos + |taken|..])
    ensures |taken| < k ==> |tail| < |chunks|
  {
    taken, tail := ReadDelivered(chunks, f[pos..], k, rest);
    assert f[pos..][|taken|..] == f[pos + |taken|..];
    assert f[pos..][..|taken|] == f[pos..pos + |taken|];
  }

  // ---------------------------------------------------------------------
  // Scripted writes.

  datatype WriteEvent =
    | WritePending                 // the write is not ready
    | WriteFailed(err: IoError)    // the write fails with an error
    | WriteAccept(max: nat)        // the sink takes at most `max` bytes

  /// `poll_write` of the bytes `buf`: how many bytes the sink took, and the
  /// rest of the script. An exhausted script takes everything.
  function PollWrite(script: seq<WriteEvent>, buf: seq<byte>)
    : (r: (Poll<Result<nat, IoError>>, seq<WriteEvent>))
    ensures r.0.Ready? && r.0.value.Ok? ==> r.0.value.value <= |buf|
    ensures script != [] ==> r.1 == script[1..]
    ensures script == [] ==> r == (Ready(Ok(|buf|)), [])
  {
    if script == [] then (Ready(Ok(|buf|)), [])
    else
      match script[0]
      case WritePending => (Pending, script[1..])
      case WriteFailed(e) => (Ready(Err(e)), script[1..])
      case WriteAccept(m) => (Ready(Ok(if m <= |buf| then m else |buf|)), script[1..])
  }
}
