// `RwStreamSink` (transports/volans-ws/src/stream.rs): a stream of byte
// items and a sink of them, read and written as one byte stream. The
// inner stream and sink are outside the model: what each successive
// `try_poll_next` gives, and what `poll_ready` and `start_send` answer,
// are inputs. Reading copies from the current item through a cursor and
// fetches the next item once that one is used up; writing sends the whole
// buffer as one item.
module WsStream {
  import opened Wrappers
  import opened Bytes
  import opened Io

  /// `std::io::Cursor` over an item.
  datatype Cursor = Cursor(bytes: seq<byte>, position: nat)

  /// A cursor no further along than its item.
  predicate Wf(c: Option<Cursor>)
  {
    c.Some? ==> c.value.position <= |c.value.bytes|
  }

  /// The current item still has bytes to copy.
  predicate Usable(c: Option<Cursor>)
  {
    c.Some? && c.value.position < |c.value.bytes|
  }

  /// The bytes of the current item not read yet.
  function Remaining(c: Option<Cursor>): seq<byte>
  {
    if c.Some? && c.value.position <= |c.value.bytes| then c.value.bytes[c.value.position..] else []
  }

  /// What one `try_poll_next` of the inner stream gives.
  type Answer = Poll<Option<Result<seq<byte>, IoError>>>

  /// The bytes of the items among some answers, in order.
  function Joined(answers: seq<Answer>): seq<byte>
    decreases |answers|
  {
    if answers == [] then []
    else (if answers[0].Ready? && answers[0].value.Some? && answers[0].value.value.Ok? then answers[0].value.value.value else [])
         + Joined(answers[1..])
  }

  /// The loop of `poll_read` that finds an item to copy from: the
  /// current one while it has bytes left, otherwise the next items of
  /// the stream, skipping empty ones. It gives the cursor, the result
  /// when the loop returns instead (Pending, an error, or Ok(0) at the
  /// end of the stream), and how many answers it took. Answers that run
  /// out leave the stream Pending.
  function Fill(c: Option<Cursor>, answers: seq<Answer>): (r: (Option<Cursor>, Option<Poll<Result<nat, IoError>>>, nat))
    requires Wf(c)
    ensures r.2 <= |answers| && Wf(r.0)
    ensures r.1.None? <==> Usable(r.0)
    ensures r.1.Some? && r.1.value.Ready? && r.1.value.value.Ok? ==>
              r.1.value.value.value == 0 && r.2 > 0 && answers[r.2 - 1] == Ready(None)
    ensures r.1.Some? && r.1.value.Ready? && r.1.value.value.Err? ==>
              r.2 > 0 && answers[r.2 - 1] == Ready(Some(Err(r.1.value.value.error)))
    decreases |answers|
  {
    if Usable(c) then (c, None, 0)
    else if answers == [] then (c, Some(Pending), 0)
    else
      match answers[0]
      case Pending => (c, Some(Pending), 1)
      case Ready(None) => (c, Some(Ready(Ok(0))), 1)
      case Ready(Some(Err(e))) => (c, Some(Ready(Err(e))), 1)
      case Ready(Some(Ok(item))) =>
        var f := Fill(Some(Cursor(item, 0)), answers[1..]);
        (f.0, f.1, f.2 + 1)
  }

  /// The bytes the loop moves into the current item are those of the
  /// items it took, in order.
  lemma {:induction false} FillJoins(c: Option<Cursor>, answers: seq<Answer>)
    requires Wf(c)
    ensures var f := Fill(c, answers);
            Remaining(f.0) == Remaining(c) + Joined(answers[..f.2])
    decreases |answers|
  {
    var f := Fill(c, answers);
    if Usable(c) {
      assert answers[..0] == [];
    } else if answers == [] {
    } else {
      assert Remaining(c) == [];
      if answers[0].Ready? && answers[0].value.Some? && answers[0].value.value.Ok? {
        var item := answers[0].value.value.value;
        var g := Fill(Some(Cursor(item, 0)), answers[1..]);
        FillJoins(Some(Cursor(item, 0)), answers[1..]);
        assert answers[..g.2 + 1] == [answers[0]] + answers[1..][..g.2];
        assert answers[..g.2 + 1][1..] == answers[1..][..g.2];
      } else {
        assert answers[..1][1..] == [];
      }
    }
  }

  /// `Cursor::read` into a buffer of `bufLen` bytes: as many bytes as
  /// fit, from the cursor on.
  function Copy(c: Option<Cursor>, bufLen: nat): (r: (seq<byte>, Option<Cursor>))
    requires Usable(c)
    ensures |r.0| <= bufLen && Wf(r.1)
    ensures r.0 + Remaining(r.1) == Remaining(c)
    ensures |r.0| == if bufLen < |Remaining(c)| then bufLen else |Remaining(c)|
  {
    var b, p := c.value.bytes, c.value.position;
    var n := if bufLen < |b| - p then bufLen else |b| - p;
    assert b[p..p + n] + b[p + n..] == b[p..];
    (b[p..p + n], Some(Cursor(b, p + n)))
  }

  /// One `poll_read` into a buffer of `bufLen` bytes from cursor `c`:
  /// the result, the bytes copied, the cursor after it and how many
  /// answers of the stream it took.
  function Read(c: Option<Cursor>, answers: seq<Answer>, bufLen: nat): (r: ReadOutcome)
    requires Wf(c)
    ensures r.used <= |answers| && Wf(r.cursor) && |r.data| <= bufLen
    ensures r.result.Ready? && r.result.value.Ok? ==> r.result.value.value == |r.data|
    ensures r.result.Pending? || r.result.value.Err? ==> r.data == []
  {
    var f := Fill(c, answers);
    if f.1.Some? then ReadOutcome(f.1.value, [], f.0, f.2)
    else
      var copied := Copy(f.0, bufLen);
      ReadOutcome(Ready(Ok(|copied.0|)), copied.0, copied.1, f.2)
  }

  datatype ReadOutcome = ReadOutcome(result: Poll<Result<nat, IoError>>, data: seq<byte>, cursor: Option<Cursor>, used: nat)

  /// Each read hands out the bytes it copies and keeps the rest: what
  /// was left of the current item and the items it took, in order, are
  /// the bytes copied followed by what is left now.
  lemma ReadJoins(c: Option<Cursor>, answers: seq<Answer>, bufLen: nat)
    requires Wf(c)
    ensures var r := Read(c, answers, bufLen);
            r.data + Remaining(r.cursor) == Remaining(c) + Joined(answers[..r.used])
  {
    FillJoins(c, answers);
  }

  /// A read into a non-empty buffer reports 0 bytes only at the end of
  /// the stream.
  lemma ZeroOnlyAtEnd(c: Option<Cursor>, answers: seq<Answer>, bufLen: nat)
    requires Wf(c) && bufLen > 0
    ensures Read(c, answers, bufLen).result == Ready(Ok(0)) ==> Ready(None) in answers
  {
    var f := Fill(c, answers);
    if f.1 == Some(Ready(Ok(0))) {
      assert answers[f.2 - 1] == Ready(None);
    }
  }

  /// Handing out bytes twice, each time keeping the rest, hands them out
  /// in order.
  lemma ChainReads(d1: seq<byte>, d2: seq<byte>, r0: seq<byte>, r1: seq<byte>, r2: seq<byte>, j1: seq<byte>, j2: seq<byte>)
    requires d1 + r1 == r0 + j1 && d2 + r2 == r1 + j2
    ensures d1 + d2 + r2 == r0 + j1 + j2
  {
    assert d1 + d2 + r2 == d1 + (d2 + r2);
    assert d1 + (r1 + j2) == (d1 + r1) + j2;
  }

  /// Two reads in a row hand out the bytes of the
  /// items in order, each byte once.
  lemma ReadsInOrder(c: Option<Cursor>, first: seq<Answer>, second: seq<Answer>, bufLen: nat)
    requires Wf(c)
    ensures var r1 := Read(c, first, bufLen);
            var r2 := Read(r1.cursor, second, bufLen);
            r1.data + r2.data + Remaining(r2.cursor) == Remaining(c) + Joined(first[..r1.used]) + Joined(second[..r2.used])
  {
    var r1 := Read(c, first, bufLen);
    var r2 := Read(r1.cursor, second, bufLen);
    ReadJoins(c, first, bufLen);
    ReadJoins(r1.cursor, second, bufLen);
    ChainReads(r1.data, r2.data, Remaining(c), Remaining(r1.cursor), Remaining(r2.cursor),
               Joined(first[..r1.used]), Joined(second[..r2.used]));
  }

  /// `RwStreamSink`.
  class RwStreamSink {
    var currentItem: Option<Cursor>
    /// The items handed to the inner sink, in order.
    var sent: seq<seq<byte>>

    ghost predicate Valid()
      reads this
    {
      Wf(currentItem)
    }

    /// `RwStreamSink::new`.
    constructor()
      ensures Valid() && currentItem.None? && sent == []
    {
      currentItem := None;
      sent := [];
    }

    /// `poll_read` into a buffer of `bufLen` bytes, with the inner stream
    /// giving `answers` to the polls it is asked for. Also gives the
    /// bytes copied and how many answers were taken.
    method PollRead(bufLen: nat, answers: seq<Answer>) returns (r: Poll<Result<nat, IoError>>, data: seq<byte>, used: nat)
      requires Valid()
      modifies this
      ensures Valid() && sent == old(sent)
      ensures Read(old(currentItem), answers, bufLen) == ReadOutcome(r, data, currentItem, used)
    {
      ghost var g := Fill(currentItem, answers);
      var c := currentItem;
      var i := 0;
      while !Usable(c)
        invariant 0 <= i <= |answers| && Wf(c)
        invariant var f := Fill(c, answers[i..]); f.0 == g.0 && f.1 == g.1 && f.2 + i == g.2
        decreases |answers| - i
      {
        if i == |answers| {
          currentItem := c;
          return Pending, [], i;
        }
        assert answers[i..][1..] == answers[i + 1..];
        match answers[i] {
          case Pending =>
            currentItem := c;
            return Pending, [], i + 1;
          case Ready(None) =>
            currentItem := c;
            return Ready(Ok(0)), [], i + 1;
          case Ready(Some(Err(e))) =>
            currentItem := c;
            return Ready(Err(e)), [], i + 1;
          case Ready(Some(Ok(item))) =>
            c := Some(Cursor(item, 0));
        }
        i := i + 1;
      }
      var copied := Copy(c, bufLen);
      data, currentItem := copied.0, copied.1;
      used := i;
      r := Ready(Ok(|data|));
    }

    /// `poll_write`: when the sink is ready, the whole buffer is sent as
    /// one item and its length reported; an error of the sink is
    /// returned and nothing is sent.
    method PollWrite(buf: seq<byte>, ready: Poll<Result<(), IoError>>, send: Result<(), IoError>)
      returns (r: Poll<Result<nat, IoError>>)
      modifies this
      ensures currentItem == old(currentItem)
      ensures ready.Pending? ==> r.Pending? && sent == old(sent)
      ensures ready.Ready? && ready.value.Err? ==> r == Ready(Err(ready.value.error)) && sent == old(sent)
      ensures ready == Ready(Ok(())) && send.Err? ==> r == Ready(Err(send.error)) && sent == old(sent)
      ensures ready == Ready(Ok(())) && send.Ok? ==> r == Ready(Ok(|buf|)) && sent == old(sent) + [buf]
    {
      if ready.Pending? {
        return Pending;
      }
      if ready.value.Err? {
        return Ready(Err(ready.value.error));
      }
      if send.Err? {
        return Ready(Err(send.error));
      }
      sent := sent + [buf];
      return Ready(Ok(|buf|));
    }
  }

}
