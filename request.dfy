// What the request-response protocol's two sides share
// (protocols/volans-request/src/lib.rs): request ids, the failures a
// request can end in and their I/O errors, and the request a client
// hands to a connection.
module Request {
  import opened Io
  import opened Time
  import SwarmConnection

  /// `RequestId(usize)`.
  datatype RequestId = RequestId(value: nat)

  /// `Config`.
  datatype Config = Config(requestTimeout: Duration)

  /// `Config::default`: thirty seconds for a request.
  function DefaultConfig(): (c: Config)
    ensures c.requestTimeout == Secs(30)
  {
    Config(Secs(30))
  }

  // ---------------------------------------------------------------------
  // Request ids

  /// `RequestId::next` as written. `NEXT_REQUEST_ID` is a `const`, not a
  /// `static`: every use of it is a new counter starting at 0, so the
  /// `fetch_add` always hands out 0.
  function NextRequestIdAsWritten(): (id: RequestId)
    ensures id == RequestId(0)
  {
    var freshCounter := 0;
    RequestId(freshCounter)
  }

  /// `RequestId::next`, corrected: one process-wide counter, moved on by
  /// each id handed out, wrapping as a `usize` does.
  class RequestIdCounter {
    var next: nat

    ghost predicate Valid()
      reads this
    {
      next < SwarmConnection.USIZE_MOD
    }

    /// The counter starts at 0.
    constructor()
      ensures Valid() && next == 0
    {
      next := 0;
    }

    /// `fetch_add(1)`.
    method Next() returns (id: RequestId)
      requires Valid()
      modifies this
      ensures Valid() && id == RequestId(old(next)) && next == SwarmConnection.Successor(old(next))
    {
      id := RequestId(next);
      next := SwarmConnection.Successor(next);
    }
  }

  /// Ids handed out one after the other differ.
  lemma SuccessorDiffers(n: nat)
    requires n < SwarmConnection.USIZE_MOD
    ensures SwarmConnection.Successor(n) != n
  {
  }

  /// Two ids drawn in a row from the corrected counter differ.
  method TwoIdsDiffer(c: RequestIdCounter) returns (a: RequestId, b: RequestId)
    requires c.Valid()
    modifies c
    ensures a != b
  {
    a := c.Next();
    b := c.Next();
    SuccessorDiffers(a.value);
  }

  // ---------------------------------------------------------------------
  // Choosing a connection

  /// `usize` as a 64-bit vector.
  type Word = x: nat | x < SwarmConnection.USIZE_MOD

  /// The connection `try_send_request` picks for a request, as written:
  /// `id & len`, a bitwise and with the number of connections.
  function ConnectionIndexAsWritten(id: Word, len: Word): nat
  {
    ((id as bv64) & (len as bv64)) as nat
  }

  /// With distinct ids, `id & len` can name a connection past the end:
  /// the third request (id 2) to a peer with two connections indexes
  /// entry 2 of two, and so panics.
  lemma AsWrittenIndexOutOfRange()
    ensures ConnectionIndexAsWritten(2, 2) == 2
  {
    assert (2 as bv64) & (2 as bv64) == 2;
  }

  /// With the ids as written, always 0, the pick is always the first
  /// connection, which keeps the index in range.
  lemma AsWrittenIdsPickFirst(len: Word)
    requires len > 0
    ensures ConnectionIndexAsWritten(NextRequestIdAsWritten().value, len) == 0
  {
    assert (0 as bv64) & (len as bv64) == 0;
  }

  /// The connection picked for a request, corrected: the id modulo the
  /// number of connections, always one of them; the first ids pick the
  /// connections in order.
  function ConnectionIndex(id: RequestId, len: nat): (i: nat)
    requires len > 0
    ensures i < len
    ensures id.value < len ==> i == id.value
  {
    id.value % len
  }

  // ---------------------------------------------------------------------
  // Failures

  /// `OutboundFailure`: how a request sent ends without a response.
  datatype OutboundFailure =
    | DialFailure
    | Timeout
    | ConnectionClosed
    | UnsupportedProtocols
    | Io(error: IoError)

  /// `InboundFailure`: how a request received ends without a response
  /// sent.
  datatype InboundFailure =
    | Timeout
    | ConnectionClosed
    | UnsupportedProtocols
    | Discard
    | Io(error: IoError)

  /// `From<OutboundFailure> for io::Error`: an I/O failure is unwrapped,
  /// the others become an error of a fitting kind carrying their text.
  function OutboundIoError(f: OutboundFailure): (e: IoError)
    ensures f.Io? ==> e == f.error
    ensures f.DialFailure? ==> e.kind == ConnectionRefused
    ensures f.Timeout? ==> e.kind == TimedOut
    ensures f.ConnectionClosed? ==> e.kind == UnexpectedEof
    ensures f.UnsupportedProtocols? ==> e.kind == ErrorKind.Other
  {
    match f
    case DialFailure => IoError(ConnectionRefused, "Failed to dial the remote peer")
    case Timeout => IoError(TimedOut, "Timeout waiting for the response")
    case ConnectionClosed => IoError(UnexpectedEof, "Connection closed before response was received")
    case UnsupportedProtocols => IoError(ErrorKind.Other, "Unsupported protocol for request")
    case Io(e) => e
  }

  /// `From<InboundFailure> for io::Error`.
  function InboundIoError(f: InboundFailure): (e: IoError)
    ensures f.Io? ==> e == f.error
    ensures f.Timeout? ==> e.kind == TimedOut
    ensures f.ConnectionClosed? ==> e.kind == UnexpectedEof
    ensures f.UnsupportedProtocols? || f.Discard? ==> e.kind == ErrorKind.Other
  {
    match f
    case Timeout => IoError(TimedOut, "Request timeout")
    case ConnectionClosed => IoError(UnexpectedEof, "Connection closed before response was received")
    case UnsupportedProtocols => IoError(ErrorKind.Other, "Unsupported protocol for request")
    case Discard => IoError(ErrorKind.Other, "Response was dropped before it could be sent")
    case Io(e) => e
  }

  /// The two conversions agree on the failures both sides share.
  lemma SharedFailuresAgree()
    ensures OutboundIoError(OutboundFailure.ConnectionClosed) == InboundIoError(InboundFailure.ConnectionClosed)
    ensures OutboundIoError(OutboundFailure.UnsupportedProtocols) == InboundIoError(InboundFailure.UnsupportedProtocols)
    ensures forall e: IoError :: OutboundIoError(OutboundFailure.Io(e)) == InboundIoError(InboundFailure.Io(e))
  {
  }

  // ---------------------------------------------------------------------
  // Requests

  /// `handler::OutboundRequest`: a request, its id and the protocol to
  /// send it on.
  datatype OutboundRequest<R, P> = OutboundRequest(requestId: RequestId, request: R, protocol: P)

  /// `Upgrade::new_single`: the protocols a request's stream offers.
  function SingleUpgrade<P>(protocol: P): seq<P>
  {
    [protocol]
  }
}
