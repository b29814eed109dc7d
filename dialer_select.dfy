// The dialer side of protocol negotiation (`DialerSelectFuture`,
// dialer_select.rs of volans-stream-select). The dialer proposes its
// protocols one at a time in its own order. A proposal answered with an
// echo wins, "na" moves on to the next proposal, and the last proposal is
// returned at once, to be confirmed later by `Negotiated`.
module DialerSelect {
  import opened Wrappers
  import opened Bytes
  import opened LengthDelimitedCodec
  import opened SelectProtocol
  import opened MessageChannel
  import opened NegotiatedStream

  datatype DialerState =
    | Initial
    | SendProtocol(protocol: Utf8)
    | FlushProtocol(protocol: Utf8)
    | AwaitProtocol(protocol: Utf8)
    | Done

  /// The future's fields: the protocols not yet taken from the iterator,
  /// the state and the channel.
  datatype Dialer = Dialer(protocols: seq<Utf8>, state: DialerState, chan: Channel)

  type Output = Poll<Result<(Utf8, NegotiatedState), NegotiationError>>

  /// One turn of the poll loop: the poll returns, or the loop goes on.
  datatype Turn = Return(out: Output, next: Dialer) | Again(next: Dialer)

  function Rank(s: DialerState): nat
  {
    match s
    case Initial => 3
    case SendProtocol(_) => 2
    case FlushProtocol(_) => 1
    case AwaitProtocol(_) => 0
    case Done => 0
  }

  /// A loop turn that goes on consumes a message, takes a protocol, or
  /// moves towards AwaitProtocol.
  predicate Progress(a: Dialer, b: Dialer)
  {
    |b.chan.incoming| < |a.chan.incoming|
    || (|b.chan.incoming| == |a.chan.incoming|
        && (|b.protocols| < |a.protocols|
            || (|b.protocols| == |a.protocols| && Rank(b.state) < Rank(a.state))))
  }

  /// What every loop turn keeps: a turn that goes on makes progress, a
  /// pending one keeps the state and the protocols, a ready one leaves
  /// Done.
  predicate Sound(d: Dialer, s: Turn)
  {
    (s.Again? ==> !s.next.state.Done? && Progress(d, s.next))
    && (s.Return? && s.out.Pending? ==> s.next.state == d.state && s.next.protocols == d.protocols)
    && (s.Return? && s.out.Ready? ==> s.next.state.Done?)
  }

  /// The protocols left after a turn: all of them, or all but the first.
  predicate TakesFront(before: seq<Utf8>, after: seq<Utf8>)
  {
    after == before || (before != [] && after == before[1..])
  }

  /// The Initial arm: wait for the channel, then take the next protocol.
  function InitialArm(protocols: seq<Utf8>, chan: Channel): (s: Turn)
    ensures Sound(Dialer(protocols, Initial, chan), s)
    ensures TakesFront(protocols, s.next.protocols)
  {
    var (ready, c) := PollReadyMsg(chan);
    if ready.Pending? then Return(Pending, Dialer(protocols, Initial, c))
    else if ready.value.Err? then Return(Ready(Err(NegotiationProtocolError(ready.value.error))), Dialer(protocols, Done, c))
    else if protocols == [] then Return(Ready(Err(Failed)), Dialer(protocols, Done, c))
    else Again(Dialer(protocols[1..], SendProtocol(protocols[0]), c))
  }

  /// The SendProtocol arm: wait for the channel, send the proposal, and
  /// either flush it (more protocols follow) or return it optimistically.
  function SendArm(protocols: seq<Utf8>, name: Utf8, chan: Channel): (s: Turn)
    ensures Sound(Dialer(protocols, SendProtocol(name), chan), s)
    ensures TakesFront(protocols, s.next.protocols)
  {
    var (ready, c) := PollReadyMsg(chan);
    if ready.Pending? then Return(Pending, Dialer(protocols, SendProtocol(name), c))
    else if ready.value.Err? then Return(Ready(Err(NegotiationProtocolError(ready.value.error))), Dialer(protocols, Done, c))
    else
      var p := ProtocolFromStr(name);
      if p.Err? then Return(Ready(Err(NegotiationProtocolError(p.error))), Dialer(protocols, Done, c))
      else
        var (sent, c') := StartSendMsg(c, MessageProtocol(p.value));
        if sent.Err? then Return(Ready(Err(NegotiationProtocolError(sent.error))), Dialer(protocols, Done, c'))
        else if protocols != [] then Again(Dialer(protocols, FlushProtocol(name), c'))
        else Return(Ready(Ok((name, Expecting(p.value)))), Dialer(protocols, Done, c'))
  }

  /// The FlushProtocol arm.
  function FlushArm(protocols: seq<Utf8>, name: Utf8, chan: Channel): (s: Turn)
    ensures Sound(Dialer(protocols, FlushProtocol(name), chan), s)
    ensures TakesFront(protocols, s.next.protocols)
  {
    var (flushed, c) := PollReadyMsg(chan);
    if flushed.Pending? then Return(Pending, Dialer(protocols, FlushProtocol(name), c))
    else if flushed.value.Err? then Return(Ready(Err(NegotiationProtocolError(flushed.value.error))), Dialer(protocols, Done, c))
    else Again(Dialer(protocols, AwaitProtocol(name), c))
  }

  /// The AwaitProtocol arm: an echo completes, "na" moves to the next
  /// protocol, and any other message goes back to Initial.
  function AwaitArm(protocols: seq<Utf8>, name: Utf8, chan: Channel): (s: Turn)
    ensures Sound(Dialer(protocols, AwaitProtocol(name), chan), s)
    ensures TakesFront(protocols, s.next.protocols)
  {
    var (polled, c) := PollNextMsg(chan);
    match polled
    case Pending => Return(Pending, Dialer(protocols, AwaitProtocol(name), c))
    case Ready(None) => Return(Ready(Err(Failed)), Dialer(protocols, Done, c))
    case Ready(Some(Err(e))) => Return(Ready(Err(NegotiationProtocolError(e))), Dialer(protocols, Done, c))
    case Ready(Some(Ok(msg))) =>
      if msg.MessageProtocol? && msg.protocol.name == name then
        Return(Ready(Ok((name, Completed))), Dialer(protocols, Done, c))
      else if msg.NotAvailable? then
        if protocols == [] then Return(Ready(Err(Failed)), Dialer(protocols, Done, c))
        else Again(Dialer(protocols[1..], SendProtocol(protocols[0]), c))
      else Again(Dialer(protocols, Initial, c))
  }

  /// One turn of the loop body of `DialerSelectFuture::poll`: the state is
  /// taken out, leaving Done, and the arm for it runs.
  function DialerStep(d: Dialer): (s: Turn)
    requires !d.state.Done?
    ensures Sound(d, s)
  {
    match d.state
    case Initial => InitialArm(d.protocols, d.chan)
    case SendProtocol(name) => SendArm(d.protocols, name, d.chan)
    case FlushProtocol(name) => FlushArm(d.protocols, name, d.chan)
    case AwaitProtocol(name) => AwaitArm(d.protocols, name, d.chan)
  }

  /// One `poll` of the future: its output and the fields afterwards.
  function DialerPoll(d: Dialer): (r: (Output, Dialer))
    requires !d.state.Done?
    ensures r.0.Ready? <==> r.1.state.Done?
    decreases |d.chan.incoming|, |d.protocols|, Rank(d.state)
  {
    match DialerStep(d)
    case Return(out, next) => (out, next)
    case Again(next) => DialerPoll(next)
  }

  predicate IsSuffix<T(==)>(s: seq<T>, t: seq<T>)
  {
    |s| <= |t| && t[|t| - |s|..] == s
  }

  /// A turn takes protocols only from the front of the iterator.
  lemma StepKeepsOrder(d: Dialer)
    requires !d.state.Done?
    ensures IsSuffix(DialerStep(d).next.protocols, d.protocols)
  {
    var a, b := d.protocols, DialerStep(d).next.protocols;
    assert TakesFront(a, b);
    if b != a {
      assert a[|a| - |b|..] == a[1..];
    }
  }

  /// A poll takes protocols from the iterator in its order, never skipping
  /// or reordering them.
  lemma {:induction false} PollKeepsOrder(d: Dialer)
    requires !d.state.Done?
    ensures IsSuffix(DialerPoll(d).1.protocols, d.protocols)
    decreases |d.chan.incoming|, |d.protocols|, Rank(d.state)
  {
    StepKeepsOrder(d);
    var s := DialerStep(d);
    if s.Again? {
      PollKeepsOrder(s.next);
      var a, b, c := d.protocols, s.next.protocols, DialerPoll(s.next).1.protocols;
      assert a[|a| - |c|..] == b[|b| - |c|..];
    }
  }

  class DialerSelectFuture {
    var protocols: seq<Utf8>
    var state: DialerState
    var chan: Channel

    function Fields(): Dialer
      reads this
    {
      Dialer(protocols, state, chan)
    }

    /// `DialerSelectFuture::new`.
    constructor (chan: Channel, protocols: seq<Utf8>)
      ensures Fields() == Dialer(protocols, Initial, chan)
    {
      this.protocols := protocols;
      state := Initial;
      this.chan := chan;
    }

    /// `Future::poll`; polling a finished future panics.
    method Poll() returns (out: Output)
      requires !state.Done?
      modifies this
      ensures (out, Fields()) == DialerPoll(old(Fields()))
    {
      while true
        invariant !state.Done?
        invariant DialerPoll(Fields()) == DialerPoll(old(Fields()))
        decreases |chan.incoming|, |protocols|, Rank(state)
      {
        var o := PollOnce();
        if o.Some? {
          return o.value;
        }
      }
    }

    /// One turn of the loop: the state is taken out (leaving Done) and the
    /// arm for it runs.
    method PollOnce() returns (o: Option<Output>)
      requires !state.Done?
      modifies this
      ensures var s := DialerStep(old(Fields()));
              Fields() == s.next && o == (if s.Return? then Some(s.out) else None)
    {
      var current := state;
      state := Done;
      match current
      case Initial =>
        var ready := PollReady();
        if ready.Pending? {
          state := Initial;
          return Some(Pending);
        }
        if ready.value.Err? {
          return Some(Ready(Err(NegotiationProtocolError(ready.value.error))));
        }
        if protocols == [] {
          return Some(Ready(Err(Failed)));
        }
        state := SendProtocol(protocols[0]);
        protocols := protocols[1..];
        return None;
      case SendProtocol(name) =>
        o := Send(name);
      case FlushProtocol(name) =>
        var flushed := PollReady();
        if flushed.Pending? {
          state := FlushProtocol(name);
          return Some(Pending);
        }
        if flushed.value.Err? {
          return Some(Ready(Err(NegotiationProtocolError(flushed.value.error))));
        }
        state := AwaitProtocol(name);
        return None;
      case AwaitProtocol(name) =>
        o := Await(name);
    }

    /// `poll_ready` (or `poll_flush`) on the channel.
    method PollReady() returns (r: Poll<Result<(), ProtocolError>>)
      modifies this`chan
      ensures (r, chan) == PollReadyMsg(old(chan))
    {
      var (p, c) := PollReadyMsg(chan);
      chan := c;
      r := p;
    }

    /// The SendProtocol arm.
    method Send(name: Utf8) returns (o: Option<Output>)
      requires state.Done?
      modifies this`state, this`chan
      ensures var s := SendArm(protocols, name, old(chan));
              Fields() == s.next && o == (if s.Return? then Some(s.out) else None)
    {
      var ready := PollReady();
      if ready.Pending? {
        state := SendProtocol(name);
        return Some(Pending);
      }
      if ready.value.Err? {
        return Some(Ready(Err(NegotiationProtocolError(ready.value.error))));
      }
      var p := ProtocolFromStr(name);
      if p.Err? {
        return Some(Ready(Err(NegotiationProtocolError(p.error))));
      }
      var (sent, c) := StartSendMsg(chan, MessageProtocol(p.value));
      chan := c;
      if sent.Err? {
        return Some(Ready(Err(NegotiationProtocolError(sent.error))));
      }
      if protocols != [] {
        state := FlushProtocol(name);
        return None;
      }
      return Some(Ready(Ok((name, Expecting(p.value)))));
    }

    /// The AwaitProtocol arm.
    method Await(name: Utf8) returns (o: Option<Output>)
      requires state.Done?
      modifies this
      ensures var s := AwaitArm(old(protocols), name, old(chan));
              Fields() == s.next && o == (if s.Return? then Some(s.out) else None)
    {
      var (polled, c) := PollNextMsg(chan);
      chan := c;
      if polled.Pending? {
        state := AwaitProtocol(name);
        return Some(Pending);
      }
      if polled.value.None? {
        return Some(Ready(Err(Failed)));
      }
      if polled.value.value.Err? {
        return Some(Ready(Err(NegotiationProtocolError(polled.value.value.error))));
      }
      var msg := polled.value.value.value;
      if msg.MessageProtocol? && msg.protocol.name == name {
        return Some(Ready(Ok((name, Completed))));
      }
      if msg.NotAvailable? {
        if protocols == [] {
          return Some(Ready(Err(Failed)));
        }
        state := SendProtocol(protocols[0]);
        protocols := protocols[1..];
        return None;
      }
      state := Initial;
      return None;
    }
  }

  // ---------------------------------------------------------------------
  // Properties

  /// With nothing to propose the dialer fails, and sends nothing.
  lemma EmptyListFails(chan: Channel)
    requires chan.sink == []
    ensures var r := DialerPoll(Dialer([], Initial, chan));
            r.0 == Ready(Err(Failed)) && r.1.chan.sent == chan.sent
  {
  }

  /// A name without the leading `/` aborts with InvalidProtocol when its
  /// turn comes.
  lemma InvalidNameAborts(name: Utf8, rest: seq<Utf8>, chan: Channel)
    requires chan.sink == [] && !StartsWithSlash(name)
    ensures var r := DialerPoll(Dialer(rest, SendProtocol(name), chan));
            r.0 == Ready(Err(NegotiationProtocolError(InvalidProtocol))) && r.1.chan.sent == chan.sent
  {
  }

  /// The last proposal is returned at once, as Expecting, without waiting
  /// for an answer.
  lemma LastProposalIsOptimistic(p: Protocol, chan: Channel)
    requires chan.sink == [] && Sendable(p)
    ensures var r := DialerPoll(Dialer([], SendProtocol(p.name), chan));
            r.0 == Ready(Ok((p.name, Expecting(p))))
            && r.1.chan == chan.(sent := chan.sent + [MessageProtocol(p)])
  {
    var d := Dialer([], SendProtocol(p.name), chan);
    var s := SendArm([], p.name, chan);
    assert ProtocolFromStr(p.name) == Ok(p);
    assert s == Return(Ready(Ok((p.name, Expecting(p)))), Dialer([], Done, chan.(sent := chan.sent + [MessageProtocol(p)])));
    PollReturns(d);
  }

  /// A turn that returns is the whole poll.
  lemma PollReturns(d: Dialer)
    requires !d.state.Done? && DialerStep(d).Return?
    ensures DialerPoll(d) == (DialerStep(d).out, DialerStep(d).next)
  {
  }

  /// A turn that goes on hands over to the next.
  lemma PollGoesOn(d: Dialer)
    requires !d.state.Done? && DialerStep(d).Again?
    ensures DialerPoll(d) == DialerPoll(DialerStep(d).next)
  {
  }

  /// A proposal the codec can frame.
  predicate Sendable(p: Protocol)
  {
    |Encode(MessageProtocol(p))| <= MAX_FRAME_SIZE
  }

  /// A proposal that is not the last one is sent, flushed and answered:
  /// the echo completes the negotiation, "na" moves on to the next
  /// protocol.
  lemma ProposalAnswered(p: Protocol, rest: seq<Utf8>, answer: Message, incoming: seq<Incoming>, sent: seq<Message>)
    requires rest != [] && Sendable(p) && (answer == MessageProtocol(p) || answer == NotAvailable)
    ensures var r := DialerPoll(Dialer(rest, SendProtocol(p.name), Channel([RecvMsg(answer)] + incoming, [], sent)));
            var sent' := sent + [MessageProtocol(p)];
            if answer == NotAvailable then
              r == DialerPoll(Dialer(rest[1..], SendProtocol(rest[0]), Channel(incoming, [], sent')))
            else
              r == (Ready(Ok((p.name, Completed))), Dialer(rest, Done, Channel(incoming, [], sent')))
  {
    var chan := Channel([RecvMsg(answer)] + incoming, [], sent);
    var sent' := sent + [MessageProtocol(p)];
    var d0 := Dialer(rest, SendProtocol(p.name), chan);
    assert ProtocolFromStr(p.name) == Ok(p);
    var d1 := Dialer(rest, FlushProtocol(p.name), chan.(sent := sent'));
    assert SendArm(rest, p.name, chan) == Again(d1);
    PollGoesOn(d0);
    var d2 := Dialer(rest, AwaitProtocol(p.name), chan.(sent := sent'));
    assert FlushArm(rest, p.name, d1.chan) == Again(d2);
    PollGoesOn(d1);
    var c := Channel(incoming, [], sent');
    assert PollNextMsg(d2.chan) == (Ready(Some(Ok(answer))), c) by {
      assert ([RecvMsg(answer)] + incoming)[1..] == incoming;
    }
    if answer == NotAvailable {
      assert AwaitArm(rest, p.name, d2.chan) == Again(Dialer(rest[1..], SendProtocol(rest[0]), c));
      PollGoesOn(d2);
    } else {
      assert AwaitArm(rest, p.name, d2.chan) == Return(Ready(Ok((p.name, Completed))), Dialer(rest, Done, c));
      PollReturns(d2);
    }
  }

  /// How the listener answers a proposal: an echo when it supports the
  /// name, "na" otherwise.
  function Answer(supported: set<seq<byte>>, p: Protocol): (m: Message)
    ensures p.name in supported ==> m == MessageProtocol(p)
    ensures p.name !in supported ==> m == NotAvailable
  {
    if p.name in supported then MessageProtocol(p) else NotAvailable
  }

  /// The proposals the dialer sends, one per protocol.
  function Proposals(ps: seq<Protocol>): (ms: seq<Message>)
    ensures |ms| == |ps|
  {
    seq(|ps|, i requires 0 <= i < |ps| => MessageProtocol(ps[i]))
  }

  /// The peer's side of the channel when it answers these proposals.
  function Answers(supported: set<seq<byte>>, ps: seq<Protocol>): (s: seq<Incoming>)
    ensures |s| == |ps|
  {
    seq(|ps|, i requires 0 <= i < |ps| => RecvMsg(Answer(supported, ps[i])))
  }

  function Names(ps: seq<Protocol>): (ns: seq<Utf8>)
    ensures |ns| == |ps|
  {
    seq(|ps|, i requires 0 <= i < |ps| => ps[i].name)
  }

  /// The first protocol of `ps[..n]` the listener supports, if any.
  function FirstSupported(supported: set<seq<byte>>, ps: seq<Protocol>, from: nat, n: nat): (r: Option<nat>)
    requires from <= n <= |ps|
    ensures r.Some? ==> from <= r.value < n && ps[r.value].name in supported
                        && forall j :: from <= j < r.value ==> ps[j].name !in supported
    ensures r.None? ==> forall j :: from <= j < n ==> ps[j].name !in supported
    decreases n - from
  {
    if from == n then None
    else if ps[from].name in supported then Some(from)
    else FirstSupported(supported, ps, from + 1, n)
  }

  /// The dialer in SendProtocol for `ps[k]`, with the rest of `ps` still
  /// in the iterator, talking to a listener that supports the names
  /// `supported` over a channel that loses nothing and is always ready:
  /// what it will read are the listener's answers to its proposals before
  /// the last.
  function AgainstListener(supported: set<seq<byte>>, ps: seq<Protocol>, k: nat, sent: seq<Message>): (d: Dialer)
    requires k < |ps|
    ensures d.state == SendProtocol(ps[k].name) && d.protocols == Names(ps[k + 1..])
    ensures d.chan.sink == [] && d.chan.sent == sent
  {
    Dialer(Names(ps[k + 1..]), SendProtocol(ps[k].name), Channel(Answers(supported, ps[k..|ps| - 1]), [], sent))
  }

  /// A new future, once the channel is ready, proposes its first protocol.
  lemma StartsWithFirst(supported: set<seq<byte>>, ps: seq<Protocol>)
    requires ps != []
    ensures DialerPoll(Dialer(Names(ps), Initial, Channel(Answers(supported, ps[..|ps| - 1]), [], [])))
            == DialerPoll(AgainstListener(supported, ps, 0, []))
  {
    var d := Dialer(Names(ps), Initial, Channel(Answers(supported, ps[..|ps| - 1]), [], []));
    assert Names(ps)[1..] == Names(ps[1..]);
    assert ps[0..|ps| - 1] == ps[..|ps| - 1];
    assert InitialArm(d.protocols, d.chan) == Again(AgainstListener(supported, ps, 0, []));
    PollGoesOn(d);
  }

  /// The outcome that is meant: the first supported protocol before the
  /// last wins with the stream completed, and nothing after it is
  /// proposed; otherwise every protocol is proposed and the last comes
  /// back as Expecting.
  function Intended(supported: set<seq<byte>>, ps: seq<Protocol>, k: nat, sent: seq<Message>): (r: (Output, seq<Message>))
    requires k < |ps|
    ensures r.0.Ready? && r.0.value.Ok?
  {
    match FirstSupported(supported, ps, k, |ps| - 1)
    case Some(i) => (Ready(Ok((ps[i].name, Completed))), sent + Proposals(ps[k..i + 1]))
    case None => (Ready(Ok((ps[|ps| - 1].name, Expecting(ps[|ps| - 1])))), sent + Proposals(ps[k..]))
  }

  /// An unsupported proposal before the last one passes the outcome on to
  /// the next.
  lemma IntendedSkips(supported: set<seq<byte>>, ps: seq<Protocol>, k: nat, sent: seq<Message>)
    requires k < |ps| - 1 && ps[k].name !in supported
    ensures Intended(supported, ps, k, sent) == Intended(supported, ps, k + 1, sent + [MessageProtocol(ps[k])])
  {
    var first := FirstSupported(supported, ps, k, |ps| - 1);
    assert first == FirstSupported(supported, ps, k + 1, |ps| - 1);
    var m := MessageProtocol(ps[k]);
    var j := if first.Some? then first.value + 1 else |ps|;
    assert Proposals(ps[k..j]) == [m] + Proposals(ps[k + 1..j]) by { ProposalsCons(ps, k, j); }
    AppendCons(sent, m, Proposals(ps[k + 1..j]));
    if first.None? {
      assert ps[k..|ps|] == ps[k..] && ps[k + 1..|ps|] == ps[k + 1..];
    }
  }

  lemma AppendCons<T>(s: seq<T>, x: T, t: seq<T>)
    ensures s + ([x] + t) == (s + [x]) + t
  {
  }

  /// One proposal before the last, answered: supported, it completes the
  /// poll; unsupported, the poll goes on with the next proposal.
  lemma ProposalTurn(supported: set<seq<byte>>, ps: seq<Protocol>, k: nat, sent: seq<Message>)
    requires k < |ps| - 1 && Sendable(ps[k])
    ensures var r := DialerPoll(AgainstListener(supported, ps, k, sent));
            var sent' := sent + [MessageProtocol(ps[k])];
            if ps[k].name in supported then
              r.0 == Ready(Ok((ps[k].name, Completed))) && r.1.chan.sent == sent'
            else
              r == DialerPoll(AgainstListener(supported, ps, k + 1, sent'))
  {
    var names := Names(ps[k + 1..]);
    var incoming := Answers(supported, ps[k + 1..|ps| - 1]);
    assert Answers(supported, ps[k..|ps| - 1]) == [RecvMsg(Answer(supported, ps[k]))] + incoming;
    assert names[0] == ps[k + 1].name && names[1..] == Names(ps[k + 2..]);
    ProposalAnswered(ps[k], names, Answer(supported, ps[k]), incoming, sent);
  }

  /// The dialer against such a listener reaches the intended outcome.
  lemma {:induction false} DialerAgainstListener(supported: set<seq<byte>>, ps: seq<Protocol>, k: nat, sent: seq<Message>)
    requires k < |ps| && forall i :: 0 <= i < |ps| ==> Sendable(ps[i])
    ensures var r := DialerPoll(AgainstListener(supported, ps, k, sent));
            (r.0, r.1.chan.sent) == Intended(supported, ps, k, sent)
    decreases |ps| - k
  {
    if k == |ps| - 1 {
      assert Names(ps[k + 1..]) == [];
      LastProposalIsOptimistic(ps[k], AgainstListener(supported, ps, k, sent).chan);
      assert Proposals(ps[k..]) == [MessageProtocol(ps[k])];
    } else {
      ProposalTurn(supported, ps, k, sent);
      if ps[k].name in supported {
        assert FirstSupported(supported, ps, k, |ps| - 1) == Some(k);
        assert Proposals(ps[k..k + 1]) == [MessageProtocol(ps[k])];
      } else {
        DialerAgainstListener(supported, ps, k + 1, sent + [MessageProtocol(ps[k])]);
        IntendedSkips(supported, ps, k, sent);
      }
    }
  }

  /// `Proposals(ps[k..j])` starts with the proposal of `ps[k]`.
  lemma ProposalsCons(ps: seq<Protocol>, k: nat, j: nat)
    requires k < j <= |ps|
    ensures Proposals(ps[k..j]) == [MessageProtocol(ps[k])] + Proposals(ps[k + 1..j])
  {
    assert Proposals(ps[k..j])[1..] == Proposals(ps[k + 1..j]);
  }
}
