// The listener side of protocol negotiation (`ListenerSelectFuture`,
// listener_select.rs of volans-stream-select). The listener reads
// proposals, echoes one it supports and answers "na" to the others; it
// succeeds once an echo has been flushed.
module ListenerSelect {
  import opened Wrappers
  import opened Bytes
  import opened LengthDelimitedCodec
  import opened SelectProtocol
  import opened MessageChannel
  import opened NegotiatedStream
  import DialerSelect

  /// A supported entry: the caller's name and the protocol parsed from it.
  datatype Entry = Entry(name: Utf8, protocol: Protocol)

  /// The entries `new` keeps: names that parse as protocols, in order, the
  /// others dropped silently.
  function Supported(names: seq<Utf8>): (es: seq<Entry>)
    ensures |es| <= |names|
    ensures forall e | e in es :: e.protocol.name == e.name && e.name in names
  {
    if names == [] then []
    else
      var rest := Supported(names[1..]);
      match ProtocolFromStr(names[0])
      case Ok(p) => [Entry(names[0], p)] + rest
      case Err(_) => rest
  }

  /// A name is kept exactly when it starts with `/`.
  lemma {:induction false} SupportedKeeps(names: seq<Utf8>, n: Utf8)
    ensures (exists e | e in Supported(names) :: e.name == n) <==> n in names && StartsWithSlash(n)
  {
    if names != [] {
      SupportedKeeps(names[1..], n);
      if StartsWithSlash(names[0]) {
        assert Entry(names[0], Protocol(names[0])) in Supported(names);
      }
    }
  }

  /// The names the entries support.
  function SupportedNames(es: seq<Entry>): set<seq<byte>>
  {
    set e | e in es :: e.protocol.name
  }

  /// The `find_map` over the entries: the name of the first entry whose
  /// protocol is `p`.
  function Match(es: seq<Entry>, p: Protocol): (r: Option<Utf8>)
    ensures r.Some? ==> exists i :: 0 <= i < |es| && es[i].protocol == p && r.value == es[i].name
                                    && forall j :: 0 <= j < i ==> es[j].protocol != p
    ensures r.None? ==> forall e | e in es :: e.protocol != p
  {
    if es == [] then None
    else if es[0].protocol == p then Some(es[0].name)
    else
      var r := Match(es[1..], p);
      if r.Some? then
        ghost var i :| 0 <= i < |es[1..]| && es[1..][i].protocol == p && r.value == es[1..][i].name
                      && forall j :: 0 <= j < i ==> es[1..][j].protocol != p;
        assert es[i + 1] == es[1..][i];
        assert forall j :: 0 <= j < i + 1 ==> es[j].protocol != p by {
          forall j | 0 <= j < i + 1 ensures es[j].protocol != p {
            if j > 0 { assert es[j] == es[1..][j - 1]; }
          }
        }
        r
      else
        assert forall e | e in es :: e == es[0] || e in es[1..];
        r
  }

  /// A supported entry's own name is what the match returns, and for
  /// entries built by `new` it is the protocol's name.
  lemma MatchSupported(names: seq<Utf8>, p: Protocol)
    ensures Match(Supported(names), p).Some? <==> p.name in SupportedNames(Supported(names))
    ensures Match(Supported(names), p).Some? ==> Match(Supported(names), p).value == p.name
  {
  }

  datatype ListenerState =
    | RecvMessage
    | SendMessage(message: Message, protocol: Option<Utf8>)
    | Flush(protocol: Option<Utf8>)
    | Done

  datatype Listener = Listener(protocols: seq<Entry>, state: ListenerState, chan: Channel)

  type Output = Poll<Result<(Utf8, NegotiatedState), NegotiationError>>

  datatype Turn = Return(out: Output, next: Listener) | Again(next: Listener)

  function Rank(s: ListenerState): nat
  {
    match s
    case RecvMessage => 0
    case SendMessage(_, _) => 2
    case Flush(_) => 1
    case Done => 0
  }

  /// What every loop turn keeps: the entries; a turn that goes on consumes
  /// a message or moves towards RecvMessage; a pending turn keeps the
  /// state; a ready one leaves Done.
  predicate Sound(l: Listener, s: Turn)
  {
    s.next.protocols == l.protocols
    && (s.Again? ==> !s.next.state.Done?
                     && (|s.next.chan.incoming| < |l.chan.incoming|
                         || (|s.next.chan.incoming| == |l.chan.incoming| && Rank(s.next.state) < Rank(l.state))))
    && (s.Return? && s.out.Pending? ==> s.next.state == l.state)
    && (s.Return? && s.out.Ready? ==> s.next.state.Done?)
  }

  /// The reply to a proposal: the echo when supported, "na" otherwise.
  function Reply(es: seq<Entry>, p: Protocol): (m: Message)
    ensures Match(es, p).Some? ==> m == MessageProtocol(p)
    ensures Match(es, p).None? ==> m == NotAvailable
  {
    if Match(es, p).Some? then MessageProtocol(p) else NotAvailable
  }

  /// The RecvMessage arm.
  function RecvArm(es: seq<Entry>, chan: Channel): (s: Turn)
    ensures Sound(Listener(es, RecvMessage, chan), s)
  {
    var (polled, c) := PollNextMsg(chan);
    match polled
    case Pending => Return(Pending, Listener(es, RecvMessage, c))
    case Ready(None) => Return(Ready(Err(Failed)), Listener(es, Done, c))
    case Ready(Some(Err(e))) => Return(Ready(Err(NegotiationProtocolError(e))), Listener(es, Done, c))
    case Ready(Some(Ok(NotAvailable))) =>
      Return(Ready(Err(NegotiationProtocolError(InvalidMessage))), Listener(es, Done, c))
    case Ready(Some(Ok(MessageProtocol(p)))) =>
      Again(Listener(es, SendMessage(Reply(es, p), Match(es, p)), c))
  }

  /// The SendMessage arm.
  function SendArm(es: seq<Entry>, message: Message, protocol: Option<Utf8>, chan: Channel): (s: Turn)
    ensures Sound(Listener(es, SendMessage(message, protocol), chan), s)
  {
    var (ready, c) := PollReadyMsg(chan);
    if ready.Pending? then Return(Pending, Listener(es, SendMessage(message, protocol), c))
    else if ready.value.Err? then Return(Ready(Err(NegotiationProtocolError(ready.value.error))), Listener(es, Done, c))
    else
      var (sent, c') := StartSendMsg(c, message);
      if sent.Err? then Return(Ready(Err(NegotiationProtocolError(sent.error))), Listener(es, Done, c'))
      else Again(Listener(es, Flush(protocol), c'))
  }

  /// The Flush arm: success once the echo is flushed, otherwise back to
  /// receiving.
  function FlushArm(es: seq<Entry>, protocol: Option<Utf8>, chan: Channel): (s: Turn)
    ensures Sound(Listener(es, Flush(protocol), chan), s)
  {
    var (flushed, c) := PollReadyMsg(chan);
    if flushed.Pending? then Return(Pending, Listener(es, Flush(protocol), c))
    else if flushed.value.Err? then Return(Ready(Err(NegotiationProtocolError(flushed.value.error))), Listener(es, Done, c))
    else if protocol.Some? then Return(Ready(Ok((protocol.value, Completed))), Listener(es, Done, c))
    else Again(Listener(es, RecvMessage, c))
  }

  /// One turn of the loop body of `ListenerSelectFuture::poll`.
  function ListenerStep(l: Listener): (s: Turn)
    requires !l.state.Done?
    ensures Sound(l, s)
  {
    match l.state
    case RecvMessage => RecvArm(l.protocols, l.chan)
    case SendMessage(message, protocol) => SendArm(l.protocols, message, protocol, l.chan)
    case Flush(protocol) => FlushArm(l.protocols, protocol, l.chan)
  }

  /// One `poll` of the future: its output and the fields afterwards.
  function ListenerPoll(l: Listener): (r: (Output, Listener))
    requires !l.state.Done?
    ensures r.0.Ready? <==> r.1.state.Done?
    ensures r.1.protocols == l.protocols
    decreases |l.chan.incoming|, Rank(l.state)
  {
    match ListenerStep(l)
    case Return(out, next) => (out, next)
    case Again(next) => ListenerPoll(next)
  }

  class ListenerSelectFuture {
    const protocols: seq<Entry>
    var state: ListenerState
    var chan: Channel

    function Fields(): Listener
      reads this
    {
      Listener(protocols, state, chan)
    }

    /// `ListenerSelectFuture::new`: the names are filtered and the
    /// listener starts by receiving.
    constructor (chan: Channel, names: seq<Utf8>)
      ensures Fields() == Listener(Supported(names), RecvMessage, chan)
    {
      protocols := Supported(names);
      state := RecvMessage;
      this.chan := chan;
    }

    /// `Future::poll`; polling a finished future panics.
    method Poll() returns (out: Output)
      requires !state.Done?
      modifies this
      ensures (out, Fields()) == ListenerPoll(old(Fields()))
    {
      while true
        invariant !state.Done?
        invariant ListenerPoll(Fields()) == ListenerPoll(old(Fields()))
        decreases |chan.incoming|, Rank(state)
      {
        var o := PollOnce();
        if o.Some? {
          return o.value;
        }
      }
    }

    /// One turn of the loop: the state is taken out (leaving Done) and the
    /// arm for it runs.
    method PollOnce() returns (o: Option<Output>)
      requires !state.Done?
      modifies this
      ensures var s := ListenerStep(old(Fields()));
              Fields() == s.next && o == (if s.Return? then Some(s.out) else None)
    {
      var current := state;
      state := Done;
      match current
      case RecvMessage =>
        o := Recv();
      case SendMessage(message, protocol) =>
        var ready := PollReady();
        if ready.Pending? {
          state := SendMessage(message, protocol);
          return Some(Pending);
        }
        if ready.value.Err? {
          return Some(Ready(Err(NegotiationProtocolError(ready.value.error))));
        }
        var (sent, c) := StartSendMsg(chan, message);
        chan := c;
        if sent.Err? {
          return Some(Ready(Err(NegotiationProtocolError(sent.error))));
        }
        state := Flush(protocol);
        return None;
      case Flush(protocol) =>
        var flushed := PollReady();
        if flushed.Pending? {
          state := Flush(protocol);
          return Some(Pending);
        }
        if flushed.value.Err? {
          return Some(Ready(Err(NegotiationProtocolError(flushed.value.error))));
        }
        if protocol.Some? {
          return Some(Ready(Ok((protocol.value, Completed))));
        }
        state := RecvMessage;
        return None;
    }

    /// `poll_ready` (or `poll_flush`) on the channel.
    method PollReady() returns (r: Poll<Result<(), ProtocolError>>)
      modifies this`chan
      ensures (r, chan) == PollReadyMsg(old(chan))
    {
      var (p, c) := PollReadyMsg(chan);
      chan := c;
      r := p;
    }

    /// The RecvMessage arm, with the `find_map` written as the loop it is.
    method Recv() returns (o: Option<Output>)
      requires state.Done?
      modifies this`state, this`chan
      ensures var s := RecvArm(protocols, old(chan));
              Fields() == s.next && o == (if s.Return? then Some(s.out) else None)
    {
      var (polled, c) := PollNextMsg(chan);
      chan := c;
      if polled.Pending? {
        state := RecvMessage;
        return Some(Pending);
      }
      if polled.value.None? {
        return Some(Ready(Err(Failed)));
      }
      if polled.value.value.Err? {
        return Some(Ready(Err(NegotiationProtocolError(polled.value.value.error))));
      }
      var msg := polled.value.value.value;
      if msg.NotAvailable? {
        return Some(Ready(Err(NegotiationProtocolError(InvalidMessage))));
      }
      var found := FindMap(msg.protocol);
      var message := if found.Some? then MessageProtocol(msg.protocol) else NotAvailable;
      state := SendMessage(message, found);
      return None;
    }

    /// The search over the entries.
    method FindMap(p: Protocol) returns (r: Option<Utf8>)
      ensures r == Match(protocols, p)
    {
      var i := 0;
      while i < |protocols|
        invariant 0 <= i <= |protocols|
        invariant Match(protocols, p) == Match(protocols[i..], p)
      {
        if protocols[i].protocol == p {
          return Some(protocols[i].name);
        }
        assert protocols[i..][1..] == protocols[i + 1..];
        i := i + 1;
      }
      return None;
    }
  }

  // ---------------------------------------------------------------------
  // Properties

  /// A turn that returns is the whole poll.
  lemma PollReturns(l: Listener)
    requires !l.state.Done? && ListenerStep(l).Return?
    ensures ListenerPoll(l) == (ListenerStep(l).out, ListenerStep(l).next)
  {
  }

  /// A turn that goes on hands over to the next.
  lemma PollGoesOn(l: Listener)
    requires !l.state.Done? && ListenerStep(l).Again?
    ensures ListenerPoll(l) == ListenerPoll(ListenerStep(l).next)
  {
  }

  /// The end of the stream fails the negotiation.
  lemma EndFails(es: seq<Entry>, sink: seq<SinkEvent>, sent: seq<Message>)
    ensures ListenerPoll(Listener(es, RecvMessage, Channel([RecvEnd], sink, sent))).0 == Ready(Err(Failed))
  {
    PollReturns(Listener(es, RecvMessage, Channel([RecvEnd], sink, sent)));
  }

  /// "na" is not something a dialer sends: it is an invalid message.
  lemma NotAvailableIsInvalid(es: seq<Entry>, rest: seq<Incoming>, sink: seq<SinkEvent>, sent: seq<Message>)
    ensures var r := ListenerPoll(Listener(es, RecvMessage, Channel([RecvMsg(NotAvailable)] + rest, sink, sent)));
            r.0 == Ready(Err(NegotiationProtocolError(InvalidMessage))) && r.1.chan.sent == sent
  {
    var l := Listener(es, RecvMessage, Channel([RecvMsg(NotAvailable)] + rest, sink, sent));
    assert ([RecvMsg(NotAvailable)] + rest)[1..] == rest;
    assert RecvArm(es, l.chan) == Return(Ready(Err(NegotiationProtocolError(InvalidMessage))), Listener(es, Done, Channel(rest, sink, sent)));
    PollReturns(l);
  }

  /// A proposal over a channel that is always ready: a supported one is
  /// echoed and, once flushed, the listener's own name for it returned with
  /// the stream completed; an unsupported one is answered "na" and the
  /// listener waits for the next proposal.
  lemma ProposalReceived(es: seq<Entry>, p: Protocol, rest: seq<Incoming>, sent: seq<Message>)
    requires DialerSelect.Sendable(p)
    ensures var r := ListenerPoll(Listener(es, RecvMessage, Channel([RecvMsg(MessageProtocol(p))] + rest, [], sent)));
            match Match(es, p)
            case Some(name) =>
              r == (Ready(Ok((name, Completed))), Listener(es, Done, Channel(rest, [], sent + [MessageProtocol(p)])))
            case None =>
              r == ListenerPoll(Listener(es, RecvMessage, Channel(rest, [], sent + [NotAvailable])))
  {
    var c0 := Channel([RecvMsg(MessageProtocol(p))] + rest, [], sent);
    var l0 := Listener(es, RecvMessage, c0);
    assert ([RecvMsg(MessageProtocol(p))] + rest)[1..] == rest;
    var m := Reply(es, p);
    var l1 := Listener(es, SendMessage(m, Match(es, p)), Channel(rest, [], sent));
    assert RecvArm(es, c0) == Again(l1);
    PollGoesOn(l0);
    var l2 := Listener(es, Flush(Match(es, p)), Channel(rest, [], sent + [m]));
    assert SendArm(es, m, Match(es, p), l1.chan) == Again(l2);
    PollGoesOn(l1);
    if Match(es, p).Some? {
      assert FlushArm(es, Match(es, p), l2.chan) == Return(Ready(Ok((Match(es, p).value, Completed))), Listener(es, Done, l2.chan));
      PollReturns(l2);
    } else {
      assert FlushArm(es, None, l2.chan) == Again(Listener(es, RecvMessage, l2.chan));
      PollGoesOn(l2);
    }
  }

  /// The listener's replies are the answers the dialer model reads: the
  /// echo exactly when the name is supported.
  lemma ReplyIsAnswer(names: seq<Utf8>, p: Protocol)
    ensures Reply(Supported(names), p) == DialerSelect.Answer(SupportedNames(Supported(names)), p)
  {
    MatchSupported(names, p);
  }

  /// The listener's replies to a run of proposals.
  function Replies(es: seq<Entry>, ps: seq<Protocol>): (ms: seq<Message>)
    ensures |ms| == |ps|
  {
    seq(|ps|, i requires 0 <= i < |ps| => Reply(es, ps[i]))
  }

  /// The listener receiving, fed the dialer's proposals `ps[k..]` over a
  /// channel that loses nothing and is always ready, and then the end of
  /// the stream.
  function AgainstDialer(es: seq<Entry>, ps: seq<Protocol>, k: nat, sent: seq<Message>): (l: Listener)
    requires k <= |ps|
    ensures l.protocols == es && l.state == RecvMessage && l.chan.sink == [] && l.chan.sent == sent
  {
    Listener(es, RecvMessage, Channel(Script(DialerSelect.Proposals(ps[k..])) + [RecvEnd], [], sent))
  }

  /// The outcome that is meant: the first supported proposal completes
  /// with that name once everything before it was answered "na"; if none
  /// is supported every proposal is answered "na" and the negotiation
  /// fails at the end of the stream.
  function Intended(es: seq<Entry>, ps: seq<Protocol>, k: nat, sent: seq<Message>): (r: (Output, seq<Message>))
    requires k <= |ps|
    ensures r.0.Ready?
  {
    match DialerSelect.FirstSupported(SupportedNames(es), ps, k, |ps|)
    case Some(i) => (Ready(Ok((ps[i].name, Completed))), sent + Replies(es, ps[k..i + 1]))
    case None => (Ready(Err(Failed)), sent + Replies(es, ps[k..]))
  }

  /// An unsupported proposal passes the outcome on to the next.
  lemma IntendedSkips(es: seq<Entry>, ps: seq<Protocol>, k: nat, sent: seq<Message>)
    requires k < |ps| && ps[k].name !in SupportedNames(es) && Reply(es, ps[k]) == NotAvailable
    ensures Intended(es, ps, k, sent) == Intended(es, ps, k + 1, sent + [NotAvailable])
  {
    var first := DialerSelect.FirstSupported(SupportedNames(es), ps, k, |ps|);
    assert first == DialerSelect.FirstSupported(SupportedNames(es), ps, k + 1, |ps|);
    var j := if first.Some? then first.value + 1 else |ps|;
    assert Replies(es, ps[k..j]) == [NotAvailable] + Replies(es, ps[k + 1..j]) by { RepliesCons(es, ps, k, j); }
    DialerSelect.AppendCons(sent, NotAvailable, Replies(es, ps[k + 1..j]));
    if first.None? {
      assert ps[k..|ps|] == ps[k..] && ps[k + 1..|ps|] == ps[k + 1..];
    }
  }

  /// `Replies(es, ps[k..j])` starts with the reply to `ps[k]`.
  lemma RepliesCons(es: seq<Entry>, ps: seq<Protocol>, k: nat, j: nat)
    requires k < j <= |ps|
    ensures Replies(es, ps[k..j]) == [Reply(es, ps[k])] + Replies(es, ps[k + 1..j])
  {
    assert Replies(es, ps[k..j])[1..] == Replies(es, ps[k + 1..j]);
  }

  /// One proposal of the run received and answered.
  lemma ProposalTurn(names: seq<Utf8>, ps: seq<Protocol>, k: nat, sent: seq<Message>)
    requires k < |ps| && DialerSelect.Sendable(ps[k])
    ensures var es := Supported(names);
            var r := ListenerPoll(AgainstDialer(es, ps, k, sent));
            if ps[k].name in SupportedNames(es) then
              r.0 == Ready(Ok((ps[k].name, Completed))) && r.1.chan.sent == sent + [MessageProtocol(ps[k])]
            else
              Reply(es, ps[k]) == NotAvailable && r == ListenerPoll(AgainstDialer(es, ps, k + 1, sent + [NotAvailable]))
  {
    var es := Supported(names);
    var rest := Script(DialerSelect.Proposals(ps[k + 1..])) + [RecvEnd];
    assert Script(DialerSelect.Proposals(ps[k..])) + [RecvEnd] == [RecvMsg(MessageProtocol(ps[k]))] + rest;
    ProposalReceived(es, ps[k], rest, sent);
    MatchSupported(names, ps[k]);
  }

  /// The listener fed the dialer's proposals reaches the intended outcome.
  lemma {:induction false} ListenerAgainstDialer(names: seq<Utf8>, ps: seq<Protocol>, k: nat, sent: seq<Message>)
    requires k <= |ps| && forall i :: 0 <= i < |ps| ==> DialerSelect.Sendable(ps[i])
    ensures var es := Supported(names);
            var r := ListenerPoll(AgainstDialer(es, ps, k, sent));
            (r.0, r.1.chan.sent) == Intended(es, ps, k, sent)
    decreases |ps| - k
  {
    var es := Supported(names);
    if k == |ps| {
      EndOfProposals(es, ps, sent);
    } else if ps[k].name in SupportedNames(es) {
      SupportedProposal(names, ps, k, sent);
    } else {
      ProposalTurn(names, ps, k, sent);
      ListenerAgainstDialer(names, ps, k + 1, sent + [NotAvailable]);
      IntendedSkips(es, ps, k, sent);
    }
  }

  /// Once every proposal is answered the end of the stream fails the
  /// negotiation.
  lemma EndOfProposals(es: seq<Entry>, ps: seq<Protocol>, sent: seq<Message>)
    ensures var r := ListenerPoll(AgainstDialer(es, ps, |ps|, sent));
            (r.0, r.1.chan.sent) == Intended(es, ps, |ps|, sent)
  {
    var l := AgainstDialer(es, ps, |ps|, sent);
    assert l.chan.incoming == [RecvEnd];
    assert RecvArm(es, l.chan) == Return(Ready(Err(Failed)), Listener(es, Done, l.chan));
    PollReturns(l);
    assert DialerSelect.FirstSupported(SupportedNames(es), ps, |ps|, |ps|) == None;
    assert Replies(es, ps[|ps|..]) == [] && sent + [] == sent;
  }

  /// A supported proposal is echoed and completes the negotiation.
  lemma SupportedProposal(names: seq<Utf8>, ps: seq<Protocol>, k: nat, sent: seq<Message>)
    requires k < |ps| && DialerSelect.Sendable(ps[k]) && ps[k].name in SupportedNames(Supported(names))
    ensures var es := Supported(names);
            var r := ListenerPoll(AgainstDialer(es, ps, k, sent));
            (r.0, r.1.chan.sent) == Intended(es, ps, k, sent)
  {
    var es := Supported(names);
    ProposalTurn(names, ps, k, sent);
    assert DialerSelect.FirstSupported(SupportedNames(es), ps, k, |ps|) == Some(k);
    assert Replies(es, ps[k..k + 1]) == [MessageProtocol(ps[k])] by {
      MatchSupported(names, ps[k]);
    }
  }
}
