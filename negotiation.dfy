// The two sides of protocol negotiation run against each other over a
// channel that loses nothing and is always ready: the dialer reads the
// listener's replies and the listener reads the dialer's proposals.
module Negotiation {
  import opened Wrappers
  import opened Bytes
  import opened SelectProtocol
  import opened MessageChannel
  import opened NegotiatedStream
  import D = DialerSelect
  import L = ListenerSelect

  /// The listener's replies as the dialer's side of the channel.
  function Delivered(ms: seq<Message>): (s: seq<Incoming>)
    ensures |s| == |ms|
  {
    Script(ms)
  }

  /// What the listener answers is what the dialer reads.
  lemma {:induction false} RepliesAreAnswers(names: seq<Utf8>, ps: seq<Protocol>)
    ensures Delivered(L.Replies(L.Supported(names), ps)) == D.Answers(L.SupportedNames(L.Supported(names)), ps)
  {
    forall i | 0 <= i < |ps|
      ensures Delivered(L.Replies(L.Supported(names), ps))[i] == D.Answers(L.SupportedNames(L.Supported(names)), ps)[i]
    {
      L.ReplyIsAnswer(names, ps[i]);
    }
  }

  /// The first supported entry before the last is the first supported
  /// entry overall; with none before the last, the last decides.
  lemma FirstSupportedExtends(supported: set<seq<byte>>, ps: seq<Protocol>, from: nat)
    requires from < |ps|
    ensures var before := D.FirstSupported(supported, ps, from, |ps| - 1);
            var all := D.FirstSupported(supported, ps, from, |ps|);
            (before.Some? ==> all == before)
            && (before.None? && ps[|ps| - 1].name in supported ==> all == Some(|ps| - 1))
            && (before.None? && ps[|ps| - 1].name !in supported ==> all == None)
    decreases |ps| - from
  {
    if from < |ps| - 1 && ps[from].name !in supported {
      FirstSupportedExtends(supported, ps, from + 1);
    }
  }

  /// The dialer side of the run, from a new future.
  lemma DialerSide(names: seq<Utf8>, ps: seq<Protocol>)
    requires ps != [] && forall i :: 0 <= i < |ps| ==> D.Sendable(ps[i])
    ensures var es := L.Supported(names);
            var d := D.DialerPoll(D.Dialer(D.Names(ps), D.Initial,
                                           Channel(Delivered(L.Replies(es, ps[..|ps| - 1])), [], [])));
            (d.0, d.1.chan.sent) == D.Intended(L.SupportedNames(es), ps, 0, [])
  {
    RepliesAreAnswers(names, ps[..|ps| - 1]);
    D.StartsWithFirst(L.SupportedNames(L.Supported(names)), ps);
    D.DialerAgainstListener(L.SupportedNames(L.Supported(names)), ps, 0, []);
  }

  /// The listener's reply to the last proposal settles the Expecting
  /// stream the dialer returned: the echo confirms it, "na" fails it.
  lemma LastReplySettles(names: seq<Utf8>, last: Protocol)
    ensures var es := L.Supported(names);
            var confirm := PollNegotiatedSpec(Expecting(last), Channel([RecvMsg(L.Reply(es, last))], [], []));
            (last.name in L.SupportedNames(es) ==> confirm.0 == Ready(Ok(())) && confirm.1 == Completed)
            && (last.name !in L.SupportedNames(es) ==> confirm.0 == Ready(Err(Failed)))
  {
    var es := L.Supported(names);
    L.ReplyIsAnswer(names, last);
    ExpectingAnswered(last, L.Reply(es, last), [], [], []);
    assert [RecvMsg(L.Reply(es, last))] + [] == [RecvMsg(L.Reply(es, last))];
  }

  /// A proposal before the last that the listener supports settles both
  /// sides on the first such, with the stream completed.
  lemma NegotiateSettles(names: seq<Utf8>, ps: seq<Protocol>, i: nat)
    requires ps != [] && forall j :: 0 <= j < |ps| ==> D.Sendable(ps[j])
    requires D.FirstSupported(L.SupportedNames(L.Supported(names)), ps, 0, |ps| - 1) == Some(i)
    ensures var es := L.Supported(names);
            var d := D.DialerPoll(D.Dialer(D.Names(ps), D.Initial,
                                           Channel(Delivered(L.Replies(es, ps[..|ps| - 1])), [], [])));
            var l := L.ListenerPoll(L.AgainstDialer(es, ps, 0, []));
            && i < |ps| - 1
            && d.0 == l.0 == Ready(Ok((ps[i].name, Completed)))
            && d.1.chan.sent == D.Proposals(ps[..i + 1])
            && l.1.chan.sent == L.Replies(es, ps[..i + 1])
  {
    var es := L.Supported(names);
    DialerSide(names, ps);
    L.ListenerAgainstDialer(names, ps, 0, []);
    FirstSupportedExtends(L.SupportedNames(es), ps, 0);
    assert ps[0..i + 1] == ps[..i + 1];
  }

  /// With no supported proposal before the last, the dialer proposes
  /// them all and returns the last as Expecting.
  lemma DialerFallsToLast(names: seq<Utf8>, ps: seq<Protocol>)
    requires ps != [] && forall j :: 0 <= j < |ps| ==> D.Sendable(ps[j])
    requires D.FirstSupported(L.SupportedNames(L.Supported(names)), ps, 0, |ps| - 1).None?
    ensures var es := L.Supported(names);
            var last := ps[|ps| - 1];
            var d := D.DialerPoll(D.Dialer(D.Names(ps), D.Initial,
                                           Channel(Delivered(L.Replies(es, ps[..|ps| - 1])), [], [])));
            d.0 == Ready(Ok((last.name, Expecting(last)))) && d.1.chan.sent == D.Proposals(ps)
  {
    DialerSide(names, ps);
    assert ps[0..] == ps;
  }

  /// With no supported entry before the last, the listener's intended
  /// outcome is decided by the last proposal, after a reply to each.
  lemma IntendedAtLast(es: seq<L.Entry>, ps: seq<Protocol>)
    requires ps != [] && D.FirstSupported(L.SupportedNames(es), ps, 0, |ps| - 1).None?
    ensures L.Intended(es, ps, 0, []) ==
              if ps[|ps| - 1].name in L.SupportedNames(es)
              then (Ready(Ok((ps[|ps| - 1].name, Completed))), L.Replies(es, ps))
              else (Ready(Err(Failed)), L.Replies(es, ps))
  {
    var n := |ps|;
    FirstSupportedExtends(L.SupportedNames(es), ps, 0);
    assert ps[0..] == ps && ps[0..n - 1 + 1] == ps;
    assert [] + L.Replies(es, ps) == L.Replies(es, ps);
    if ps[n - 1].name in L.SupportedNames(es) {
      assert D.FirstSupported(L.SupportedNames(es), ps, 0, n) == Some(n - 1);
    } else {
      assert D.FirstSupported(L.SupportedNames(es), ps, 0, n) == None;
    }
  }

  /// With no supported proposal before the last, the listener replies to
  /// them all, and the last decides its outcome.
  lemma ListenerFallsToLast(names: seq<Utf8>, ps: seq<Protocol>)
    requires ps != [] && forall j :: 0 <= j < |ps| ==> D.Sendable(ps[j])
    requires D.FirstSupported(L.SupportedNames(L.Supported(names)), ps, 0, |ps| - 1).None?
    ensures var es := L.Supported(names);
            var last := ps[|ps| - 1];
            var l := L.ListenerPoll(L.AgainstDialer(es, ps, 0, []));
            && l.1.chan.sent == L.Replies(es, ps)
            && (last.name in L.SupportedNames(es) ==> l.0 == Ready(Ok((last.name, Completed))))
            && (last.name !in L.SupportedNames(es) ==> l.0 == Ready(Err(Failed)))
  {
    L.ListenerAgainstDialer(names, ps, 0, []);
    IntendedAtLast(L.Supported(names), ps);
  }

  /// With no supported proposal before the last, the dialer returns the
  /// last as Expecting, and the listener's reply to it decides both sides.
  lemma NegotiateFallsToLast(names: seq<Utf8>, ps: seq<Protocol>)
    requires ps != [] && forall j :: 0 <= j < |ps| ==> D.Sendable(ps[j])
    requires D.FirstSupported(L.SupportedNames(L.Supported(names)), ps, 0, |ps| - 1).None?
    ensures var es := L.Supported(names);
            var supported := L.SupportedNames(es);
            var last := ps[|ps| - 1];
            var d := D.DialerPoll(D.Dialer(D.Names(ps), D.Initial,
                                           Channel(Delivered(L.Replies(es, ps[..|ps| - 1])), [], [])));
            var l := L.ListenerPoll(L.AgainstDialer(es, ps, 0, []));
            var confirm := PollNegotiatedSpec(Expecting(last), Channel([RecvMsg(L.Reply(es, last))], [], []));
            && d.0 == Ready(Ok((last.name, Expecting(last))))
            && d.1.chan.sent == D.Proposals(ps)
            && l.1.chan.sent == L.Replies(es, ps)
            && (last.name in supported ==>
                  l.0 == Ready(Ok((last.name, Completed))) && confirm.0 == Ready(Ok(())) && confirm.1 == Completed)
            && (last.name !in supported ==>
                  l.0 == Ready(Err(Failed)) && confirm.0 == Ready(Err(Failed)))
  {
    DialerFallsToLast(names, ps);
    ListenerFallsToLast(names, ps);
    LastReplySettles(names, ps[|ps| - 1]);
  }

  /// Negotiation between a dialer proposing the protocols `ps`, in order,
  /// and a listener created with `names`. The dialer's proposals are, in
  /// order, what the listener reads (`AgainstDialer`), and the listener's
  /// replies to the proposals before the last are what the dialer reads.
  /// If some proposal before the last is supported, both sides settle on
  /// the first such, with the stream completed. Otherwise the dialer
  /// returns the last proposal as Expecting, and the listener's reply to it
  /// either is the echo, which the listener returns as completed and
  /// `Negotiated` confirms, or "na", which fails both sides.
  lemma Negotiate(names: seq<Utf8>, ps: seq<Protocol>)
    requires ps != [] && forall i :: 0 <= i < |ps| ==> D.Sendable(ps[i])
    ensures var es := L.Supported(names);
            var supported := L.SupportedNames(es);
            var last := ps[|ps| - 1];
            var d := D.DialerPoll(D.Dialer(D.Names(ps), D.Initial,
                                           Channel(Delivered(L.Replies(es, ps[..|ps| - 1])), [], [])));
            var l := L.ListenerPoll(L.AgainstDialer(es, ps, 0, []));
            match D.FirstSupported(supported, ps, 0, |ps| - 1)
            case Some(i) =>
              d.0 == l.0 == Ready(Ok((ps[i].name, Completed)))
              && d.1.chan.sent == D.Proposals(ps[..i + 1])
              && l.1.chan.sent == L.Replies(es, ps[..i + 1])
            case None =>
              var confirm := PollNegotiatedSpec(Expecting(last), Channel([RecvMsg(L.Reply(es, last))], [], []));
              d.0 == Ready(Ok((last.name, Expecting(last))))
              && d.1.chan.sent == D.Proposals(ps)
              && l.1.chan.sent == L.Replies(es, ps)
              && (last.name in supported ==>
                    l.0 == Ready(Ok((last.name, Completed))) && confirm.0 == Ready(Ok(())) && confirm.1 == Completed)
              && (last.name !in supported ==>
                    l.0 == Ready(Err(Failed)) && confirm.0 == Ready(Err(Failed)))
  {
    match D.FirstSupported(L.SupportedNames(L.Supported(names)), ps, 0, |ps| - 1)
    case Some(i) => NegotiateSettles(names, ps, i);
    case None => NegotiateFallsToLast(names, ps);
  }
}
