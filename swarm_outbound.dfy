// The poll loop of an outbound-only connection
// (volans-swarm/src/connection/outbound.rs). As for the inbound
// connection, the handler, the muxer, the upgrades in flight and the
// timers are the environment, read from one `Turn` per pass of the loop,
// and the calls the loop makes into the handler are recorded in order.
module SwarmOutbound {
  import opened Wrappers
  import opened Io
  import opened Time
  import opened SwarmError
  import opened SwarmHandler
  import opened SwarmConnection
  import SwarmInbound

  /// What the environment answers during one pass of the loop.
  datatype Turn<Ev, U, D, O, E> = Turn(
    requestTimedOut: Option<nat>,                    // a requested substream whose timer fired
    outboundRequest: Poll<SubstreamProtocol<U, D>>,  // handler.poll_outbound_request
    handler: Poll<ConnectionHandlerEvent<Ev>>,       // handler.poll
    finished: Option<SwarmInbound.Finished<O, E>>,   // negotiating_out.poll_next_unpin
    keepAlive: bool,                                 // handler.connection_keep_alive
    noActiveStreams: bool,                           // stream_counter.no_active_streams
    now: Duration,
    headroom: Duration,
    delayFired: bool,                                // the Later timer
    muxer: Result<(), IoError>,                      // muxer.poll_unpin
    outbound: Poll<Result<(), IoError>>,             // muxer.poll_outbound_unpin
    nextRequest: nat)                                // which request iter_mut().next() yields,
                                                     // counted modulo the number of requests

  /// The state the loop changes: the `closing` flag, the requested
  /// substreams, the user data of the upgrades in flight, and the shutdown
  /// timer.
  datatype State<U, D> = State(closing: bool, requested: seq<SubstreamRequested<U, D>>, negotiating: seq<D>, shutdown: Shutdown)

  datatype Turned<U, D, O, E, Ev> = Turned(next: State<U, D>, calls: seq<HandlerCall<D, O, StreamUpgradeError<E>>>, outcome: Outcome<Ev>)

  /// The first request already extracted, if any. An extracted request
  /// has woken its task, so it is ready and the next poll of the requests
  /// yields it.
  function FirstDone<U, D>(rs: seq<SubstreamRequested<U, D>>): (r: Option<nat>)
    ensures r.Some? ==> r.value < |rs| && rs[r.value].Done?
    ensures r.None? ==> forall i :: 0 <= i < |rs| ==> rs[i].Waiting?
  {
    if rs == [] then None
    else if rs[0].Done? then Some(0)
    else
      var k := FirstDone(rs[1..]);
      if k.Some? then Some(k.value + 1) else None
  }

  /// The result of a request whose timer fired: the request is settled
  /// and its user data handed to the handler with a Timeout.
  lemma TimedOutRequest<U, D>(s: SubstreamRequested<U, D>)
    requires s.Waiting?
    ensures PollRequested(s, true) == (Done, Ready(Err(s.userData)))
  {
  }

  /// One pass of the loop of `OutboundConnection::poll`.
  function Step<Ev, U, D, O, E>(s: State<U, D>, idleTimeout: Duration, t: Turn<Ev, U, D, O, E>)
    : (r: Turned<U, D, O, E, Ev>)
    ensures r.next.closing <==> s.closing || (FirstDone(s.requested).None? && RequestTimedOut(s, t).None?
                                              && t.outboundRequest.Pending? && t.handler == Ready(CloseConnection))
  {
    if s.closing then Turned(s, [], Return(Ready(Err(Closing))))
    else RequestsPhase(s, idleTimeout, t)
  }

  /// The requested substreams first, then the handler's new requests.
  function RequestsPhase<Ev, U, D, O, E>(s: State<U, D>, idleTimeout: Duration, t: Turn<Ev, U, D, O, E>)
    : (r: Turned<U, D, O, E, Ev>)
  {
    if FirstDone(s.requested).Some? then
      // The request yields Ok(()) and leaves the set.
      Turned(s.(requested := SwarmInbound.Remove(s.requested, FirstDone(s.requested).value)), [], Continue)
    else if RequestTimedOut(s, t).Some? then
      var i := RequestTimedOut(s, t).value;
      var polled := PollRequested(s.requested[i], true);
      Turned(s.(requested := SwarmInbound.Remove(s.requested, i)),
             [UpgradeFailed(polled.1.value.error, Timeout)], Continue)
    else if t.outboundRequest.Ready? then
      var p := t.outboundRequest.value;
      Turned(s.(requested := s.requested + [NewRequested(p.upgrade, p.userData, p.timeout)]), [], Continue)
    else HandlerPhase(s, idleTimeout, t)
  }

  /// The handler's own events, then the upgrades in flight.
  function HandlerPhase<Ev, U, D, O, E>(s: State<U, D>, idleTimeout: Duration, t: Turn<Ev, U, D, O, E>)
    : (r: Turned<U, D, O, E, Ev>)
    requires FirstDone(s.requested).None?
  {
    if t.handler.Ready? then
      match t.handler.value
      case Notify(ev) => Turned(s, [], Return(Ready(Ok(ev))))
      case CloseConnection => Turned(s.(closing := true), [], Continue)
    else if t.finished.Some? && t.finished.value.index < |s.negotiating| then
      var i := t.finished.value.index;
      var info := s.negotiating[i];
      var call := if t.finished.value.result.Ok? then FullyNegotiated(info, t.finished.value.result.value)
                  else UpgradeFailed(info, t.finished.value.result.error);
      Turned(s.(negotiating := SwarmInbound.Remove(s.negotiating, i)), [call], Continue)
    else IdlePhase(s, idleTimeout, t)
  }

  /// The request `requested_substreams.iter_mut().next()` yields. The
  /// iteration order of the futures set is not the order of pushing, so
  /// which one comes first is an input of the pass.
  function NextRequest<U, D, Ev, O, E>(s: State<U, D>, t: Turn<Ev, U, D, O, E>): (r: nat)
    requires s.requested != []
    ensures r < |s.requested|
  {
    t.nextRequest % |s.requested|
  }

  /// The idle check, the muxer, and a new outbound substream for the
  /// request the set yields first.
  function IdlePhase<Ev, U, D, O, E>(s: State<U, D>, idleTimeout: Duration, t: Turn<Ev, U, D, O, E>)
    : (r: Turned<U, D, O, E, Ev>)
    requires FirstDone(s.requested).None?
    ensures r.next.closing == s.closing
    ensures r.next.negotiating == s.negotiating || (s.requested != [] && t.outbound.Ready? && t.outbound.value.Ok?
              && r.next.negotiating == s.negotiating + [s.requested[NextRequest(s, t)].userData]
              && r.next.requested == s.requested[NextRequest(s, t) := Done])
    ensures r.next.negotiating == s.negotiating ==> r.next.requested == s.requested
    ensures r.calls == []
  {
    var idle := s.negotiating == [] && s.requested == [] && t.noActiveStreams;
    var shutdown := NextShutdown(idle, t.keepAlive, s.shutdown, idleTimeout, t.now, t.headroom);
    var s' := s.(shutdown := shutdown);
    if ShutdownFires(idle, shutdown, t.delayFired) then Turned(s', [], Return(Ready(Err(KeepAliveTimeout))))
    else if t.muxer.Err? then Turned(s', [], Return(Ready(Err(ConnectionIo(t.muxer.error)))))
    else if s.requested != [] && t.outbound.Ready? then
      if t.outbound.value.Err? then Turned(s', [], Return(Ready(Err(ConnectionIo(t.outbound.value.error)))))
      else
        var i := NextRequest(s, t);
        var extracted := Extract(s.requested[i]);
        Turned(s'.(requested := s.requested[i := extracted.0], negotiating := s.negotiating + [extracted.1.1]), [], Continue)
    else Turned(s', [], Return(Pending))
  }

  /// The request whose timer fired at this pass, when it is one still
  /// waiting.
  function RequestTimedOut<Ev, U, D, O, E>(s: State<U, D>, t: Turn<Ev, U, D, O, E>): (r: Option<nat>)
    ensures r.Some? ==> r.value < |s.requested| && s.requested[r.value].Waiting?
  {
    if t.requestTimedOut.Some? && t.requestTimedOut.value < |s.requested| && s.requested[t.requestTimedOut.value].Waiting?
    then t.requestTimedOut else None
  }

  datatype Ran<U, D, O, E, Ev> = Ran(last: State<U, D>, log: seq<HandlerCall<D, O, StreamUpgradeError<E>>>,
                                     result: Poll<Result<Ev, ConnectionError>>)

  /// The loop run over the given turns, one per pass; None when the turns
  /// run out before the loop returns.
  function Run<Ev, U, D, O, E>(s: State<U, D>, idleTimeout: Duration, log: seq<HandlerCall<D, O, StreamUpgradeError<E>>>,
                               turns: seq<Turn<Ev, U, D, O, E>>): Option<Ran<U, D, O, E, Ev>>
    decreases |turns|
  {
    if turns == [] then None
    else
      var st := Step(s, idleTimeout, turns[0]);
      if st.outcome.Return? then Some(Ran(st.next, log + st.calls, st.outcome.result))
      else Run(st.next, idleTimeout, log + st.calls, turns[1..])
  }

  /// The first pass of a run.
  lemma RunStep<Ev, U, D, O, E>(s: State<U, D>, idleTimeout: Duration, log: seq<HandlerCall<D, O, StreamUpgradeError<E>>>,
                                turns: seq<Turn<Ev, U, D, O, E>>)
    requires turns != []
    ensures var st := Step(s, idleTimeout, turns[0]);
            Run(s, idleTimeout, log, turns)
            == if st.outcome.Return? then Some(Ran(st.next, log + st.calls, st.outcome.result))
               else Run(st.next, idleTimeout, log + st.calls, turns[1..])
  {
  }

  /// `OutboundConnection`.
  class OutboundConnection<U, D, O, E> {
    const idleTimeout: Duration
    var closing: bool
    var requested: seq<SubstreamRequested<U, D>>
    /// The user data of the upgrades in `negotiating_out`.
    var negotiating: seq<D>
    var shutdown: Shutdown
    /// The handler calls made so far.
    var calls: seq<HandlerCall<D, O, StreamUpgradeError<E>>>

    function Current(): State<U, D>
      reads this
    {
      State(closing, requested, negotiating, shutdown)
    }

    /// `OutboundConnection::new`.
    constructor(idleTimeout: Duration)
      ensures this.idleTimeout == idleTimeout
      ensures Current() == State(false, [], [], NoShutdown) && calls == []
    {
      this.idleTimeout := idleTimeout;
      closing := false;
      requested := [];
      negotiating := [];
      shutdown := NoShutdown;
      calls := [];
    }

    /// `is_closing`.
    function IsClosing(): (r: bool)
      reads this
      ensures r == Current().closing
    {
      closing
    }

    /// `OutboundConnection::poll`, over the environment's answers at each
    /// pass; the answers must make the loop return.
    method Poll<Ev>(turns: seq<Turn<Ev, U, D, O, E>>) returns (r: Poll<Result<Ev, ConnectionError>>)
      requires Run(Current(), idleTimeout, calls, turns).Some?
      modifies this
      ensures Run(old(Current()), idleTimeout, old(calls), turns) == Some(Ran(Current(), calls, r))
    {
      var cur, log, i := Current(), calls, 0;
      while true
        invariant i <= |turns|
        invariant Run(cur, idleTimeout, log, turns[i..]) == Run(old(Current()), idleTimeout, old(calls), turns)
        invariant Run(cur, idleTimeout, log, turns[i..]).Some?
        decreases |turns| - i
      {
        var st := Step(cur, idleTimeout, turns[i]);
        assert turns[i..][1..] == turns[i + 1..];
        RunStep(cur, idleTimeout, log, turns[i..]);
        cur, log := st.next, log + st.calls;
        if st.outcome.Return? {
          r := st.outcome.result;
          break;
        }
        i := i + 1;
      }
      closing, requested, negotiating, shutdown := cur.closing, cur.requested, cur.negotiating, cur.shutdown;
      calls := log;
    }
  }

  // ---------------------------------------------------------------------
  // Properties

  /// The user data of the requests still waiting.
  function WaitingData<U, D>(rs: seq<SubstreamRequested<U, D>>): multiset<D>
  {
    if rs == [] then multiset{} else (if rs[0].Waiting? then multiset{rs[0].userData} else multiset{}) + WaitingData(rs[1..])
  }

  /// The user data the connection holds: that of the requests still
  /// waiting and that of the upgrades in flight.
  function Held<U, D>(s: State<U, D>): multiset<D>
  {
    WaitingData(s.requested) + multiset(s.negotiating)
  }

  /// The user data handed to the handler.
  function Handed<D, O, X>(calls: seq<HandlerCall<D, O, X>>): multiset<D>
  {
    if calls == [] then multiset{} else multiset{calls[0].info} + Handed(calls[1..])
  }

  lemma {:induction false} WaitingDataAppend<U, D>(a: seq<SubstreamRequested<U, D>>, b: seq<SubstreamRequested<U, D>>)
    ensures WaitingData(a + b) == WaitingData(a) + WaitingData(b)
    decreases |a|
  {
    if a == [] {
      assert a + b == b;
    } else {
      assert (a + b)[0] == a[0];
      assert (a + b)[1..] == a[1..] + b;
      WaitingDataAppend(a[1..], b);
    }
  }

  lemma SplitAt<T>(s: seq<T>, i: nat)
    requires i < |s|
    ensures s == (s[..i] + [s[i]]) + s[i + 1..]
  {
  }

  lemma WaitingDataRemove<U, D>(rs: seq<SubstreamRequested<U, D>>, i: nat)
    requires i < |rs|
    ensures WaitingData(rs) == WaitingData(SwarmInbound.Remove(rs, i)) + WaitingData([rs[i]])
  {
    var pre, x, post := rs[..i], [rs[i]], rs[i + 1..];
    SplitAt(rs, i);
    assert SwarmInbound.Remove(rs, i) == pre + post;
    WaitingDataAppend(pre + x, post);
    WaitingDataAppend(pre, x);
    WaitingDataAppend(pre, post);
  }

  lemma WaitingDataOne<U, D>(x: SubstreamRequested<U, D>)
    ensures WaitingData([x]) == if x.Waiting? then multiset{x.userData} else multiset{}
  {
    assert [x][1..] == [];
  }

  lemma WaitingDataAround<U, D>(rs: seq<SubstreamRequested<U, D>>, i: nat)
    requires i < |rs|
    ensures WaitingData(rs) == WaitingData(rs[..i]) + WaitingData([rs[i]]) + WaitingData(rs[i + 1..])
  {
    SplitAt(rs, i);
    WaitingDataAppend(rs[..i] + [rs[i]], rs[i + 1..]);
    WaitingDataAppend(rs[..i], [rs[i]]);
  }

  lemma WaitingDataExtract<U, D>(rs: seq<SubstreamRequested<U, D>>, i: nat)
    requires i < |rs| && rs[i].Waiting?
    ensures WaitingData(rs) == WaitingData(rs[i := Done]) + multiset{rs[i].userData}
  {
    var done := rs[i := Done];
    WaitingDataAround(rs, i);
    WaitingDataAround(done, i);
    assert done[..i] == rs[..i] && done[i + 1..] == rs[i + 1..];
    WaitingDataOne(rs[i]);
    WaitingDataOne(done[i]);
  }

  lemma IdlePhaseKeepsData<Ev, U, D, O, E>(s: State<U, D>, idleTimeout: Duration, t: Turn<Ev, U, D, O, E>)
    requires FirstDone(s.requested).None?
    ensures Held(IdlePhase(s, idleTimeout, t).next) == Held(s)
    ensures IdlePhase(s, idleTimeout, t).calls == []
  {
    var r := IdlePhase(s, idleTimeout, t);
    if r.next.negotiating != s.negotiating {
      WaitingDataExtract(s.requested, NextRequest(s, t));
    }
  }

  lemma HandlerPhaseKeepsData<Ev, U, D, O, E>(s: State<U, D>, idleTimeout: Duration, t: Turn<Ev, U, D, O, E>)
    requires FirstDone(s.requested).None?
    ensures var r := HandlerPhase(s, idleTimeout, t);
            Held(r.next) + Handed(r.calls) == Held(s)
  {
    var r := HandlerPhase(s, idleTimeout, t);
    if t.handler.Ready? {
    } else if t.finished.Some? && t.finished.value.index < |s.negotiating| {
      var i := t.finished.value.index;
      assert Handed(r.calls) == multiset{s.negotiating[i]};
    } else {
      IdlePhaseKeepsData(s, idleTimeout, t);
    }
  }

  lemma SweepKeepsData<U, D>(s: State<U, D>, i: nat)
    requires i < |s.requested| && s.requested[i].Done?
    ensures Held(s.(requested := SwarmInbound.Remove(s.requested, i))) == Held(s)
  {
    WaitingDataRemove(s.requested, i);
    assert WaitingData([s.requested[i]]) == multiset{};
  }

  lemma TimeoutHandsData<U, D>(s: State<U, D>, i: nat)
    requires i < |s.requested| && s.requested[i].Waiting?
    ensures Held(s.(requested := SwarmInbound.Remove(s.requested, i))) + multiset{s.requested[i].userData} == Held(s)
  {
    WaitingDataRemove(s.requested, i);
    assert WaitingData([s.requested[i]]) == multiset{s.requested[i].userData};
  }

  lemma QueueAddsData<U, D>(s: State<U, D>, x: SubstreamRequested<U, D>)
    requires x.Waiting?
    ensures Held(s.(requested := s.requested + [x])) == Held(s) + multiset{x.userData}
  {
    WaitingDataAppend(s.requested, [x]);
    assert WaitingData([x]) == multiset{x.userData};
  }

  /// The user data is handed out exactly once. At each pass the data held
  /// plus the data handed to the handler is the data held before, plus
  /// that of a request the handler has just queued: a request's data
  /// moves to its upgrade or, on a timeout, to the handler, and an
  /// upgrade's data to the handler, and none is lost or duplicated.
  lemma UserDataHandedOnce<Ev, U, D, O, E>(s: State<U, D>, idleTimeout: Duration, t: Turn<Ev, U, D, O, E>)
    ensures var r := Step(s, idleTimeout, t);
            Held(r.next) + Handed(r.calls)
            == Held(s) + (if QueuesRequest(s, t) then multiset{t.outboundRequest.value.userData} else multiset{})
  {
    var r := Step(s, idleTimeout, t);
    if s.closing {
      assert r == Turned(s, [], Return(Ready(Err(Closing))));
    } else if FirstDone(s.requested).Some? {
      var i := FirstDone(s.requested).value;
      assert r == Turned(s.(requested := SwarmInbound.Remove(s.requested, i)), [], Continue);
      SweepKeepsData(s, i);
    } else if RequestTimedOut(s, t).Some? {
      var i := RequestTimedOut(s, t).value;
      TimedOutRequest(s.requested[i]);
      assert r == Turned(s.(requested := SwarmInbound.Remove(s.requested, i)), [UpgradeFailed(s.requested[i].userData, Timeout)], Continue);
      TimeoutHandsData(s, i);
      assert Handed(r.calls) == multiset{s.requested[i].userData};
    } else if t.outboundRequest.Ready? {
      var p := t.outboundRequest.value;
      var x := NewRequested(p.upgrade, p.userData, p.timeout);
      assert r == Turned(s.(requested := s.requested + [x]), [], Continue);
      QueueAddsData(s, x);
    } else {
      assert r == HandlerPhase(s, idleTimeout, t);
      HandlerPhaseKeepsData(s, idleTimeout, t);
    }
  }

  /// The handler's new request is queued at this pass.
  predicate QueuesRequest<Ev, U, D, O, E>(s: State<U, D>, t: Turn<Ev, U, D, O, E>)
  {
    !s.closing && FirstDone(s.requested).None? && RequestTimedOut(s, t).None? && t.outboundRequest.Ready?
  }

  /// A request the handler asks for is queued with its own upgrade, user
  /// data and timeout, not yet extracted.
  lemma RequestQueued<Ev, U, D, O, E>(s: State<U, D>, idleTimeout: Duration, t: Turn<Ev, U, D, O, E>)
    requires QueuesRequest(s, t)
    ensures var p := t.outboundRequest.value;
            Step(s, idleTimeout, t) == Turned(s.(requested := s.requested + [Waiting(p.timeout, p.upgrade, p.userData, false)]), [], Continue)
  {
  }

  /// A request whose timer fired leaves the queue and its user data goes
  /// to the handler with a Timeout.
  lemma TimeoutReported<Ev, U, D, O, E>(s: State<U, D>, idleTimeout: Duration, t: Turn<Ev, U, D, O, E>)
    requires !s.closing && FirstDone(s.requested).None? && RequestTimedOut(s, t).Some?
    ensures var i := RequestTimedOut(s, t).value;
            Step(s, idleTimeout, t)
            == Turned(s.(requested := SwarmInbound.Remove(s.requested, i)), [UpgradeFailed(s.requested[i].userData, Timeout)], Continue)
  {
    TimedOutRequest(s.requested[RequestTimedOut(s, t).value]);
  }

  /// Every completed upgrade reaches the handler, a success as such and
  /// any error, a timeout or a failed negotiation included, as an error.
  lemma EveryResultDelivered<Ev, U, D, O, E>(s: State<U, D>, idleTimeout: Duration, t: Turn<Ev, U, D, O, E>)
    requires !s.closing && FirstDone(s.requested).None? && RequestTimedOut(s, t).None?
    requires t.outboundRequest.Pending? && t.handler.Pending?
    requires t.finished.Some? && t.finished.value.index < |s.negotiating|
    ensures var r := Step(s, idleTimeout, t);
            var info := s.negotiating[t.finished.value.index];
            var res := t.finished.value.result;
            && r.calls == [if res.Ok? then FullyNegotiated(info, res.value) else UpgradeFailed(info, res.error)]
            && r.next.negotiating == SwarmInbound.Remove(s.negotiating, t.finished.value.index)
  {
  }

  /// A new outbound substream is asked for only while a request waits,
  /// and it is bound to the request the set yields first, which is
  /// extracted; every other request keeps waiting.
  lemma OutboundBoundToWaitingRequest<Ev, U, D, O, E>(s: State<U, D>, idleTimeout: Duration, t: Turn<Ev, U, D, O, E>)
    requires !s.closing && FirstDone(s.requested).None? && RequestTimedOut(s, t).None?
    requires t.outboundRequest.Pending? && t.handler.Pending?
    requires t.finished.None? || t.finished.value.index >= |s.negotiating|
    ensures var r := Step(s, idleTimeout, t);
            r.next.negotiating != s.negotiating ==>
              s.requested != [] && t.outbound.Ready? && t.outbound.value.Ok?
              && var i := NextRequest(s, t);
                 s.requested[i].Waiting?
                 && r.next.negotiating == s.negotiating + [s.requested[i].userData]
                 && r.next.requested == s.requested[i := Done]
                 && forall j :: 0 <= j < |s.requested| && j != i ==> r.next.requested[j].Waiting?
  {
    assert Step(s, idleTimeout, t) == HandlerPhase(s, idleTimeout, t);
  }

  /// A request still waiting keeps the connection busy: the shutdown
  /// timer is cleared and the connection does not time out.
  lemma RequestKeepsAlive<Ev, U, D, O, E>(s: State<U, D>, idleTimeout: Duration, t: Turn<Ev, U, D, O, E>)
    requires !s.closing && s.requested != []
    requires FirstDone(s.requested).None? && RequestTimedOut(s, t).None?
    requires t.outboundRequest.Pending? && t.handler.Pending?
    requires t.finished.None? || t.finished.value.index >= |s.negotiating|
    ensures Step(s, idleTimeout, t).next.shutdown == NoShutdown
    ensures Step(s, idleTimeout, t).outcome != Return(Ready(Err(KeepAliveTimeout)))
  {
  }

  /// Once closing, every pass returns Closing at once and changes nothing.
  lemma ClosingIsFinal<Ev, U, D, O, E>(s: State<U, D>, idleTimeout: Duration, log: seq<HandlerCall<D, O, StreamUpgradeError<E>>>,
                                      turns: seq<Turn<Ev, U, D, O, E>>)
    requires s.closing && turns != []
    ensures Run(s, idleTimeout, log, turns) == Some(Ran(s, log, Ready(Err(Closing))))
  {
    assert Step(s, idleTimeout, turns[0]) == Turned(s, [], Return(Ready(Err(Closing))));
    assert log + [] == log;
  }
}
