// The poll loop of an inbound-only connection
// (volans-swarm/src/connection/inbound.rs). The handler, the muxer, the
// upgrades in flight and the timers are the environment: each pass of the
// loop reads what they answer at that pass from a `Turn`, and the calls
// the loop makes into the handler are recorded in order.
module SwarmInbound {
  import opened Wrappers
  import opened Io
  import opened Time
  import opened SwarmError
  import opened SwarmHandler
  import opened SwarmConnection

  /// An upgrade in flight that completes at this pass: its position among
  /// those in flight and its result.
  datatype Finished<O, E> = Finished(index: nat, result: Result<O, StreamUpgradeError<E>>)

  /// What the environment answers during one pass of the loop.
  datatype Turn<Ev, D, O, E> = Turn(
    handler: Poll<ConnectionHandlerEvent<Ev>>,  // handler.poll
    finished: Option<Finished<O, E>>,           // negotiating_in.poll_next_unpin
    keepAlive: bool,                            // handler.connection_keep_alive
    noActiveStreams: bool,                      // stream_counter.no_active_streams
    now: Duration,
    headroom: Duration,
    delayFired: bool,                           // the Later timer
    muxer: Result<(), IoError>,                 // muxer.poll_unpin
    inbound: Poll<Result<(), IoError>>,         // muxer.poll_inbound_unpin
    listenUserData: D)                          // handler.listen_protocol's user data

  /// The state the loop changes: the `closing` flag, the user data of the
  /// upgrades in flight, and the shutdown timer.
  datatype State<D> = State(closing: bool, negotiating: seq<D>, shutdown: Shutdown)

  /// What one pass leaves: the new state, the handler calls it made, and
  /// whether the loop goes on.
  datatype Turned<D, O, E, Ev> = Turned(next: State<D>, calls: seq<HandlerCall<D, O, E>>, outcome: Outcome<Ev>)

  /// `s` without its element at `i`.
  function Remove<T>(s: seq<T>, i: nat): (r: seq<T>)
    requires i < |s|
    ensures |r| == |s| - 1
    ensures multiset(r) + multiset{s[i]} == multiset(s)
  {
    assert s == s[..i] + [s[i]] + s[i + 1..];
    s[..i] + s[i + 1..]
  }

  /// The calls a completed upgrade makes: a success and an error of the
  /// upgrade itself reach the handler; a timeout, a failed negotiation and
  /// an I/O error are only logged.
  function Deliver<D, O, E>(info: D, result: Result<O, StreamUpgradeError<E>>): (r: seq<HandlerCall<D, O, E>>)
    ensures result.Ok? ==> r == [FullyNegotiated(info, result.value)]
    ensures result.Err? && result.error.Apply? ==> r == [UpgradeFailed(info, result.error.err)]
    ensures result.Err? && !result.error.Apply? ==> r == []
  {
    match result
    case Ok(o) => [FullyNegotiated(info, o)]
    case Err(Apply(e)) => [UpgradeFailed(info, e)]
    case Err(_) => []
  }

  /// One pass of the loop of `InboundConnection::poll`.
  function Step<Ev, D, O, E>(s: State<D>, maxNegotiating: nat, idleTimeout: Duration, t: Turn<Ev, D, O, E>)
    : (r: Turned<D, O, E, Ev>)
    ensures |s.negotiating| <= maxNegotiating ==> |r.next.negotiating| <= maxNegotiating
    ensures r.next.closing <==> s.closing || (t.handler == Ready(CloseConnection))
  {
    if s.closing then Turned(s, [], Return(Ready(Err(Closing))))
    else if t.handler.Ready? then
      match t.handler.value
      case Notify(ev) => Turned(s, [], Return(Ready(Ok(ev))))
      case CloseConnection => Turned(s.(closing := true), [], Continue)
    else if t.finished.Some? && t.finished.value.index < |s.negotiating| then
      var i := t.finished.value.index;
      Turned(s.(negotiating := Remove(s.negotiating, i)), Deliver(s.negotiating[i], t.finished.value.result), Continue)
    else
      var idle := s.negotiating == [] && t.noActiveStreams;
      var shutdown := NextShutdown(idle, t.keepAlive, s.shutdown, idleTimeout, t.now, t.headroom);
      var s' := s.(shutdown := shutdown);
      if ShutdownFires(idle, shutdown, t.delayFired) then Turned(s', [], Return(Ready(Err(KeepAliveTimeout))))
      else if t.muxer.Err? then Turned(s', [], Return(Ready(Err(ConnectionIo(t.muxer.error)))))
      else if |s.negotiating| < maxNegotiating && t.inbound.Ready? then
        if t.inbound.value.Err? then Turned(s', [], Return(Ready(Err(ConnectionIo(t.inbound.value.error)))))
        else Turned(s'.(negotiating := s.negotiating + [t.listenUserData]), [], Continue)
      else Turned(s', [], Return(Pending))
  }

  /// The end of a run of `poll`: the last state, every handler call made
  /// (after `log`, the calls made before), and what `poll` returned.
  datatype Ran<D, O, E, Ev> = Ran(last: State<D>, log: seq<HandlerCall<D, O, E>>, result: Poll<Result<Ev, ConnectionError>>)

  /// The loop run over the given turns, one per pass; None when the turns
  /// run out before the loop returns.
  function Run<Ev, D, O, E>(s: State<D>, maxNegotiating: nat, idleTimeout: Duration, log: seq<HandlerCall<D, O, E>>,
                            turns: seq<Turn<Ev, D, O, E>>): Option<Ran<D, O, E, Ev>>
    decreases |turns|
  {
    if turns == [] then None
    else
      var st := Step(s, maxNegotiating, idleTimeout, turns[0]);
      if st.outcome.Return? then Some(Ran(st.next, log + st.calls, st.outcome.result))
      else Run(st.next, maxNegotiating, idleTimeout, log + st.calls, turns[1..])
  }

  /// `InboundConnection`.
  class InboundConnection<D, O, E> {
    const maxNegotiatingInboundStreams: nat
    const idleTimeout: Duration
    var closing: bool
    /// The user data of the upgrades in `negotiating_in`.
    var negotiating: seq<D>
    var shutdown: Shutdown
    /// The handler calls made so far.
    var calls: seq<HandlerCall<D, O, E>>

    /// No more upgrades are in flight than the cap allows.
    ghost predicate Valid()
      reads this
    {
      |negotiating| <= maxNegotiatingInboundStreams
    }

    function Current(): State<D>
      reads this
    {
      State(closing, negotiating, shutdown)
    }

    /// `InboundConnection::new`.
    constructor(maxNegotiatingInboundStreams: nat, idleTimeout: Duration)
      ensures Valid()
      ensures this.maxNegotiatingInboundStreams == maxNegotiatingInboundStreams && this.idleTimeout == idleTimeout
      ensures Current() == State(false, [], NoShutdown) && calls == []
    {
      this.maxNegotiatingInboundStreams := maxNegotiatingInboundStreams;
      this.idleTimeout := idleTimeout;
      closing := false;
      negotiating := [];
      shutdown := NoShutdown;
      calls := [];
    }

    /// `InboundConnection::poll`, over the environment's answers at each
    /// pass; the answers must make the loop return.
    method Poll<Ev>(turns: seq<Turn<Ev, D, O, E>>) returns (r: Poll<Result<Ev, ConnectionError>>)
      requires Valid()
      requires Run(Current(), maxNegotiatingInboundStreams, idleTimeout, calls, turns).Some?
      modifies this
      ensures Valid()
      ensures Run(old(Current()), maxNegotiatingInboundStreams, idleTimeout, old(calls), turns) == Some(Ran(Current(), calls, r))
    {
      var i := 0;
      while true
        invariant i <= |turns| && Valid()
        invariant Run(Current(), maxNegotiatingInboundStreams, idleTimeout, calls, turns[i..])
                  == Run(old(Current()), maxNegotiatingInboundStreams, idleTimeout, old(calls), turns)
        invariant Run(Current(), maxNegotiatingInboundStreams, idleTimeout, calls, turns[i..]).Some?
        decreases |turns| - i
      {
        var st := Step(Current(), maxNegotiatingInboundStreams, idleTimeout, turns[i]);
        assert turns[i..][1..] == turns[i + 1..];
        closing, negotiating, shutdown := st.next.closing, st.next.negotiating, st.next.shutdown;
        calls := calls + st.calls;
        if st.outcome.Return? {
          return st.outcome.result;
        }
        i := i + 1;
      }
    }
  }

  // ---------------------------------------------------------------------
  // Properties

  /// Once closing, every pass returns Closing at once and changes nothing.
  lemma {:induction false} ClosingIsFinal<Ev, D, O, E>(s: State<D>, maxNegotiating: nat, idleTimeout: Duration,
                                                      log: seq<HandlerCall<D, O, E>>, turns: seq<Turn<Ev, D, O, E>>)
    requires s.closing && turns != []
    ensures Run(s, maxNegotiating, idleTimeout, log, turns) == Some(Ran(s, log, Ready(Err(Closing))))
  {
    assert log + [] == log;
  }

  /// A CloseConnection from the handler sets `closing`, and the next pass
  /// returns Closing: nothing else the environment answers is looked at.
  lemma CloseConnectionCloses<Ev, D, O, E>(s: State<D>, maxNegotiating: nat, idleTimeout: Duration,
                                           log: seq<HandlerCall<D, O, E>>, t: Turn<Ev, D, O, E>, t': Turn<Ev, D, O, E>,
                                           rest: seq<Turn<Ev, D, O, E>>)
    requires !s.closing && t.handler == Ready(CloseConnection)
    ensures Run(s, maxNegotiating, idleTimeout, log, [t, t'] + rest) == Some(Ran(s.(closing := true), log, Ready(Err(Closing))))
  {
    var turns := [t, t'] + rest;
    assert turns[1..] == [t'] + rest;
    assert log + [] == log;
    ClosingIsFinal(s.(closing := true), maxNegotiating, idleTimeout, log, [t'] + rest);
  }

  /// The handler is asked first: an event it reports is returned even
  /// when an upgrade has completed at the same pass, which stays in
  /// flight.
  lemma HandlerFirst<Ev, D, O, E>(s: State<D>, maxNegotiating: nat, idleTimeout: Duration, t: Turn<Ev, D, O, E>)
    requires !s.closing && t.handler.Ready? && t.handler.value.Notify?
    ensures Step(s, maxNegotiating, idleTimeout, t) == Turned(s, [], Return(Ready(Ok(t.handler.value.event))))
  {
  }

  /// A completed upgrade leaves the set in flight, and only a success or
  /// an error of the upgrade itself reaches the handler, with the user
  /// data it was started with.
  lemma FinishedDelivered<Ev, D, O, E>(s: State<D>, maxNegotiating: nat, idleTimeout: Duration, t: Turn<Ev, D, O, E>)
    requires !s.closing && t.handler.Pending? && t.finished.Some? && t.finished.value.index < |s.negotiating|
    ensures var r := Step(s, maxNegotiating, idleTimeout, t);
            var i := t.finished.value.index;
            && r.outcome == Continue
            && multiset(r.next.negotiating) + multiset{s.negotiating[i]} == multiset(s.negotiating)
            && r.next.closing == s.closing && r.next.shutdown == s.shutdown
            && |r.calls| <= 1
            && (|r.calls| == 1 <==> t.finished.value.result.Ok? || t.finished.value.result.error.Apply?)
            && (|r.calls| == 1 ==> r.calls[0].info == s.negotiating[i])
  {
  }

  /// While an upgrade is in flight or a stream is active, the shutdown
  /// timer is cleared and the connection never times out.
  lemma BusyNeverTimesOut<Ev, D, O, E>(s: State<D>, maxNegotiating: nat, idleTimeout: Duration, t: Turn<Ev, D, O, E>)
    requires !s.closing && t.handler.Pending?
    requires t.finished.None? || t.finished.value.index >= |s.negotiating|
    requires s.negotiating != [] || !t.noActiveStreams
    ensures Step(s, maxNegotiating, idleTimeout, t).next.shutdown == NoShutdown
    ensures Step(s, maxNegotiating, idleTimeout, t).outcome != Return(Ready(Err(KeepAliveTimeout)))
  {
  }

  /// An idle connection whose handler does not keep it alive, with a zero
  /// idle timeout, closes at once.
  lemma IdleZeroTimeoutCloses<Ev, D, O, E>(s: State<D>, maxNegotiating: nat, t: Turn<Ev, D, O, E>)
    requires !s.closing && t.handler.Pending? && t.finished.None?
    requires s.negotiating == [] && t.noActiveStreams && !t.keepAlive
    ensures Step(s, maxNegotiating, 0, t) == Turned(s.(shutdown := Asap), [], Return(Ready(Err(KeepAliveTimeout))))
  {
  }

  /// A new inbound substream is taken only below the cap: at the cap, no
  /// pass adds an upgrade.
  lemma NoAcceptAtCap<Ev, D, O, E>(s: State<D>, maxNegotiating: nat, idleTimeout: Duration, t: Turn<Ev, D, O, E>)
    requires |s.negotiating| >= maxNegotiating
    ensures |Step(s, maxNegotiating, idleTimeout, t).next.negotiating| <= |s.negotiating|
  {
  }

  /// Over a whole run the cap still holds at the end, and the calls made
  /// are appended after those made before.
  lemma {:induction false} RunKeepsCap<Ev, D, O, E>(s: State<D>, maxNegotiating: nat, idleTimeout: Duration,
                                                   log: seq<HandlerCall<D, O, E>>, turns: seq<Turn<Ev, D, O, E>>)
    requires |s.negotiating| <= maxNegotiating
    requires Run(s, maxNegotiating, idleTimeout, log, turns).Some?
    ensures |Run(s, maxNegotiating, idleTimeout, log, turns).value.last.negotiating| <= maxNegotiating
    ensures |Run(s, maxNegotiating, idleTimeout, log, turns).value.log| >= |log|
    ensures Run(s, maxNegotiating, idleTimeout, log, turns).value.log[..|log|] == log
    decreases |turns|
  {
    var st := Step(s, maxNegotiating, idleTimeout, turns[0]);
    if !st.outcome.Return? {
      RunKeepsCap(st.next, maxNegotiating, idleTimeout, log + st.calls, turns[1..]);
      var l := Run(st.next, maxNegotiating, idleTimeout, log + st.calls, turns[1..]).value.log;
      assert l[..|log|] == (l[..|log + st.calls|])[..|log|];
    }
  }
}
