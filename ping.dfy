// The ping protocol (protocols/volans-ping): the dialling side's handler
// sends pings on an interval and counts failures; the listening side's
// handler answers them and closes the connection when none arrive in
// time. The timers, the ping futures and the clock are outside the model:
// whether a timer has fired, what a ping or pong future gives when polled
// and the current instant are inputs of each poll.
module Ping {
  import opened Wrappers
  import opened Io
  import opened Time
  import opened Identity
  import opened SwarmConnection
  import opened SwarmHandler
  import opened SwarmNotify

  /// `PROTOCOL_NAME`.
  const PROTOCOL_NAME: string := "/v1/ping"

  /// `Config`.
  datatype Config = Config(timeout: Duration, interval: Duration, failures: nat)

  /// `Config::default`: a one-second timeout, a ten-second interval and
  /// three failures allowed.
  function DefaultConfig(): (c: Config)
    ensures c.timeout == Secs(1) && c.interval == Secs(10) && c.failures == 3
  {
    Config(Secs(1), Secs(10), 3)
  }

  /// `Failure`; the boxed error of `Other` is an I/O error wherever ping
  /// makes one.
  datatype Failure = Timeout | Unsupported | Other(error: IoError)

  /// What a handler reports: the round-trip time, or a failure.
  type PingResult = Result<Duration, Failure>

  /// `Event`.
  datatype Event = Event(connection: ConnectionId, peerId: PeerId, result: PingResult)

  /// `send_ping` polled once: the ping exchange raced against the
  /// timeout, the exchange polled first.
  function SendPing(exchange: Poll<Result<Duration, IoError>>, timedOut: bool): (r: Poll<PingResult>)
    ensures exchange.Ready? ==> r.Ready?
    ensures exchange == Pending ==> (r.Ready? <==> timedOut) && (timedOut ==> r == Ready(Err(Failure.Timeout)))
    ensures r.Ready? && r.value.Ok? ==> exchange == Ready(Ok(r.value.value))
    ensures r.Ready? && r.value.Err? && r.value.error.Other? ==> exchange == Ready(Err(r.value.error.error))
  {
    match exchange
    case Ready(Ok(rtt)) => Ready(Ok(rtt))
    case Ready(Err(e)) => Ready(Err(Failure.Other(e)))
    case Pending => if timedOut then Ready(Err(Failure.Timeout)) else Pending
  }

  /// A ping that arrives before its timeout wins the race.
  lemma ExchangeWinsRace(exchange: Poll<Result<Duration, IoError>>)
    requires exchange.Ready?
    ensures SendPing(exchange, true) == SendPing(exchange, false)
    ensures !SendPing(exchange, true).value.Err? || !SendPing(exchange, true).value.error.Timeout?
  {
  }

  /// `poll_close` of both handlers: the queued errors, newest first from
  /// the back of the queue, then the end.
  function PollCloseOf(pendingErrors: seq<Failure>): (r: (Poll<Option<PingResult>>, seq<Failure>))
    ensures pendingErrors == [] ==> r == (Ready(None), [])
    ensures pendingErrors != [] ==> r.0 == Ready(Some(Err(pendingErrors[|pendingErrors| - 1])))
                                    && r.1 + [pendingErrors[|pendingErrors| - 1]] == pendingErrors
  {
    if pendingErrors == [] then (Ready(None), [])
    else (Ready(Some(Err(pendingErrors[|pendingErrors| - 1]))), pendingErrors[..|pendingErrors| - 1])
  }

  // ---------------------------------------------------------------------
  // The dialling side (outbound.rs)

  /// `State`.
  datatype State = Inactive(reported: bool) | Active

  /// `OutboundState`; the stream it holds is not modelled.
  datatype OutboundState = NoStream | OpenStream | Idle | Pinging

  /// Whether the poll loop gets to poll a ping: one in flight, or a new
  /// one when the interval fires on an idle stream.
  predicate PingPolled(outbound: OutboundState, intervalFired: bool)
  {
    outbound.Pinging? || (outbound.Idle? && intervalFired)
  }

  /// The upgrade error of ping's `ReadyUpgrade`, whose own error type
  /// has no values.
  type PingUpgradeError = e: StreamUpgradeError<()> | !e.Apply? witness StreamUpgradeError.Timeout

  /// The outbound `Handler`; `interval` is the period the interval timer
  /// was last set to.
  class OutboundHandler {
    const config: Config
    var interval: Duration
    var failures: nat
    var outbound: OutboundState
    /// `pending_errors`, front first.
    var pendingErrors: seq<Failure>
    var state: State

    /// `Handler::new`.
    constructor(config: Config)
      ensures this.config == config && interval == config.interval && failures == 0
      ensures outbound == NoStream && pendingErrors == [] && state == Active
    {
      this.config := config;
      interval := config.interval;
      failures := 0;
      outbound := NoStream;
      pendingErrors := [];
      state := Active;
    }

    /// `poll`. An unsupported protocol is reported once, then the
    /// handler stays silent. Otherwise queued errors come first, each
    /// counted as a failure; enough failures close the connection; and
    /// then a ping in flight, or a new one on an idle stream when the
    /// interval fires, is polled. A ping's answer resets the interval; a
    /// success resets the failures and reports the round trip, and a
    /// failure is queued and then reported as the next error.
    method Poll(intervalFired: bool, exchange: Poll<Result<Duration, IoError>>, timedOut: bool)
      returns (r: Poll<ConnectionHandlerEvent<PingResult>>)
      modifies this
      ensures old(state) == Inactive(true) ==>
                r.Pending? && state == old(state) && failures == old(failures) && outbound == old(outbound)
                && pendingErrors == old(pendingErrors) && interval == old(interval)
      ensures old(state) == Inactive(false) ==>
                r == Ready(Notify(Err(Unsupported))) && state == Inactive(true) && failures == old(failures)
                && outbound == old(outbound) && pendingErrors == old(pendingErrors) && interval == old(interval)
      ensures old(state).Active? ==> state == Active
      ensures old(state).Active? && old(pendingErrors) != [] ==>
                r == Ready(Notify(Err(old(pendingErrors)[|old(pendingErrors)| - 1])))
                && pendingErrors == old(pendingErrors)[..|old(pendingErrors)| - 1]
                && failures == old(failures) + 1 && outbound == old(outbound) && interval == old(interval)
      ensures old(state).Active? && old(pendingErrors) == [] && old(failures) >= config.failures ==>
                r == Ready(CloseConnection) && failures == old(failures) && outbound == old(outbound)
                && pendingErrors == [] && interval == old(interval)
      ensures old(state).Active? && old(pendingErrors) == [] && old(failures) < config.failures
              && !PingPolled(old(outbound), intervalFired) ==>
                r.Pending? && failures == old(failures) && outbound == old(outbound)
                && pendingErrors == [] && interval == old(interval)
      ensures old(state).Active? && old(pendingErrors) == [] && old(failures) < config.failures
              && PingPolled(old(outbound), intervalFired) ==>
                var p := SendPing(exchange, timedOut);
                && pendingErrors == []
                && (p.Pending? ==> r.Pending? && outbound == Pinging && failures == old(failures) && interval == old(interval))
                && (p.Ready? && p.value.Ok? ==>
                      r == Ready(Notify(Ok(p.value.value))) && failures == 0 && outbound == Idle && interval == config.interval)
                && (p.Ready? && p.value.Err? ==>
                      r == Ready(Notify(Err(p.value.error))) && failures == old(failures) + 1
                      && outbound == NoStream && interval == config.interval)
    {
      match state {
        case Inactive(true) =>
          return Pending;
        case Inactive(false) =>
          state := Inactive(true);
          return Ready(Notify(Err(Unsupported)));
        case Active =>
      }
      // 0: first round; 1: a new ping on an idle stream; 2: a ping failed.
      ghost var round := 0;
      while true
        invariant state == Active
        invariant round == 0 ==>
                    failures == old(failures) && outbound == old(outbound)
                    && pendingErrors == old(pendingErrors) && interval == old(interval)
        invariant round == 1 ==>
                    old(outbound) == Idle && intervalFired && old(pendingErrors) == [] && old(failures) < config.failures
                    && failures == old(failures) && outbound == Pinging && pendingErrors == [] && interval == old(interval)
        invariant round == 2 ==>
                    PingPolled(old(outbound), intervalFired) && old(pendingErrors) == [] && old(failures) < config.failures
                    && |pendingErrors| == 1 && SendPing(exchange, timedOut) == Ready(Err(pendingErrors[0]))
                    && failures == old(failures) && outbound == NoStream && interval == config.interval
        invariant round <= 2
        decreases if pendingErrors != [] then 0 else if outbound.Pinging? then 1 else 2
      {
        if pendingErrors != [] {
          var e := pendingErrors[|pendingErrors| - 1];
          pendingErrors := pendingErrors[..|pendingErrors| - 1];
          failures := failures + 1;
          return Ready(Notify(Err(e)));
        }
        if failures >= config.failures {
          return Ready(CloseConnection);
        }
        var current := outbound;
        outbound := NoStream;
        match current {
          case NoStream =>
          case OpenStream =>
            outbound := OpenStream;
          case Idle =>
            if intervalFired {
              outbound := Pinging;
              round := 1;
              continue;
            }
            outbound := Idle;
          case Pinging =>
            var p := SendPing(exchange, timedOut);
            match p {
              case Pending =>
                outbound := Pinging;
                return Pending;
              case Ready(Ok(rtt)) =>
                failures := 0;
                interval := config.interval;
                outbound := Idle;
                return Ready(Notify(Ok(rtt)));
              case Ready(Err(e)) =>
                interval := config.interval;
                pendingErrors := [e] + pendingErrors;
                round := 2;
                continue;
            }
        }
        return Pending;
      }
    }

    /// `poll_close`.
    method PollClose() returns (r: Poll<Option<PingResult>>)
      modifies this
      ensures (r, pendingErrors) == PollCloseOf(old(pendingErrors))
      ensures failures == old(failures) && outbound == old(outbound) && state == old(state) && interval == old(interval)
    {
      var c := PollCloseOf(pendingErrors);
      r, pendingErrors := c.0, c.1;
    }

    /// `on_fully_negotiated`: the new stream starts a ping.
    method OnFullyNegotiated()
      modifies this
      ensures outbound == Pinging
      ensures failures == old(failures) && pendingErrors == old(pendingErrors) && state == old(state) && interval == old(interval)
    {
      outbound := Pinging;
    }

    /// `on_upgrade_error`: the stream is dropped and the interval set to
    /// fire at once. A protocol the peer does not support makes the
    /// handler inactive, to be reported once; any other error is queued.
    method OnUpgradeError(error: PingUpgradeError)
      modifies this
      ensures outbound == NoStream && interval == 0 && failures == old(failures)
      ensures error.NegotiationFailed? ==> state == Inactive(false) && pendingErrors == old(pendingErrors)
      ensures error.Timeout? ==>
                state == old(state)
                && pendingErrors == old(pendingErrors) + [Failure.Other(IoError(TimedOut, "Ping protocol negotiation timed out"))]
      ensures error.Io? ==> state == old(state) && pendingErrors == old(pendingErrors) + [Failure.Other(error.ioError)]
    {
      outbound := NoStream;
      interval := 0;
      match error {
        case Timeout =>
          pendingErrors := pendingErrors + [Failure.Other(IoError(TimedOut, "Ping protocol negotiation timed out"))];
        case NegotiationFailed =>
          state := Inactive(false);
        case Io(e) =>
          pendingErrors := pendingErrors + [Failure.Other(e)];
      }
    }

    /// `poll_outbound_request`: a stream is asked for only when there is
    /// none and the interval fires.
    method PollOutboundRequest(intervalFired: bool) returns (r: Poll<SubstreamProtocol<string, ()>>)
      modifies this
      ensures old(outbound) == NoStream && intervalFired <==> r.Ready?
      ensures r.Ready? ==> r.value == NewSubstreamProtocol(PROTOCOL_NAME, ()) && outbound == OpenStream
      ensures r.Pending? ==> outbound == old(outbound)
      ensures failures == old(failures) && pendingErrors == old(pendingErrors) && state == old(state) && interval == old(interval)
    {
      if outbound == NoStream && intervalFired {
        outbound := OpenStream;
        return Ready(NewSubstreamProtocol(PROTOCOL_NAME, ()));
      }
      return Pending;
    }
  }

  /// An unsupported protocol is reported exactly once.
  method ReportedOnce(h: OutboundHandler, intervalFired: bool, exchange: Poll<Result<Duration, IoError>>, timedOut: bool)
    returns (first: Poll<ConnectionHandlerEvent<PingResult>>, second: Poll<ConnectionHandlerEvent<PingResult>>)
    requires h.state == Active
    modifies h
    ensures first == Ready(Notify(Err(Unsupported))) && second.Pending?
  {
    h.OnUpgradeError(NegotiationFailed);
    first := h.Poll(intervalFired, exchange, timedOut);
    second := h.Poll(intervalFired, exchange, timedOut);
  }

  /// A failed ping counts as a failure, and the one that reaches the
  /// configured number closes the connection at the next poll.
  method FailedPingCloses(h: OutboundHandler, e: IoError)
    returns (first: Poll<ConnectionHandlerEvent<PingResult>>, second: Poll<ConnectionHandlerEvent<PingResult>>)
    requires h.state == Active && h.pendingErrors == [] && h.outbound == Pinging && h.failures + 1 == h.config.failures
    modifies h
    ensures first == Ready(Notify(Err(Failure.Other(e)))) && second == Ready(CloseConnection)
  {
    first := h.Poll(false, Ready(Err(e)), false);
    second := h.Poll(false, Pending, false);
  }

  // ---------------------------------------------------------------------
  // The listening side (inbound.rs)

  /// `Instant::elapsed`, which saturates at zero.
  function Elapsed(since: Duration, now: Duration): (d: Duration)
    ensures since <= now ==> since + d == now
    ensures now < since ==> d == 0
  {
    if since <= now then now - since else 0
  }

  /// The inbound `Handler`. `interval` is the period the timer was last
  /// set to, `receiving` whether a pong future is held.
  class InboundHandler {
    const config: Config
    var interval: Duration
    var lastPing: Duration
    var failed: bool
    var receiving: bool
    /// `pending_errors`, front first.
    var pendingErrors: seq<Failure>

    /// `Handler::new`: the timer allows `config.failures` intervals.
    constructor(config: Config, now: Duration)
      ensures this.config == config && interval == config.interval * config.failures && lastPing == now
      ensures !failed && !receiving && pendingErrors == []
    {
      this.config := config;
      interval := config.interval * config.failures;
      lastPing := now;
      failed := false;
      receiving := false;
      pendingErrors := [];
    }

    /// `poll`. Queued errors come first; then a failed handler closes the
    /// connection. A pong that completes restarts the receive and the
    /// timer and reports the time since the last ping; a receive that
    /// fails, or a timer that fires, fails the handler and reports why.
    method Poll(now: Duration, pong: Poll<Result<(), IoError>>, intervalFired: bool)
      returns (r: Poll<ConnectionHandlerEvent<PingResult>>)
      modifies this
      ensures old(pendingErrors) != [] ==>
                r == Ready(Notify(Err(old(pendingErrors)[|old(pendingErrors)| - 1])))
                && pendingErrors == old(pendingErrors)[..|old(pendingErrors)| - 1]
                && failed == old(failed) && receiving == old(receiving) && lastPing == old(lastPing) && interval == old(interval)
      ensures old(pendingErrors) == [] && old(failed) ==>
                r == Ready(CloseConnection) && pendingErrors == [] && failed
                && receiving == old(receiving) && lastPing == old(lastPing) && interval == old(interval)
      ensures old(pendingErrors) == [] && !old(failed) && old(receiving) && pong == Ready(Ok(())) ==>
                r == Ready(Notify(Ok(Elapsed(old(lastPing), now)))) && pendingErrors == [] && !failed
                && receiving && lastPing == now && interval == config.interval * config.failures
      ensures old(pendingErrors) == [] && !old(failed) && old(receiving) && pong.Ready? && pong.value.Err? ==>
                r == Ready(Notify(Err(Failure.Other(pong.value.error)))) && pendingErrors == [] && failed
                && !receiving && lastPing == old(lastPing) && interval == old(interval)
      ensures old(pendingErrors) == [] && !old(failed) && (!old(receiving) || pong.Pending?) && intervalFired ==>
                r == Ready(Notify(Err(Failure.Timeout))) && pendingErrors == [] && failed
                && !receiving && lastPing == old(lastPing) && interval == config.interval * config.failures
      ensures old(pendingErrors) == [] && !old(failed) && (!old(receiving) || pong.Pending?) && !intervalFired ==>
                r.Pending? && pendingErrors == [] && !failed
                && receiving == old(receiving) && lastPing == old(lastPing) && interval == old(interval)
    {
      // 0: first round; 1: the receive failed; 2: the timer fired.
      ghost var round := 0;
      while true
        invariant round == 0 ==>
                    failed == old(failed) && receiving == old(receiving) && pendingErrors == old(pendingErrors)
                    && lastPing == old(lastPing) && interval == old(interval)
        invariant round == 1 ==>
                    old(pendingErrors) == [] && !old(failed) && old(receiving) && pong.Ready? && pong.value.Err?
                    && pendingErrors == [Failure.Other(pong.value.error)] && failed && !receiving
                    && lastPing == old(lastPing) && interval == old(interval)
        invariant round == 2 ==>
                    old(pendingErrors) == [] && !old(failed) && (!old(receiving) || pong.Pending?) && intervalFired
                    && pendingErrors == [Failure.Timeout] && failed && !receiving
                    && lastPing == old(lastPing) && interval == config.interval * config.failures
        invariant round <= 2
        decreases if pendingErrors != [] then 0 else 1
      {
        if pendingErrors != [] {
          var e := pendingErrors[|pendingErrors| - 1];
          pendingErrors := pendingErrors[..|pendingErrors| - 1];
          return Ready(Notify(Err(e)));
        }
        if failed {
          return Ready(CloseConnection);
        }
        if receiving {
          match pong {
            case Pending =>
            case Ready(Ok(())) =>
              interval := config.interval * config.failures;
              var elapsed := Elapsed(lastPing, now);
              lastPing := now;
              return Ready(Notify(Ok(elapsed)));
            case Ready(Err(e)) =>
              receiving := false;
              failed := true;
              pendingErrors := pendingErrors + [Failure.Other(e)];
              round := 1;
              continue;
          }
        }
        if intervalFired {
          interval := config.interval * config.failures;
          receiving := false;
          failed := true;
          pendingErrors := pendingErrors + [Failure.Timeout];
          round := 2;
          continue;
        }
        return Pending;
      }
    }

    /// `poll_close`.
    method PollClose() returns (r: Poll<Option<PingResult>>)
      modifies this
      ensures (r, pendingErrors) == PollCloseOf(old(pendingErrors))
      ensures failed == old(failed) && receiving == old(receiving) && lastPing == old(lastPing) && interval == old(interval)
    {
      var c := PollCloseOf(pendingErrors);
      r, pendingErrors := c.0, c.1;
    }

    /// `listen_protocol`: the ping protocol.
    function ListenProtocol(): (r: SubstreamProtocol<string, ()>)
      ensures r.upgrade == PROTOCOL_NAME && r.timeout == DEFAULT_SUBSTREAM_TIMEOUT
    {
      NewSubstreamProtocol(PROTOCOL_NAME, ())
    }

    /// `on_fully_negotiated`: a receive starts and the ping is stamped.
    method OnFullyNegotiated(now: Duration)
      modifies this
      ensures receiving && lastPing == now
      ensures failed == old(failed) && pendingErrors == old(pendingErrors) && interval == old(interval)
    {
      receiving := true;
      lastPing := now;
    }

    /// `on_upgrade_error`: the receive is dropped and the timer set to
    /// fire at once.
    method OnUpgradeError()
      modifies this
      ensures !receiving && interval == 0
      ensures failed == old(failed) && pendingErrors == old(pendingErrors) && lastPing == old(lastPing)
    {
      receiving := false;
      interval := 0;
    }
  }

  /// No pong within the timer fails the handler: the timeout is reported
  /// and the connection closed at the next poll.
  method SilenceCloses(h: InboundHandler, now: Duration)
    returns (first: Poll<ConnectionHandlerEvent<PingResult>>, second: Poll<ConnectionHandlerEvent<PingResult>>)
    requires h.pendingErrors == [] && !h.failed
    modifies h
    ensures first == Ready(Notify(Err(Failure.Timeout))) && second == Ready(CloseConnection)
  {
    first := h.Poll(now, Pending, true);
    second := h.Poll(now, Pending, false);
  }

  // ---------------------------------------------------------------------
  // The behaviour (the same in outbound.rs and inbound.rs)

  /// The ping `Behavior`: handler events queued for the user.
  class Behavior {
    const config: Config
    /// `events`, front first: new events go to the front and are taken
    /// from the back.
    var events: seq<Event>
    var noEventWaker: bool

    /// `Behavior::new`.
    constructor(config: Config)
      ensures this.config == config && events == [] && !noEventWaker
    {
      this.config := config;
      events := [];
      noEventWaker := false;
    }

    /// `on_connection_handler_event`: the event goes to the front and the
    /// waker is taken.
    method OnConnectionHandlerEvent(id: ConnectionId, peer: PeerId, result: PingResult)
      modifies this
      ensures events == [Event(id, peer, result)] + old(events) && !noEventWaker
    {
      events := [Event(id, peer, result)] + events;
      noEventWaker := false;
    }

    /// `poll`: the oldest event, from the back; otherwise Pending with
    /// the waker kept.
    method Poll() returns (r: Poll<BehaviorEvent<Event, ()>>)
      modifies this
      ensures old(events) != [] ==>
                r == Ready(BehaviorOut(old(events)[|old(events)| - 1])) && events == old(events)[..|old(events)| - 1]
                && noEventWaker == old(noEventWaker)
      ensures old(events) == [] ==> r.Pending? && events == [] && noEventWaker
    {
      if events != [] {
        var e := events[|events| - 1];
        events := events[..|events| - 1];
        return Ready(BehaviorOut(e));
      }
      noEventWaker := true;
      return Pending;
    }
  }

  /// Handler events reach the user in the order they arrived.
  method EventsInOrder(b: Behavior, x: Event, y: Event) returns (first: Poll<BehaviorEvent<Event, ()>>, second: Poll<BehaviorEvent<Event, ()>>)
    requires b.events == []
    modifies b
    ensures first == Ready(BehaviorOut(x)) && second == Ready(BehaviorOut(y)) && b.events == []
  {
    b.OnConnectionHandlerEvent(x.connection, x.peerId, x.result);
    b.OnConnectionHandlerEvent(y.connection, y.peerId, y.result);
    first := b.Poll();
    second := b.Poll();
  }
}
