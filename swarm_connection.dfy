// The pieces of volans-swarm/src/connection.rs shared by the inbound and
// the outbound connection: connection ids, the conversion of negotiation
// errors, the future that runs one substream upgrade against its timeout,
// the outbound substream request, and the idle-shutdown computation.
// Timers are given as inputs: whether the timeout has fired at this poll.
module SwarmConnection {
  import opened Wrappers
  import opened Io
  import opened Time
  import opened SelectProtocol
  import opened NegotiatedStream
  import opened SwarmHandler
  import opened SwarmError

  // ---------------------------------------------------------------------
  // Connection ids

  /// `ConnectionId(usize)`.
  datatype ConnectionId = ConnectionId(value: nat)

  /// `usize` on a 64-bit platform.
  const USIZE_MOD: nat := 0x1_0000_0000_0000_0000

  /// The first id `NEXT_CONNECTION_ID` hands out.
  const FIRST_CONNECTION_ID: nat := 1

  /// `fetch_add(1)` on a `usize`: one more, wrapping to 0 after the
  /// largest value.
  function Successor(n: nat): (r: nat)
    requires n < USIZE_MOD
    ensures r < USIZE_MOD
    ensures n + 1 < USIZE_MOD ==> r == n + 1
    ensures n + 1 == USIZE_MOD ==> r == 0
  {
    (n + 1) % USIZE_MOD
  }

  /// The process-wide counter behind `ConnectionId::next`.
  class ConnectionIdCounter {
    var next: nat

    ghost predicate Valid()
      reads this
    {
      next < USIZE_MOD
    }

    constructor()
      ensures Valid() && next == FIRST_CONNECTION_ID
    {
      next := FIRST_CONNECTION_ID;
    }

    /// `ConnectionId::next`: the current value, and the counter moves on.
    method Next() returns (id: ConnectionId)
      requires Valid()
      modifies this
      ensures Valid()
      ensures id == ConnectionId(old(next)) && next == Successor(old(next))
    {
      id := ConnectionId(next);
      next := Successor(next);
    }
  }

  /// Ids taken one after the other increase strictly, until the counter
  /// wraps around.
  method SequentialIdsIncrease(c: ConnectionIdCounter) returns (a: ConnectionId, b: ConnectionId)
    requires c.Valid() && c.next + 1 < USIZE_MOD
    modifies c
    ensures a.value < b.value
  {
    a := c.Next();
    b := c.Next();
  }

  // ---------------------------------------------------------------------
  // Negotiation errors

  /// The text `io::Error::other` keeps for a protocol error: its
  /// `Display`.
  function ProtocolErrorText(e: ProtocolError): string
  {
    match e
    case ProtocolIoError(io) => "I/O error: " + io.message
    case InvalidMessage => "Received an invalid message."
    case InvalidProtocol => "A protocol (name) is invalid."
  }

  /// `to_stream_upgrade_error`.
  function ToStreamUpgradeError<T>(e: NegotiationError): (r: StreamUpgradeError<T>)
    ensures e == Failed <==> r == NegotiationFailed
    ensures e.NegotiationProtocolError? <==> r.Io?
    ensures e.NegotiationProtocolError? && e.err.ProtocolIoError? ==> r.ioError == e.err.err
    ensures e.NegotiationProtocolError? && !e.err.ProtocolIoError? ==>
              r.ioError.kind == Other && r.ioError.message == ToIoError(e.err).message
  {
    match e
    case Failed => NegotiationFailed
    case NegotiationProtocolError(ProtocolIoError(io)) => Io(io)
    case NegotiationProtocolError(other) => Io(IoError(Other, ProtocolErrorText(other)))
  }

  /// No negotiation error becomes a Timeout or an Apply error: those come
  /// from the timer and from the upgrade itself.
  lemma NegotiationNeverTimeout<T>(e: NegotiationError)
    ensures !ToStreamUpgradeError<T>(e).Timeout? && !ToStreamUpgradeError<T>(e).Apply?
  {
  }

  // ---------------------------------------------------------------------
  // One substream upgrade against its timeout

  /// What a poll of `StreamUpgrade` does to its user data and returns:
  /// the timer is looked at first, and the user data goes out with the
  /// first ready outcome.
  function UpgradeStep<D, T, E>(userData: Option<D>, timeoutFired: bool, upgrade: Poll<Result<T, StreamUpgradeError<E>>>)
    : (r: (Option<D>, Poll<(D, Result<T, StreamUpgradeError<E>>)>))
    requires timeoutFired || upgrade.Ready? ==> userData.Some?
  {
    if timeoutFired then (None, Ready((userData.value, Err(Timeout))))
    else if upgrade.Pending? then (userData, Pending)
    else (None, Ready((userData.value, upgrade.value)))
  }

  /// The timeout wins over an upgrade that is ready at the same poll, the
  /// user data is handed out with the outcome and not kept, and a pending
  /// poll keeps it.
  lemma UpgradeStepOutcome<D, T, E>(userData: Option<D>, timeoutFired: bool, upgrade: Poll<Result<T, StreamUpgradeError<E>>>)
    requires timeoutFired || upgrade.Ready? ==> userData.Some?
    ensures var (ud, r) := UpgradeStep(userData, timeoutFired, upgrade);
            (timeoutFired ==> r == Ready((userData.value, Err(Timeout))))
            && (r.Ready? <==> timeoutFired || upgrade.Ready?)
            && (r.Ready? ==> ud.None? && r.value.0 == userData.value)
            && (r.Pending? ==> ud == userData)
  {
  }

  /// `StreamUpgrade`: the user data, until the outcome is handed out.
  class StreamUpgrade<D, T, E> {
    var userData: Option<D>

    constructor(userData: D)
      ensures this.userData == Some(userData)
    {
      this.userData := Some(userData);
    }

    /// `StreamUpgrade::poll`; polling again once ready panics.
    method Poll(timeoutFired: bool, upgrade: Poll<Result<T, StreamUpgradeError<E>>>)
      returns (r: Poll<(D, Result<T, StreamUpgradeError<E>>)>)
      requires timeoutFired || upgrade.Ready? ==> userData.Some?
      modifies this
      ensures (userData, r) == UpgradeStep(old(userData), timeoutFired, upgrade)
    {
      if timeoutFired {
        r := Ready((userData.value, Err(Timeout)));
        userData := None;
        return;
      }
      if upgrade.Pending? {
        return Pending;
      }
      r := Ready((userData.value, upgrade.value));
      userData := None;
    }
  }

  /// Once an outcome is out, no further ready poll is allowed: the user
  /// data is handed out exactly once.
  method UserDataOnce<D, T, E>(u: StreamUpgrade<D, T, E>, timeoutFired: bool, upgrade: Poll<Result<T, StreamUpgradeError<E>>>)
    returns (r: Poll<(D, Result<T, StreamUpgradeError<E>>)>)
    requires u.userData.Some?
    modifies u
    ensures r.Ready? ==> u.userData.None?
  {
    r := u.Poll(timeoutFired, upgrade);
  }

  // ---------------------------------------------------------------------
  // An outbound substream request

  /// `SubstreamRequested`: waiting for a substream, with the timer's
  /// duration, the upgrade, the user data and whether a waker was left.
  datatype SubstreamRequested<U, D> =
    | Waiting(timeout: Duration, upgrade: U, userData: D, extractedWaker: bool)
    | Done

  /// `SubstreamRequested::new`.
  function NewRequested<U, D>(upgrade: U, userData: D, timeout: Duration): SubstreamRequested<U, D>
  {
    Waiting(timeout, upgrade, userData, false)
  }

  /// `extract`: the parts of a waiting request, leaving Done; extracting
  /// twice panics.
  function Extract<U, D>(s: SubstreamRequested<U, D>): (SubstreamRequested<U, D>, (U, D, Duration))
    requires s.Waiting?
  {
    (Done, (s.upgrade, s.userData, s.timeout))
  }

  /// `SubstreamRequested::poll`: an expired wait gives the user data back
  /// as an error, a pending one leaves a waker, and Done is a success.
  function PollRequested<U, D>(s: SubstreamRequested<U, D>, timeoutFired: bool)
    : (r: (SubstreamRequested<U, D>, Poll<Result<(), D>>))
    ensures s.Done? ==> r == (Done, Ready(Ok(())))
    ensures s.Waiting? && timeoutFired ==> r == (Done, Ready(Err(s.userData)))
    ensures s.Waiting? && !timeoutFired ==> r == (s.(extractedWaker := true), Pending)
  {
    match s
    case Done => (Done, Ready(Ok(())))
    case Waiting(t, u, d, _) =>
      if timeoutFired then (Done, Ready(Err(d))) else (Waiting(t, u, d, true), Pending)
  }

  /// A request that was extracted resolves successfully whatever the
  /// timer says, and a request still waiting is Ready only once its timer
  /// fires, and then with its own user data.
  lemma ExtractedResolves<U, D>(s: SubstreamRequested<U, D>, timeoutFired: bool)
    requires s.Waiting?
    ensures PollRequested(Extract(s).0, timeoutFired).1 == Ready(Ok(()))
    ensures PollRequested(s, timeoutFired).1.Ready? <==> timeoutFired
    ensures timeoutFired ==> PollRequested(s, timeoutFired).1.value == Err(s.userData)
  {
  }

  /// Waiting polls keep the request intact: its upgrade, user data and
  /// timer are what `extract` later hands out.
  lemma PendingPollKeepsParts<U, D>(s: SubstreamRequested<U, D>)
    requires s.Waiting?
    ensures Extract(PollRequested(s, false).0).1 == Extract(s).1
  {
  }

  /// A new request is waiting: polling it before its timer fires is
  /// Pending, and extracting it hands back the upgrade, user data and
  /// timeout it was made with.
  lemma NewRequestedWaits<U, D>(upgrade: U, userData: D, timeout: Duration)
    ensures PollRequested(NewRequested(upgrade, userData, timeout), false).1 == Pending
    ensures Extract(NewRequested(upgrade, userData, timeout)).1 == (upgrade, userData, timeout)
    ensures Extract(NewRequested(upgrade, userData, timeout)).0 == Done
  {
  }

  // ---------------------------------------------------------------------
  // Idle shutdown

  /// `Shutdown`: none, as soon as possible, or after a delay.
  datatype Shutdown = NoShutdown | Asap | Later(after: Duration)

  /// The duration `checked_add_fraction` settles on: halved until it can
  /// be added to `start` without passing the latest representable
  /// instant.
  function Fraction(start: Duration, d: Duration, latest: Duration): (r: Duration)
    requires start <= latest
    ensures r <= d && start + r <= latest
    ensures start + d <= latest ==> r == d
    ensures r < d ==> latest < start + 2 * r + 2
    decreases d
  {
    if start + d <= latest then d else Fraction(start, Half(d), latest)
  }

  /// `checked_add_fraction`.
  method CheckedAddFraction(start: Duration, duration: Duration, latest: Duration) returns (d: Duration)
    requires start <= latest
    ensures d == Fraction(start, duration, latest)
  {
    d := duration;
    while start + d > latest
      invariant Fraction(start, d, latest) == Fraction(start, duration, latest)
      decreases d
    {
      d := Half(d);
    }
  }

  /// `compute_new_shutdown`: Some new state, or None to keep the timer
  /// already running.
  function ComputeNewShutdown(keepAlive: bool, current: Shutdown, idleTimeout: Duration, now: Duration, latest: Duration)
    : (r: Option<Shutdown>)
    requires now <= latest
    ensures keepAlive ==> r == Some(NoShutdown)
    ensures !keepAlive && idleTimeout == 0 ==> r == Some(Asap)
    ensures !keepAlive && idleTimeout != 0 && current.Later? ==> r.None?
    ensures !keepAlive && idleTimeout != 0 && !current.Later? ==>
              r.Some? && r.value.Later? && r.value.after <= idleTimeout && now + r.value.after <= latest
    ensures !keepAlive && idleTimeout != 0 && !current.Later? && now + idleTimeout <= latest ==>
              r == Some(Later(idleTimeout))
  {
    if !keepAlive && idleTimeout == 0 then Some(Asap)
    else if !keepAlive && current.Later? then None
    else if !keepAlive then Some(Later(Fraction(now, idleTimeout, latest)))
    else Some(NoShutdown)
  }

  // ---------------------------------------------------------------------
  // One turn of a connection's poll loop

  /// What one pass through the loop of a connection's `poll` ends in:
  /// another pass, or a return from `poll`.
  datatype Outcome<Ev> = Continue | Return(result: Poll<Result<Ev, ConnectionError>>)

  /// The shutdown state both connection loops keep once the handler and
  /// the upgrades have nothing to report: recomputed when the connection
  /// is idle (keeping a running timer when `compute_new_shutdown` says
  /// so), and reset to none while anything is still in progress. `now` is
  /// the clock reading and `headroom` how far past it an instant can
  /// still be represented.
  function NextShutdown(idle: bool, keepAlive: bool, current: Shutdown, idleTimeout: Duration, now: Duration, headroom: Duration)
    : (r: Shutdown)
    ensures !idle || keepAlive ==> r == NoShutdown
    ensures idle && !keepAlive && idleTimeout == 0 ==> r == Asap
    ensures idle && !keepAlive && idleTimeout != 0 && current.Later? ==> r == current
    ensures idle && !keepAlive && idleTimeout != 0 && !current.Later? ==> r.Later? && r.after <= idleTimeout
  {
    if !idle then NoShutdown
    else
      var n := ComputeNewShutdown(keepAlive, current, idleTimeout, now, now + headroom);
      if n.Some? then n.value else current
  }

  /// Whether an idle connection closes for idleness at this pass: at once
  /// for Asap, and for Later once its timer has fired.
  predicate ShutdownFires(idle: bool, s: Shutdown, delayFired: bool)
  {
    idle && (s.Asap? || (s.Later? && delayFired))
  }
}
