// Two connection handlers combined into one
// (volans-swarm/src/handler/select.rs). The combination keeps no state of
// its own: every call is passed on to one of the two handlers, chosen by
// the side of an `Either`, and every poll asks the first handler before
// the second. So each operation is a function from what the two handlers
// answer to what the combination answers, or from a call to the side
// that receives it.
module SwarmHandlerSelect {
  import opened Wrappers
  import opened Time
  import opened SwarmHandler
  import opened Upgrade

  // ---------------------------------------------------------------------
  // Routing calls

  /// `handle_action`: a Left action goes to the first handler, a Right
  /// one to the second, unchanged. Over a run of actions, the first
  /// handler gets `Lefts(actions)` and the second `Rights(actions)`; one
  /// more action extends exactly the list of its own side.
  lemma {:induction false} ActionGoesToItsSide<A1, A2>(actions: seq<Either<A1, A2>>, a: Either<A1, A2>)
    ensures Lefts(actions + [a]) == Lefts(actions) + (if a.Left? then [a.left] else [])
    ensures Rights(actions + [a]) == Rights(actions) + (if a.Right? then [a.right] else [])
    decreases |actions|
  {
    if actions != [] {
      assert (actions + [a])[1..] == actions[1..] + [a];
      ActionGoesToItsSide(actions[1..], a);
    } else {
      assert [a][1..] == [];
    }
  }

  /// No action is lost or delivered twice.
  lemma {:induction false} ActionsPartition<A1, A2>(actions: seq<Either<A1, A2>>)
    ensures |Lefts(actions)| + |Rights(actions)| == |actions|
    decreases |actions|
  {
    if actions != [] {
      ActionsPartition(actions[1..]);
    }
  }

  /// `connection_keep_alive`: the combination is kept alive while either
  /// handler asks for it.
  function KeepAlive(first: bool, second: bool): bool
  {
    first || second
  }

  /// A handler that keeps the default (no keep-alive) does not change
  /// what the other one asks for.
  lemma DefaultKeepAliveIsNeutral(alive: bool)
    ensures KeepAlive(DEFAULT_KEEP_ALIVE, alive) == alive
    ensures KeepAlive(alive, DEFAULT_KEEP_ALIVE) == alive
  {
  }

  /// A call made into one of the two handlers.
  datatype Routed<D1, O1, D2, O2> = ToFirst(firstData: D1, firstOutput: O1) | ToSecond(secondData: D2, secondOutput: O2)

  /// Inbound `on_fully_negotiated`: the side that negotiated gets its own
  /// half of the paired user data.
  function InboundNegotiated<D1, D2, O1, O2>(userData: (D1, D2), protocol: Either<O1, O2>): (r: Routed<D1, O1, D2, O2>)
    ensures r.ToFirst? <==> protocol.Left?
    ensures r.ToFirst? ==> r == ToFirst(userData.0, protocol.left)
    ensures r.ToSecond? ==> r == ToSecond(userData.1, protocol.right)
  {
    match protocol
    case Left(o) => ToFirst(userData.0, o)
    case Right(o) => ToSecond(userData.1, o)
  }

  /// Inbound `on_upgrade_error`: routed by the side of the error, which
  /// gets its own half of the user data.
  function InboundUpgradeError<D1, D2, X1, X2>(userData: (D1, D2), error: Either<X1, X2>): (r: Routed<D1, X1, D2, X2>)
    ensures r.ToFirst? <==> error.Left?
    ensures r.ToFirst? ==> r == ToFirst(userData.0, error.left)
    ensures r.ToSecond? ==> r == ToSecond(userData.1, error.right)
  {
    match error
    case Left(x) => ToFirst(userData.0, x)
    case Right(x) => ToSecond(userData.1, x)
  }

  /// Outbound `on_fully_negotiated`: routed by the side of the protocol;
  /// user data of the other side is an `expect` failure.
  function OutboundNegotiated<D1, D2, O1, O2>(userData: Either<D1, D2>, protocol: Either<O1, O2>): (r: Routed<D1, O1, D2, O2>)
    requires protocol.Left? <==> userData.Left?
    ensures r.ToFirst? <==> protocol.Left?
    ensures r.ToFirst? ==> r == ToFirst(userData.left, protocol.left)
    ensures r.ToSecond? ==> r == ToSecond(userData.right, protocol.right)
  {
    match protocol
    case Left(o) => ToFirst(userData.left, o)
    case Right(o) => ToSecond(userData.right, o)
  }

  /// Outbound `on_upgrade_error`: routed by the side of the user data;
  /// an Apply error of the other side is an `expect` failure. Timeouts,
  /// failed negotiations and I/O errors reach the side that asked.
  function OutboundUpgradeError<D1, D2, X1, X2>(userData: Either<D1, D2>, error: StreamUpgradeError<Either<X1, X2>>)
    : (r: Routed<D1, StreamUpgradeError<X1>, D2, StreamUpgradeError<X2>>)
    requires error.Apply? ==> (error.err.Left? <==> userData.Left?)
    ensures r.ToFirst? <==> userData.Left?
    ensures r.ToFirst? ==> r.firstData == userData.left && MapUpgradeErr(r.firstOutput, (x: X1) => Left(x)) == error
    ensures r.ToSecond? ==> r.secondData == userData.right && MapUpgradeErr(r.secondOutput, (x: X2) => Right(x)) == error
  {
    match userData
    case Left(d) => ToFirst(d, TransposeLeft(error))
    case Right(d) => ToSecond(d, TransposeRight(error))
  }

  // ---------------------------------------------------------------------
  // Polling

  /// `poll`: the first handler's event if it has one, tagged Left;
  /// otherwise the second's, tagged Right; otherwise Pending.
  function PollEvent<E1, E2>(first: Poll<ConnectionHandlerEvent<E1>>, second: Poll<ConnectionHandlerEvent<E2>>)
    : (r: Poll<ConnectionHandlerEvent<Either<E1, E2>>>)
    ensures r.Pending? <==> first.Pending? && second.Pending?
    ensures first.Ready? ==> r == Ready(MapEvent(first.value, (e: E1) => Left(e)))
    ensures first.Pending? && second.Ready? ==> r == Ready(MapEvent(second.value, (e: E2) => Right(e)))
  {
    if first.Ready? then Ready(MapEvent(first.value, (e: E1) => Left(e)))
    else if second.Ready? then Ready(MapEvent(second.value, (e: E2) => Right(e)))
    else Pending
  }

  /// The second handler's events only come through while the first has
  /// none, and a close request is a close request whichever side made it.
  lemma PollFirstPriority<E1, E2>(first: Poll<ConnectionHandlerEvent<E1>>, second: Poll<ConnectionHandlerEvent<E2>>)
    ensures var r := PollEvent(first, second);
            r.Ready? && r.value.Notify? && r.value.event.Right? ==> first.Pending?
    ensures var r := PollEvent(first, second);
            r.Ready? && r.value.CloseConnection? <==>
              (first.Ready? && first.value.CloseConnection?) || (first.Pending? && second.Ready? && second.value.CloseConnection?)
  {
  }

  /// `poll_close`: the first handler is drained before the second is
  /// asked; Ready(None) once both are drained.
  function PollClose<E1, E2>(first: Poll<Option<E1>>, second: Poll<Option<E2>>): (r: Poll<Option<Either<E1, E2>>>)
    ensures r.Pending? <==> first.Pending? || (first == Ready(None) && second.Pending?)
    ensures first.Ready? && first.value.Some? ==> r == Ready(Some(Left(first.value.value)))
    ensures r.Ready? && r.value.Some? && r.value.value.Right? ==> first == Ready(None) && second == Ready(Some(r.value.value.right))
    ensures r == Ready(None) <==> first == Ready(None) && second == Ready(None)
  {
    match first
    case Pending => Pending
    case Ready(Some(e)) => Ready(Some(Left(e)))
    case Ready(None) =>
      match second
      case Pending => Pending
      case Ready(Some(e)) => Ready(Some(Right(e)))
      case Ready(None) => Ready(None)
  }

  /// Two handlers that keep the default `poll_close` finish at once.
  lemma DefaultPollCloseFinishes<E1, E2>()
    ensures PollClose(DefaultPollClose<E1>(), DefaultPollClose<E2>()) == Ready(None)
  {
  }

  /// `poll_outbound_request`: the first handler's request if it has one,
  /// its upgrade and user data tagged Left; otherwise the second's,
  /// tagged Right; otherwise Pending. The timeout is kept.
  function PollOutboundRequest<U1, D1, U2, D2>(first: Poll<SubstreamProtocol<U1, D1>>, second: Poll<SubstreamProtocol<U2, D2>>)
    : (r: Poll<SubstreamProtocol<Either<U1, U2>, Either<D1, D2>>>)
    ensures r.Pending? <==> first.Pending? && second.Pending?
    ensures first.Ready? ==> r == Ready(SubstreamProtocol(Left(first.value.upgrade), first.value.timeout, Left(first.value.userData)))
    ensures first.Pending? && second.Ready? ==>
              r == Ready(SubstreamProtocol(Right(second.value.upgrade), second.value.timeout, Right(second.value.userData)))
  {
    if first.Ready? then
      Ready(MapUserData(MapUpgrade(first.value, (u: U1) => Left(u)), (d: D1) => Left(d)))
    else if second.Ready? then
      Ready(MapUserData(MapUpgrade(second.value, (u: U2) => Right(u)), (d: D2) => Right(d)))
    else Pending
  }

  /// `listen_protocol`: both upgrades offered together, the two user
  /// data paired, and the longer of the two timeouts.
  function ListenProtocol<U1, D1, U2, D2>(first: SubstreamProtocol<U1, D1>, second: SubstreamProtocol<U2, D2>)
    : (r: SubstreamProtocol<(U1, U2), (D1, D2)>)
    ensures r.upgrade == (first.upgrade, second.upgrade) && r.userData == (first.userData, second.userData)
    ensures r.timeout >= first.timeout && r.timeout >= second.timeout
    ensures r.timeout == first.timeout || r.timeout == second.timeout
  {
    var (u1, d1, t1) := IntoInner(first);
    var (u2, d2, t2) := IntoInner(second);
    WithTimeout(NewSubstreamProtocol((u1, u2), (d1, d2)), if t1 >= t2 then t1 else t2)
  }

  // ---------------------------------------------------------------------
  // Round trips

  /// The user data paired by `listen_protocol` comes back to the side
  /// whose upgrade finished, whether it negotiated or failed.
  lemma ListenDataReturns<U1, D1, U2, D2, O1, O2>(first: SubstreamProtocol<U1, D1>, second: SubstreamProtocol<U2, D2>,
                                                  o1: O1, o2: O2)
    ensures InboundNegotiated<D1, D2, O1, O2>(ListenProtocol(first, second).userData, Left(o1)) == ToFirst(first.userData, o1)
    ensures InboundNegotiated<D1, D2, O1, O2>(ListenProtocol(first, second).userData, Right(o2)) == ToSecond(second.userData, o2)
    ensures InboundUpgradeError<D1, D2, O1, O2>(ListenProtocol(first, second).userData, Left(o1)) == ToFirst(first.userData, o1)
    ensures InboundUpgradeError<D1, D2, O1, O2>(ListenProtocol(first, second).userData, Right(o2)) == ToSecond(second.userData, o2)
  {
  }

  /// An error of an outbound upgrade the first handler asked for goes
  /// back to the first handler with its own user data and its own error;
  /// the same for the second.
  lemma OutboundErrorReturns<U1, D1, U2, D2, X1, X2>(first: SubstreamProtocol<U1, D1>, second: SubstreamProtocol<U2, D2>,
                                                     e1: StreamUpgradeError<X1>, e2: StreamUpgradeError<X2>)
    ensures var req := PollOutboundRequest(Ready(first), Ready(second)).value;
            OutboundUpgradeError(req.userData, MapUpgradeErr<X1, Either<X1, X2>>(e1, x => Left(x))) == ToFirst(first.userData, e1)
    ensures var req := PollOutboundRequest<U1, D1, U2, D2>(Pending, Ready(second)).value;
            OutboundUpgradeError<D1, D2, X1, X2>(req.userData, MapUpgradeErr<X2, Either<X1, X2>>(e2, x => Right(x)))
              == ToSecond(second.userData, e2)
  {
    TransposeUndoesTagging<X1, X2>(e1, e2);
  }

  /// An outbound upgrade the first handler asked for, once negotiated,
  /// reaches the first handler with its own user data.
  lemma OutboundOutputReturns<U1, D1, U2, D2, O1, O2>(first: SubstreamProtocol<U1, D1>, second: Poll<SubstreamProtocol<U2, D2>>, o1: O1)
    ensures var req := PollOutboundRequest(Ready(first), second).value;
            OutboundNegotiated<D1, D2, O1, O2>(req.userData, Left(o1)) == ToFirst(first.userData, o1)
  {
  }
}
