// The value types of the connection-handler interface
// (volans-swarm/src/handler.rs): the substream protocol a handler asks
// for, the errors an upgrade of a substream can end in, and the events a
// handler emits. The handler interface itself is a set of callbacks; its
// default answers are stated here as constants.
module SwarmHandler {
  import opened Wrappers
  import opened Io
  import opened Time

  /// `SubstreamProtocol`: an upgrade, the user data handed back with its
  /// outcome, and the time the upgrade may take.
  datatype SubstreamProtocol<U, D> = SubstreamProtocol(upgrade: U, timeout: Duration, userData: D)

  /// The timeout `SubstreamProtocol::new` gives.
  const DEFAULT_SUBSTREAM_TIMEOUT: Duration := Secs(5)

  /// `ConnectionHandler::connection_keep_alive` unless a handler says
  /// otherwise.
  const DEFAULT_KEEP_ALIVE: bool := false

  /// `SubstreamProtocol::new`.
  function NewSubstreamProtocol<U, D>(upgrade: U, data: D): SubstreamProtocol<U, D>
  {
    SubstreamProtocol(upgrade, DEFAULT_SUBSTREAM_TIMEOUT, data)
  }

  /// `with_timeout`: only the timeout changes.
  function WithTimeout<U, D>(p: SubstreamProtocol<U, D>, timeout: Duration): SubstreamProtocol<U, D>
  {
    p.(timeout := timeout)
  }

  /// `into_inner`: the upgrade, the user data and the timeout.
  function IntoInner<U, D>(p: SubstreamProtocol<U, D>): (U, D, Duration)
  {
    (p.upgrade, p.userData, p.timeout)
  }

  /// `into_inner` loses nothing: the parts rebuild the protocol.
  lemma IntoInnerRebuilds<U, D>(p: SubstreamProtocol<U, D>)
    ensures var (u, d, t) := IntoInner(p); SubstreamProtocol(u, t, d) == p
  {
  }

  /// What `new` and `with_timeout` build, `into_inner` hands back: the
  /// upgrade and user data given, with the five-second default or the
  /// timeout set afterwards.
  lemma NewThenIntoInner<U, D>(upgrade: U, data: D, t: Duration)
    ensures IntoInner(NewSubstreamProtocol(upgrade, data)) == (upgrade, data, 5 * NANOS_PER_SEC)
    ensures IntoInner(WithTimeout(NewSubstreamProtocol(upgrade, data), t)) == (upgrade, data, t)
  {
  }

  /// `map_upgrade`: the user data and the timeout are kept.
  function MapUpgrade<U, U2, D>(p: SubstreamProtocol<U, D>, f: U -> U2): SubstreamProtocol<U2, D>
  {
    SubstreamProtocol(f(p.upgrade), p.timeout, p.userData)
  }

  /// `map_user_data`: the upgrade and the timeout are kept.
  function MapUserData<U, D, D2>(p: SubstreamProtocol<U, D>, f: D -> D2): SubstreamProtocol<U, D2>
  {
    SubstreamProtocol(p.upgrade, p.timeout, f(p.userData))
  }

  /// The two mappers touch different parts, so their order does not
  /// matter, and neither touches a timeout set with `with_timeout`.
  lemma MappersCommute<U, U2, D, D2>(p: SubstreamProtocol<U, D>, f: U -> U2, g: D -> D2, t: Duration)
    ensures MapUserData(MapUpgrade(p, f), g) == MapUpgrade(MapUserData(p, g), f)
    ensures MapUpgrade(WithTimeout(p, t), f).timeout == t
  {
  }

  /// `StreamUpgradeError`.
  datatype StreamUpgradeError<E> =
    | Timeout
    | Apply(err: E)
    | NegotiationFailed
    | Io(ioError: IoError)

  /// `map_upgrade_err`: only an Apply error is mapped.
  function MapUpgradeErr<E, E2>(e: StreamUpgradeError<E>, f: E -> E2): (r: StreamUpgradeError<E2>)
    ensures e.Apply? <==> r.Apply?
    ensures e.Apply? ==> r.err == f(e.err)
    ensures e.Timeout? <==> r.Timeout?
    ensures e.NegotiationFailed? <==> r.NegotiationFailed?
    ensures e.Io? <==> r.Io?
    ensures e.Io? ==> r.ioError == e.ioError
  {
    match e
    case Timeout => Timeout
    case Apply(x) => Apply(f(x))
    case NegotiationFailed => NegotiationFailed
    case Io(x) => Io(x)
  }

  /// `transpose_left`; an Apply error that is not a Left one panics.
  function TransposeLeft<E1, E2>(e: StreamUpgradeError<Either<E1, E2>>): (r: StreamUpgradeError<E1>)
    requires e.Apply? ==> e.err.Left?
    ensures e.Apply? ==> r == Apply(e.err.left)
    ensures !e.Apply? ==> MapUpgradeErr(r, (x: E1) => Left(x)) == e
  {
    match e
    case Timeout => Timeout
    case Apply(x) => Apply(x.left)
    case NegotiationFailed => NegotiationFailed
    case Io(x) => Io(x)
  }

  /// `transpose_right`; an Apply error that is not a Right one panics.
  function TransposeRight<E1, E2>(e: StreamUpgradeError<Either<E1, E2>>): (r: StreamUpgradeError<E2>)
    requires e.Apply? ==> e.err.Right?
    ensures e.Apply? ==> r == Apply(e.err.right)
    ensures !e.Apply? ==> MapUpgradeErr(r, (x: E2) => Right(x)) == e
  {
    match e
    case Timeout => Timeout
    case Apply(x) => Apply(x.right)
    case NegotiationFailed => NegotiationFailed
    case Io(x) => Io(x)
  }

  /// Tagging an error Left and transposing it back gives it back; the
  /// same for Right.
  lemma TransposeUndoesTagging<E1, E2>(e1: StreamUpgradeError<E1>, e2: StreamUpgradeError<E2>)
    ensures TransposeLeft(MapUpgradeErr<E1, Either<E1, E2>>(e1, x => Left(x))) == e1
    ensures TransposeRight(MapUpgradeErr<E2, Either<E1, E2>>(e2, x => Right(x))) == e2
  {
  }

  /// `ConnectionHandlerEvent`.
  datatype ConnectionHandlerEvent<T> = Notify(event: T) | CloseConnection

  /// `map_event`: a Notify's event is mapped and CloseConnection kept.
  function MapEvent<T, O>(ev: ConnectionHandlerEvent<T>, f: T -> O): (r: ConnectionHandlerEvent<O>)
    ensures ev.Notify? <==> r.Notify?
    ensures ev.Notify? ==> r.event == f(ev.event)
  {
    match ev
    case Notify(x) => Notify(f(x))
    case CloseConnection => CloseConnection
  }

  /// Mapping twice is mapping by the composition.
  lemma MapEventCompose<T, O, P>(ev: ConnectionHandlerEvent<T>, f: T -> O, g: O -> P)
    ensures MapEvent(MapEvent(ev, f), g) == MapEvent(ev, (x: T) => g(f(x)))
  {
  }

  /// `ConnectionHandler::poll_close` unless a handler says otherwise: no
  /// further event.
  function DefaultPollClose<E>(): (r: Poll<Option<E>>)
    ensures r.Ready? && r.value.None?
  {
    Ready(None)
  }

  /// The calls a connection makes into its stream handler
  /// (`on_fully_negotiated` and `on_upgrade_error` of the inbound and the
  /// outbound stream handler), recorded in order: the handler itself is
  /// not part of this model.
  datatype HandlerCall<D, O, X> = FullyNegotiated(info: D, output: O) | UpgradeFailed(info: D, error: X)
}
