// Transport events and errors (transport.rs and transport/choice.rs of
// volans-core). Addresses are a type parameter `A`; the upgrade futures
// and errors the events carry are type parameters too.
module Transport {
  import opened Wrappers

  datatype ListenerEvent<U, E, A> =
    | NewAddress(addr: A)
    | AddressExpired(addr: A)
    | Incoming(localAddr: A, remoteAddr: A, upgrade: U)
    | Closed(res: Result<(), E>)
    | Error(err: E)

  /// `ListenerEvent::map_upgrade`: only an Incoming's upgrade changes.
  function MapUpgrade<U, U2, E, A>(ev: ListenerEvent<U, E, A>, f: U -> U2): (r: ListenerEvent<U2, E, A>)
    ensures ev.NewAddress? <==> r.NewAddress?
    ensures ev.AddressExpired? <==> r.AddressExpired?
    ensures ev.Incoming? <==> r.Incoming?
    ensures ev.Closed? <==> r.Closed?
    ensures ev.Error? <==> r.Error?
    ensures (ev.NewAddress? || ev.AddressExpired?) ==> r.addr == ev.addr
    ensures ev.Incoming? ==> r.localAddr == ev.localAddr && r.remoteAddr == ev.remoteAddr && r.upgrade == f(ev.upgrade)
    ensures ev.Closed? ==> r.res == ev.res
    ensures ev.Error? ==> r.err == ev.err
  {
    match ev
    case NewAddress(a) => NewAddress(a)
    case AddressExpired(a) => AddressExpired(a)
    case Incoming(l, rem, u) => Incoming(l, rem, f(u))
    case Closed(res) => Closed(res)
    case Error(e) => Error(e)
  }

  /// `ListenerEvent::map_err`: only Error and a Closed error change.
  function MapErr<U, E, E2, A>(ev: ListenerEvent<U, E, A>, f: E -> E2): (r: ListenerEvent<U, E2, A>)
    ensures ev.NewAddress? <==> r.NewAddress?
    ensures ev.AddressExpired? <==> r.AddressExpired?
    ensures ev.Incoming? <==> r.Incoming?
    ensures ev.Closed? <==> r.Closed?
    ensures ev.Error? <==> r.Error?
    ensures (ev.NewAddress? || ev.AddressExpired?) ==> r.addr == ev.addr
    ensures ev.Incoming? ==> r == Incoming(ev.localAddr, ev.remoteAddr, ev.upgrade)
    ensures ev.Closed? && ev.res.Ok? ==> r.res == Ok(())
    ensures ev.Closed? && ev.res.Err? ==> r.res == Err(f(ev.res.error))
    ensures ev.Error? ==> r.err == f(ev.err)
  {
    match ev
    case NewAddress(a) => NewAddress(a)
    case AddressExpired(a) => AddressExpired(a)
    case Incoming(l, rem, u) => Incoming(l, rem, u)
    case Closed(Ok(())) => Closed(Ok(()))
    case Closed(Err(e)) => Closed(Err(f(e)))
    case Error(e) => Error(f(e))
  }

  /// Mapping the upgrade and mapping the error commute.
  lemma MapsCommute<U, U2, E, E2, A>(ev: ListenerEvent<U, E, A>, f: U -> U2, g: E -> E2)
    ensures MapErr(MapUpgrade(ev, f), g) == MapUpgrade(MapErr(ev, g), f)
  {
  }

  datatype TransportError<E, A> = NotSupported(addr: A) | Other(err: E)

  /// `From<TErr> for TransportError`.
  function FromError<E, A>(err: E): TransportError<E, A>
  {
    Other(err)
  }

  /// `TransportError::map`: NotSupported keeps its address, Other maps.
  function MapError<E, E2, A>(te: TransportError<E, A>, f: E -> E2): (r: TransportError<E2, A>)
    ensures te.NotSupported? <==> r.NotSupported?
    ensures te.NotSupported? ==> r.addr == te.addr
    ensures te.Other? ==> r.err == f(te.err)
  {
    match te
    case NotSupported(a) => NotSupported(a)
    case Other(e) => Other(f(e))
  }

  /// Mapping a wrapped error is wrapping the mapped error.
  lemma MapFromError<E, E2, A>(err: E, f: E -> E2)
    ensures MapError(FromError<E, A>(err), f) == FromError<E2, A>(f(err))
  {
  }

  // ---------------------------------------------------------------------
  // Choice of two transports

  /// What one transport's `dial` (or `listen`) gives: the dial future (or
  /// listener), or an error.
  type Outcome<T, E, A> = Result<T, TransportError<E, A>>

  /// `Choice::dial` and `Choice::listen`: the first transport unless it
  /// does not support the address, then the second; the result and its
  /// errors are tagged with the side that produced them. The second
  /// transport is consulted only through `second`, so the result shows
  /// when it is not tried.
  function Choose<T1, T2, E1, E2, A>(first: Outcome<T1, E1, A>, second: Outcome<T2, E2, A>)
    : (r: Outcome<Either<T1, T2>, Either<E1, E2>, A>)
    ensures first.Ok? ==> r == Ok(Left(first.value))
    ensures first.Err? && first.error.Other? ==> r == Err(Other(Left(first.error.err)))
    ensures first.Err? && first.error.NotSupported? && second.Ok? ==> r == Ok(Right(second.value))
    ensures first.Err? && first.error.NotSupported? && second.Err? ==>
              r == Err(MapError(second.error, (e: E2) => Right(e)))
  {
    match first
    case Ok(t) => Ok(Left(t))
    case Err(Other(e)) => Err(Other(Left(e)))
    case Err(NotSupported(_)) =>
      match second
      case Ok(t) => Ok(Right(t))
      case Err(e) => Err(MapError(e, (x: E2) => Right(x)))
  }

  /// When the first transport decides, the second's outcome is irrelevant.
  lemma SecondOnlyOnNotSupported<T1, T2, E1, E2, A>(first: Outcome<T1, E1, A>, s1: Outcome<T2, E2, A>, s2: Outcome<T2, E2, A>)
    requires !(first.Err? && first.error.NotSupported?)
    ensures Choose(first, s1) == Choose(first, s2)
  {
  }

  /// A first transport that does not support the address hands over to
  /// the second: whatever the second does, tagged Right.
  lemma FallbackIsSecond<T1, T2, E1, E2, A>(a: A, second: Outcome<T2, E2, A>)
    ensures var r := Choose<T1, T2, E1, E2, A>(Err(NotSupported(a)), second);
            (r.Ok? <==> second.Ok?)
            && (r.Ok? ==> r.value == Right(second.value))
            && (r.Err? && second.error.NotSupported? ==> r.error == NotSupported(second.error.addr))
            && (r.Err? && second.error.Other? ==> r.error == Other(Right(second.error.err)))
  {
  }

  /// `ChoiceFuture::poll`: the inner future's output tagged with its side.
  function PollChoiceFuture<T1, T2, E1, E2>(side: Either<Poll<Result<T1, E1>>, Poll<Result<T2, E2>>>)
    : (r: Poll<Result<Either<T1, T2>, Either<E1, E2>>>)
    ensures side.Left? ==> (r.Pending? <==> side.left.Pending?)
    ensures side.Right? ==> (r.Pending? <==> side.right.Pending?)
    ensures side.Left? && side.left.Ready? ==>
              (side.left.value.Ok? ==> r == Ready(Ok(Left(side.left.value.value))))
              && (side.left.value.Err? ==> r == Ready(Err(Left(side.left.value.error))))
    ensures side.Right? && side.right.Ready? ==>
              (side.right.value.Ok? ==> r == Ready(Ok(Right(side.right.value.value))))
              && (side.right.value.Err? ==> r == Ready(Err(Right(side.right.value.error))))
  {
    match side
    case Left(Pending) => Pending
    case Left(Ready(Ok(t))) => Ready(Ok(Left(t)))
    case Left(Ready(Err(e))) => Ready(Err(Left(e)))
    case Right(Pending) => Pending
    case Right(Ready(Ok(t))) => Ready(Ok(Right(t)))
    case Right(Ready(Err(e))) => Ready(Err(Right(e)))
  }

  /// `ChoiceListener::poll_event`: the inner listener's event, its upgrade
  /// wrapped in a ChoiceFuture of the same side and its error tagged with
  /// the side.
  function PollChoiceEvent<U1, U2, E1, E2, A>(side: Either<Poll<ListenerEvent<U1, E1, A>>, Poll<ListenerEvent<U2, E2, A>>>)
    : (r: Poll<ListenerEvent<Either<U1, U2>, Either<E1, E2>, A>>)
    ensures side.Left? ==> (r.Pending? <==> side.left.Pending?)
    ensures side.Right? ==> (r.Pending? <==> side.right.Pending?)
    ensures side.Left? && side.left.Ready? ==>
              r == Ready(MapErr(MapUpgrade(side.left.value, (u: U1) => Left(u)), (e: E1) => Left(e)))
    ensures side.Right? && side.right.Ready? ==>
              r == Ready(MapErr(MapUpgrade(side.right.value, (u: U2) => Right(u)), (e: E2) => Right(e)))
  {
    match side
    case Left(Pending) => Pending
    case Left(Ready(ev)) => Ready(MapErr(MapUpgrade(ev, (u: U1) => Left(u)), (e: E1) => Left(e)))
    case Right(Pending) => Pending
    case Right(Ready(ev)) => Ready(MapErr(MapUpgrade(ev, (u: U2) => Right(u)), (e: E2) => Right(e)))
  }

  /// An event from the left listener is tagged Left throughout.
  lemma LeftEventsAreLeft<U1, U2, E1, E2, A>(ev: ListenerEvent<U1, E1, A>)
    ensures var r := PollChoiceEvent<U1, U2, E1, E2, A>(Left(Ready(ev)));
            r.Ready?
            && (r.value.Incoming? ==> r.value.upgrade == Left(ev.upgrade))
            && (r.value.Error? ==> r.value.err == Left(ev.err))
            && (r.value.Closed? && r.value.res.Err? ==> r.value.res.error == Left(ev.res.error))
  {
  }

  /// `ChoiceListener::poll_close`: the inner result with its error tagged.
  function PollChoiceClose<E1, E2>(side: Either<Poll<Result<(), E1>>, Poll<Result<(), E2>>>)
    : (r: Poll<Result<(), Either<E1, E2>>>)
    ensures side.Left? ==> (r.Pending? <==> side.left.Pending?)
    ensures side.Right? ==> (r.Pending? <==> side.right.Pending?)
    ensures side.Left? && side.left.Ready? && side.left.value.Err? ==> r == Ready(Err(Left(side.left.value.error)))
    ensures side.Right? && side.right.Ready? && side.right.value.Err? ==> r == Ready(Err(Right(side.right.value.error)))
    ensures r.Ready? && r.value.Ok? <==>
              (side.Left? && side.left == Ready(Ok(()))) || (side.Right? && side.right == Ready(Ok(())))
  {
    match side
    case Left(Pending) => Pending
    case Left(Ready(Ok(()))) => Ready(Ok(()))
    case Left(Ready(Err(e))) => Ready(Err(Left(e)))
    case Right(Pending) => Pending
    case Right(Ready(Ok(()))) => Ready(Ok(()))
    case Right(Ready(Err(e))) => Ready(Err(Right(e)))
  }
}
