// The upgrade layer of volans-core: `apply` (negotiate a protocol, then
// run the upgrade for it; upgrade/apply.rs), the combination of two
// upgrades offering both lists (upgrade/select.rs), the choice of one of
// two upgrades (upgrade/either.rs) and `UpgradeError` (upgrade/error.rs).
module Upgrade {
  import opened Wrappers
  import opened Bytes
  import opened NegotiatedStream
  import opened CoreConnection
  import D = DialerSelect
  import L = ListenerSelect

  datatype UpgradeError<E> = Select(negotiation: NegotiationError) | Apply(err: E)

  /// `UpgradeError::map_err`: a negotiation error stays as it is.
  function MapUpgradeError<E, E2>(e: UpgradeError<E>, f: E -> E2): (r: UpgradeError<E2>)
    ensures e.Select? ==> r == Select(e.negotiation)
    ensures e.Apply? ==> r == Apply(f(e.err))
  {
    match e
    case Select(n) => Select(n)
    case Apply(x) => Apply(f(x))
  }

  /// Mapping twice is mapping by the composition.
  lemma MapUpgradeErrorCompose<E, E2, E3>(e: UpgradeError<E>, f: E -> E2, g: E2 -> E3)
    ensures MapUpgradeError(MapUpgradeError(e, f), g) == MapUpgradeError(e, (x: E) => g(f(x)))
  {
  }

  // ---------------------------------------------------------------------
  // SelectUpgrade

  /// `SelectUpgrade::protocol_info`: A's infos tagged Left, then B's
  /// tagged Right.
  function SelectInfo<IA, IB>(a: seq<IA>, b: seq<IB>): (r: seq<Either<IA, IB>>)
    ensures |r| == |a| + |b|
  {
    seq(|a| + |b|, i requires 0 <= i < |a| + |b| => if i < |a| then Left(a[i]) else Right(b[i - |a|]))
  }

  /// Every info of A comes first, in A's order, then every info of B, in
  /// B's order.
  lemma SelectInfoOrder<IA, IB>(a: seq<IA>, b: seq<IB>)
    ensures forall i :: 0 <= i < |a| ==> SelectInfo(a, b)[i] == Left(a[i])
    ensures forall j :: 0 <= j < |b| ==> SelectInfo(a, b)[|a| + j] == Right(b[j])
  {
  }

  /// The infos of A are recovered from the combined list.
  function Lefts<IA, IB>(s: seq<Either<IA, IB>>): (r: seq<IA>)
    ensures |r| <= |s|
  {
    if s == [] then []
    else if s[0].Left? then [s[0].left] + Lefts(s[1..])
    else Lefts(s[1..])
  }

  /// The infos of B are recovered from the combined list.
  function Rights<IA, IB>(s: seq<Either<IA, IB>>): (r: seq<IB>)
    ensures |r| <= |s|
  {
    if s == [] then []
    else if s[0].Right? then [s[0].right] + Rights(s[1..])
    else Rights(s[1..])
  }

  /// Splitting the combined list by side gives back A's and B's lists.
  lemma {:induction false} SelectInfoSplits<IA, IB>(a: seq<IA>, b: seq<IB>)
    ensures Lefts(SelectInfo(a, b)) == a && Rights(SelectInfo(a, b)) == b
    decreases |a| + |b|
  {
    var s := SelectInfo(a, b);
    if a != [] {
      SelectInfoSplits(a[1..], b);
      assert s[1..] == SelectInfo(a[1..], b);
    } else if b != [] {
      SelectInfoSplits(a, b[1..]);
      assert s[1..] == SelectInfo(a, b[1..]);
    }
  }

  /// `upgrade_inbound`/`upgrade_outbound` of a SelectUpgrade: Left info
  /// goes to A (the First future), Right info to B (the Second).
  function SelectUpgrade<IA, IB, FA, FB>(ua: IA -> FA, ub: IB -> FB, info: Either<IA, IB>): (r: Either<FA, FB>)
    ensures info.Left? ==> r == Left(ua(info.left))
    ensures info.Right? ==> r == Right(ub(info.right))
  {
    match info
    case Left(i) => Left(ua(i))
    case Right(i) => Right(ub(i))
  }

  // ---------------------------------------------------------------------
  // Either upgrade

  /// `protocol_info` of `Either::Left(a)` / `Either::Right(b)`: that
  /// side's infos, tagged with the side.
  function EitherInfo<IA, IB>(u: Either<seq<IA>, seq<IB>>): (r: seq<Either<IA, IB>>)
    ensures u.Left? ==> |r| == |u.left| && forall i :: 0 <= i < |r| ==> r[i] == Left(u.left[i])
    ensures u.Right? ==> |r| == |u.right| && forall i :: 0 <= i < |r| ==> r[i] == Right(u.right[i])
  {
    match u
    case Left(a) => seq(|a|, i requires 0 <= i < |a| => Left(a[i]))
    case Right(b) => seq(|b|, i requires 0 <= i < |b| => Right(b[i]))
  }

  /// `upgrade_inbound`/`upgrade_outbound` of an Either upgrade: the info
  /// must come from the same side as the upgrade (a mismatch panics).
  function EitherUpgrade<A, B, IA, IB, FA, FB>(u: Either<A, B>, ua: (A, IA) -> FA, ub: (B, IB) -> FB, info: Either<IA, IB>)
    : (r: Either<FA, FB>)
    requires u.Left? == info.Left?
    ensures u.Left? ==> r == Left(ua(u.left, info.left))
    ensures u.Right? ==> r == Right(ub(u.right, info.right))
  {
    match (u, info)
    case (Left(a), Left(i)) => Left(ua(a, i))
    case (Right(b), Right(i)) => Right(ub(b, i))
  }

  /// Every info an Either upgrade offers can be handed back to it.
  lemma EitherInfoMatchesSide<IA, IB>(u: Either<seq<IA>, seq<IB>>, k: nat)
    requires k < |EitherInfo(u)|
    ensures EitherInfo(u)[k].Left? == u.Left?
  {
  }

  // ---------------------------------------------------------------------
  // apply

  /// The negotiation an apply future runs: the listener side inbound, the
  /// dialer side outbound.
  datatype Negotiation = Inbound(listener: L.Listener) | Outbound(dialer: D.Dialer)

  /// `apply`: the dialer-select path for a dialer, the listener-select
  /// path for every other endpoint, each over `protocol_info()` and the
  /// socket's channel.
  function ApplyNegotiation(cp: ConnectedPoint, infos: seq<Utf8>, chan: MessageChannel.Channel): (n: Negotiation)
    ensures cp.DialerPoint? <==> n.Outbound?
    ensures n.Outbound? ==> n.dialer == D.Dialer(infos, D.Initial, chan)
    ensures n.Inbound? ==> n.listener == L.Listener(L.Supported(infos), L.RecvMessage, chan)
  {
    match cp
    case DialerPoint(_) => Outbound(D.Dialer(infos, D.Initial, chan))
    case _ => Inbound(L.Listener(L.Supported(infos), L.RecvMessage, chan))
  }

  predicate Running(n: Negotiation)
  {
    match n
    case Inbound(l) => !l.state.Done?
    case Outbound(d) => !d.state.Done?
  }

  /// One poll of the negotiation future.
  function PollNegotiation(n: Negotiation): (r: (Poll<Result<(Utf8, NegotiatedState), NegotiationError>>, Negotiation))
    requires Running(n)
    ensures r.0.Pending? ==> Running(r.1)
    ensures n.Inbound? <==> r.1.Inbound?
  {
    match n
    case Inbound(l) => var (o, l') := L.ListenerPoll(l); (o, Inbound(l'))
    case Outbound(d) => var (o, d') := D.DialerPoll(d); (o, Outbound(d'))
  }

  /// The upgrade future, as the script of what its successive polls give;
  /// an exhausted script stays pending.
  type UpgradeFuture<O, E> = seq<Poll<Result<O, E>>>

  datatype ApplyState<O, E> =
    | Init(negotiation: Negotiation)
    | Upgrading(future: UpgradeFuture<O, E>, name: Utf8)
    | Undefined

  predicate Pollable<O, E>(s: ApplyState<O, E>)
  {
    s.Init? ==> Running(s.negotiation)
  }

  /// One poll of the upgrade future.
  function PollUpgrade<O, E>(f: UpgradeFuture<O, E>): (Poll<Result<O, E>>, UpgradeFuture<O, E>)
  {
    if f == [] then (Pending, []) else (f[0], f[1..])
  }

  /// The Upgrade arm: pending keeps the upgrade, a result ends the future,
  /// a failure as UpgradeError::Apply.
  function UpgradeArm<O, E>(f: UpgradeFuture<O, E>, name: Utf8): (r: (Poll<Result<O, UpgradeError<E>>>, ApplyState<O, E>))
    ensures r.0.Pending? <==> r.1.Upgrading?
    ensures r.0.Pending? ==> r.1.name == name
    ensures r.0.Ready? ==> r.1 == Undefined
    ensures var (p, _) := PollUpgrade(f);
            (p.Ready? && p.value.Ok? ==> r.0 == Ready(Ok(p.value.value)))
            && (p.Ready? && p.value.Err? ==> r.0 == Ready(Err(Apply(p.value.error))))
  {
    var (p, rest) := PollUpgrade(f);
    match p
    case Pending => (Pending, Upgrading(rest, name))
    case Ready(Ok(x)) => (Ready(Ok(x)), Undefined)
    case Ready(Err(e)) => (Ready(Err(Apply(e))), Undefined)
  }

  /// `InboundUpgradeApply::poll` and `OutboundUpgradeApply::poll`: the
  /// negotiation first (its errors as UpgradeError::Select), then the
  /// upgrade for the negotiated info, which is also the recorded name.
  function ApplyPoll<O, E>(s: ApplyState<O, E>, upgrade: Utf8 -> UpgradeFuture<O, E>)
    : (r: (Poll<Result<O, UpgradeError<E>>>, ApplyState<O, E>))
    requires !s.Undefined? && Pollable(s)
    ensures r.0.Pending? ==> !r.1.Undefined? && Pollable(r.1)
    ensures r.0.Ready? ==> r.1 == Undefined
    ensures s.Init? && PollNegotiation(s.negotiation).0.Pending? ==>
              r == (Pending, Init(PollNegotiation(s.negotiation).1))
    ensures s.Init? && PollNegotiation(s.negotiation).0.Ready? && PollNegotiation(s.negotiation).0.value.Err? ==>
              r == (Ready(Err(Select(PollNegotiation(s.negotiation).0.value.error))), Undefined)
    ensures s.Init? && PollNegotiation(s.negotiation).0.Ready? && PollNegotiation(s.negotiation).0.value.Ok? ==>
              var info := PollNegotiation(s.negotiation).0.value.value.0;
              r == UpgradeArm(upgrade(info), info)
  {
    match s
    case Init(n) =>
      var (o, n') := PollNegotiation(n);
      if o.Pending? then (Pending, Init(n'))
      else if o.value.Err? then (Ready(Err(Select(o.value.error))), Undefined)
      else
        var info := o.value.value.0;
        UpgradeArm(upgrade(info), info)
    case Upgrading(f, name) => UpgradeArm(f, name)
  }

  /// A future returned by `apply` (either direction; the two differ only
  /// in the negotiation they start with).
  class UpgradeApply<O, E> {
    var state: ApplyState<O, E>
    const upgrade: Utf8 -> UpgradeFuture<O, E>

    /// `apply`, with `upgrade(info)` standing for
    /// `upgrade.upgrade_inbound(io, info)` / `upgrade_outbound`.
    constructor (cp: ConnectedPoint, infos: seq<Utf8>, chan: MessageChannel.Channel, upgrade: Utf8 -> UpgradeFuture<O, E>)
      ensures state == Init(ApplyNegotiation(cp, infos, chan)) && this.upgrade == upgrade
    {
      state := Init(ApplyNegotiation(cp, infos, chan));
      this.upgrade := upgrade;
    }

    /// `Future::poll`; polling after completion (Undefined) panics.
    method Poll() returns (out: Poll<Result<O, UpgradeError<E>>>)
      requires !state.Undefined? && Pollable(state)
      modifies this
      ensures (out, state) == ApplyPoll(old(state), upgrade)
    {
      while true
        invariant !state.Undefined? && Pollable(state)
        invariant ApplyPoll(state, upgrade) == ApplyPoll(old(state), upgrade)
        decreases if state.Init? then 1 else 0
      {
        var current := state;
        state := Undefined;
        match current
        case Init(n) =>
          var (o, n') := PollNegotiation(n);
          if o.Pending? {
            state := Init(n');
            return Pending;
          }
          if o.value.Err? {
            return Ready(Err(Select(o.value.error)));
          }
          var info := o.value.value.0;
          state := Upgrading(upgrade(info), info);
        case Upgrading(f, name) =>
          var (p, rest) := PollUpgrade(f);
          if p.Pending? {
            state := Upgrading(rest, name);
            return Pending;
          }
          if p.value.Ok? {
            return Ready(Ok(p.value.value));
          }
          return Ready(Err(Apply(p.value.error)));
      }
    }
  }
}
