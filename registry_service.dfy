// The behaviour that announces this node in the registry
// (protocols/volans-registry/src/registry.rs): whenever the set of listen
// addresses changes, the node's network-reachable addresses are queued for
// registration; a registration that fails is kept and tried again once a
// ten-second delay has passed. The registry backend and the delay's timer
// are outside the model: what `register` answers, whether the delay has
// fired and what the registry reports are inputs of each poll.
module RegistryService {
  import opened Wrappers
  import opened Time
  import opened Identity
  import opened Multiaddrs
  import opened MultiaddrProtocol
  import opened SwarmListener
  import opened SwarmNotify
  import opened RegistryTypes

  /// How long a failed registration waits before it is tried again.
  const RETRY_DELAY: Duration := Secs(10)

  /// `Event`.
  datatype Event = Registered(info: ServiceInfo) | Deregistered(peer: PeerId) | RegistryError(error: RegistryError)

  /// What the behaviour emits; its handler takes no actions.
  type RegistryOut = BehaviorEvent<Event, ()>

  /// The components an address reachable over the network starts with.
  predicate NetworkProtocol(p: Protocol)
  {
    p.Ip4? || p.Ip6? || p.Dns? || p.Dns4? || p.Dns6?
  }

  /// `is_network_address`: the first component the address yields is an
  /// IP address or a DNS name; an empty address is not one.
  function IsNetworkAddress(addr: Multiaddr): (r: bool)
    requires Valid(addr)
    ensures r <==> Components(addr) != [] && NetworkProtocol(Components(addr)[0])
  {
    match IterNext(addr.bytes)
    case None => false
    case Some(first) => NetworkProtocol(first.0)
  }

  /// An address made from an IP address is a network address.
  lemma FromIpAddrIsNetworkAddress(ip: IpAddr)
    ensures IsNetworkAddress(FromIpAddr(ip))
  {
    var m := FromIpAddr(ip);
    assert Components(m)[0] == FromIp(ip);
  }

  /// Appending a component to a non-empty address does not change
  /// whether it is a network address: only the first component counts.
  lemma PushKeepsNetworkAddress(m: Multiaddr, p: Protocol)
    requires Valid(m) && WellSized(p) && Components(m) != []
    ensures Valid(Push(m, p)) && (IsNetworkAddress(Push(m, p)) <==> IsNetworkAddress(m))
  {
    PushComponents(m, p);
    assert Components(Push(m, p))[0] == Components(m)[0];
  }

  /// The network addresses among some addresses, in their order: the
  /// `filter` and `collect` of `on_listener_event`.
  function NetworkAddresses(s: seq<Multiaddr>): (r: seq<Multiaddr>)
    requires forall i :: 0 <= i < |s| ==> Valid(s[i])
    ensures |r| <= |s|
    ensures forall a :: a in r <==> a in s && IsNetworkAddress(a)
  {
    if s == [] then []
    else
      var last := s[|s| - 1];
      assert forall a :: a in s <==> a in s[..|s| - 1] || a == last;
      NetworkAddresses(s[..|s| - 1]) + (if IsNetworkAddress(last) then [last] else [])
  }

  /// The network addresses of a set of listen addresses, each once, in
  /// the order the set is walked; none exactly when no address in the set
  /// is one.
  method Announced(addresses: set<Multiaddr>) returns (r: seq<Multiaddr>)
    requires forall a :: a in addresses ==> Valid(a)
    ensures forall a :: a in r <==> a in addresses && IsNetworkAddress(a)
    ensures |r| <= |addresses|
    ensures r == [] <==> forall a :: a in addresses ==> !IsNetworkAddress(a)
  {
    var all := Enumerate(addresses);
    assert forall i :: 0 <= i < |all| ==> all[i] in addresses;
    r := NetworkAddresses(all);
    if r != [] {
      assert r[0] in r;
    }
  }

  /// What the registry's own report becomes.
  function Reported(next: Poll<Result<RegisterEvent, RegistryError>>): (r: Poll<RegistryOut>)
    ensures next.Pending? <==> r.Pending?
    ensures next.Ready? && next.value.Err? ==> r == Ready(BehaviorOut(Event.RegistryError(next.value.error)))
    ensures next.Ready? && next.value.Ok? && next.value.value.Registered? ==>
              r == Ready(BehaviorOut(Event.Registered(next.value.value.info)))
    ensures next.Ready? && next.value.Ok? && next.value.value.Deregistered? ==>
              r == Ready(BehaviorOut(Event.Deregistered(next.value.value.peer)))
  {
    if next.Pending? then Pending
    else if next.value.Err? then Ready(BehaviorOut(Event.RegistryError(next.value.error)))
    else if next.value.value.Registered? then Ready(BehaviorOut(Event.Registered(next.value.value.info)))
    else Ready(BehaviorOut(Event.Deregistered(next.value.value.peer)))
  }

  /// `Behavior`.
  class Behavior {
    const localPeer: PeerId
    /// `listen_addresses`: this node's current listen addresses.
    var listenAddresses: set<Multiaddr>
    /// `pending_register`: the announcement still to be registered.
    var pendingRegister: Option<ServiceInfo>
    var config: Config
    /// `retry_delay`: the delay armed after a failed registration.
    var retryDelay: Option<Duration>
    /// The announcements handed to the registry's `register`, in order.
    var registered: seq<ServiceInfo>

    /// Listen addresses are well formed, and an armed delay is the
    /// retry delay.
    ghost predicate Valid()
      reads this
    {
      && (forall a :: a in listenAddresses ==> Multiaddrs.Valid(a))
      && (retryDelay.Some? ==> retryDelay.value == RETRY_DELAY)
    }

    /// `Behavior::new`: no addresses, nothing to register, no delay.
    constructor(localPeer: PeerId, config: Config)
      ensures Valid()
      ensures this.localPeer == localPeer && this.config == config
      ensures listenAddresses == {} && pendingRegister.None? && retryDelay.None? && registered == []
    {
      this.localPeer := localPeer;
      this.config := config;
      listenAddresses := {};
      pendingRegister := None;
      retryDelay := None;
      registered := [];
    }

    /// `on_listener_event`: when the event changes the listen addresses
    /// and some of them are network addresses, an announcement of exactly
    /// those, each once, replaces whatever was waiting to be registered.
    /// Otherwise what was waiting stays.
    method OnListenerEvent<X>(event: SwarmListenerEvent<Multiaddr, X>)
      requires Valid()
      requires event.NewListenAddr? ==> Multiaddrs.Valid(event.addr)
      modifies this
      ensures Valid()
      ensures listenAddresses == AddressesAfter(old(listenAddresses), event).0
      ensures config == old(config) && retryDelay == old(retryDelay) && registered == old(registered)
      ensures !AddressesAfter(old(listenAddresses), event).1 || (forall a :: a in listenAddresses ==> !IsNetworkAddress(a)) ==>
                pendingRegister == old(pendingRegister)
      ensures AddressesAfter(old(listenAddresses), event).1 && (exists a :: a in listenAddresses && IsNetworkAddress(a)) ==>
                && pendingRegister.Some?
                && var info := pendingRegister.value;
                && info.name == config.name && info.peerId == localPeer
                && info.metadata == config.metadata && info.ttl == config.ttl
                && (forall a :: a in info.addresses <==> a in listenAddresses && IsNetworkAddress(a))
                && |info.addresses| <= |listenAddresses|
    {
      var after := AddressesAfter(listenAddresses, event);
      listenAddresses := after.0;
      if after.1 {
        var address := Announced(listenAddresses);
        if address == [] {
          return;
        }
        pendingRegister := Some(ServiceInfo(config.name, localPeer, address, config.metadata, config.ttl));
      }
    }

    /// `poll`: with no delay armed, a waiting announcement is handed to
    /// the registry; if that fails the announcement is kept, the delay is
    /// armed and the error reported. An armed delay that has not fired
    /// stops the poll; one that has fired is disarmed. Then whatever the
    /// registry reports is passed on.
    method Poll(registerResult: Result<(), RegistryError>, delayFired: bool, next: Poll<Result<RegisterEvent, RegistryError>>)
      returns (r: Poll<RegistryOut>)
      requires Valid()
      modifies this
      ensures Valid()
      ensures listenAddresses == old(listenAddresses) && config == old(config)
      ensures var attempted := old(retryDelay).None? && old(pendingRegister).Some?;
              registered == old(registered) + (if attempted then [old(pendingRegister).value] else [])
      ensures old(retryDelay).None? && old(pendingRegister).Some? && registerResult.Err? ==>
                && r == Ready(BehaviorOut(Event.RegistryError(registerResult.error)))
                && pendingRegister == old(pendingRegister) && retryDelay == Some(RETRY_DELAY)
      ensures old(retryDelay).None? && (old(pendingRegister).None? || registerResult.Ok?) ==>
                pendingRegister.None? && retryDelay.None? && r == Reported(next)
      ensures old(retryDelay).Some? ==>
                && pendingRegister == old(pendingRegister)
                && (!delayFired ==> r.Pending? && retryDelay == old(retryDelay))
                && (delayFired ==> retryDelay.None? && r == Reported(next))
    {
      if retryDelay.None? && pendingRegister.Some? {
        var info := pendingRegister.value;
        pendingRegister := None;
        registered := registered + [info];
        if registerResult.Err? {
          pendingRegister := Some(info);
          retryDelay := Some(RETRY_DELAY);
          return Ready(BehaviorOut(Event.RegistryError(registerResult.error)));
        }
      }
      if retryDelay.Some? {
        if delayFired {
          retryDelay := None;
        } else {
          return Pending;
        }
      }
      return Reported(next);
    }
  }

  /// A failed registration is tried again, and only once its delay has
  /// fired: the poll that sees the delay fire disarms it, and the next
  /// poll registers the same announcement.
  method RetryAfterDelay(b: Behavior, info: ServiceInfo, e: RegistryError)
    returns (failed: Poll<RegistryOut>, waiting: Poll<RegistryOut>)
    requires b.Valid() && b.pendingRegister == Some(info) && b.retryDelay.None?
    modifies b
    ensures failed == Ready(BehaviorOut(Event.RegistryError(e)))
    ensures waiting.Pending?
    ensures b.registered == old(b.registered) + [info, info]
    ensures b.pendingRegister.None? && b.retryDelay.None?
  {
    failed := b.Poll(Err(e), false, Pending);
    waiting := b.Poll(Ok(()), false, Pending);
    var _ := b.Poll(Ok(()), true, Pending);
    assert b.registered == old(b.registered) + [info];
    var _ := b.Poll(Ok(()), false, Pending);
  }
}
