// The behaviour that watches the registry for other nodes
// (protocols/volans-registry/src/discovery.rs): every node the watch
// reports is remembered with what it announced until it expires, and a
// dial to a remembered peer without an address uses the first address the
// peer announced. What the watch gives at each poll is an input.
module RegistryDiscovery {
  import opened Wrappers
  import opened Identity
  import opened Multiaddrs
  import opened SwarmConnection
  import opened SwarmError
  import opened SwarmNotify
  import opened RegistryTypes

  /// `Event`.
  datatype Event = Discovered(info: ServiceInfo) | Expired(info: ServiceInfo) | RegistryError(error: RegistryError)

  /// What the behaviour emits; its handler takes no actions.
  type DiscoveryOut = BehaviorEvent<Event, ()>

  /// The address a dial without one uses: the first the peer announced.
  function FirstAddress(info: ServiceInfo): (r: Option<Multiaddr>)
    ensures r.None? <==> info.addresses == []
    ensures r.Some? ==> r.value == info.addresses[0]
  {
    if info.addresses == [] then None else Some(info.addresses[0])
  }

  /// `Behavior`.
  class Behavior {
    /// `discovered`: what each peer the watch reported announced.
    var discovered: map<PeerId, ServiceInfo>

    /// `Behavior::default`: nobody discovered yet.
    constructor()
      ensures discovered == map[]
    {
      discovered := map[];
    }

    /// `poll`: a discovered node is remembered, replacing what it
    /// announced before; an expired one is forgotten; either is reported,
    /// and so is an error of the watch, which changes nothing.
    method Poll(watch: Poll<Result<DiscoveryEvent, RegistryError>>) returns (r: Poll<DiscoveryOut>)
      modifies this
      ensures watch.Pending? ==> r.Pending? && discovered == old(discovered)
      ensures watch.Ready? && watch.value.Err? ==>
                r == Ready(BehaviorOut(Event.RegistryError(watch.value.error))) && discovered == old(discovered)
      ensures watch.Ready? && watch.value.Ok? && watch.value.value.Discovered? ==>
                var info := watch.value.value.info;
                r == Ready(BehaviorOut(Event.Discovered(info))) && discovered == old(discovered)[info.peerId := info]
      ensures watch.Ready? && watch.value.Ok? && watch.value.value.Expired? ==>
                var info := watch.value.value.info;
                r == Ready(BehaviorOut(Event.Expired(info))) && discovered == old(discovered) - {info.peerId}
    {
      if watch.Pending? {
        return Pending;
      }
      if watch.value.Err? {
        return Ready(BehaviorOut(Event.RegistryError(watch.value.error)));
      }
      var ev := watch.value.value;
      if ev.Discovered? {
        discovered := discovered[ev.info.peerId := ev.info];
        return Ready(BehaviorOut(Event.Discovered(ev.info)));
      }
      discovered := discovered - {ev.info.peerId};
      return Ready(BehaviorOut(Event.Expired(ev.info)));
    }

    /// `handle_pending_connection`: a dial that names an address keeps
    /// it; one to a discovered peer uses the peer's first announced
    /// address (none if it announced none); any other goes on without an
    /// address. It never refuses a dial.
    method HandlePendingConnection(id: ConnectionId, maybePeer: Option<PeerId>, addr: Option<Multiaddr>)
      returns (r: Result<Option<Multiaddr>, ConnectionDenied>)
      ensures r.Ok?
      ensures addr.Some? ==> r.value == addr
      ensures addr.None? && maybePeer.Some? && maybePeer.value in discovered ==>
                r.value == FirstAddress(discovered[maybePeer.value])
      ensures addr.None? && (maybePeer.None? || maybePeer.value !in discovered) ==> r.value.None?
    {
      if addr.Some? {
        return Ok(addr);
      }
      if maybePeer.Some? && maybePeer.value in discovered {
        var info := discovered[maybePeer.value];
        return Ok(FirstAddress(info));
      }
      return Ok(None);
    }
  }

  /// A discovered peer can be dialled by identity alone, at the first
  /// address it announced, until it expires; after that it cannot.
  method DialDiscoveredPeer(b: Behavior, info: ServiceInfo, id: ConnectionId, a: Multiaddr)
    returns (before: Result<Option<Multiaddr>, ConnectionDenied>, after: Result<Option<Multiaddr>, ConnectionDenied>)
    modifies b
    ensures before == Ok(Some(a)) <== info.addresses != [] && info.addresses[0] == a
    ensures after == Ok(None)
    ensures b.discovered == old(b.discovered) - {info.peerId}
  {
    var _ := b.Poll(Ready(Ok(DiscoveryEvent.Discovered(info))));
    before := b.HandlePendingConnection(id, Some(info.peerId), None);
    var _ := b.Poll(Ready(Ok(DiscoveryEvent.Expired(info))));
    after := b.HandlePendingConnection(id, Some(info.peerId), None);
  }
}
