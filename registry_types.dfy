// The shared vocabulary of the service registry (protocols/volans-registry/
// src/lib.rs): what a node announces about itself, the events a registry
// and its discovery watch report, and their errors. The registry backend
// itself (mDNS) is not part of this model: what it answers is an input
// wherever the behaviours ask it.
module RegistryTypes {
  import opened Time
  import Identity
  import Multiaddrs
  import MultiaddrProtocol

  /// `ServiceInfo`: a node's name, identity, listen addresses, metadata
  /// and time to live.
  datatype ServiceInfo = ServiceInfo(
    name: string,
    peerId: Identity.PeerId,
    addresses: seq<Multiaddrs.Multiaddr>,
    metadata: map<string, string>,
    ttl: Duration)

  /// `RegisterEvent`.
  datatype RegisterEvent = Registered(info: ServiceInfo) | Deregistered(peer: Identity.PeerId)

  /// `DiscoveryEvent`.
  datatype DiscoveryEvent = Discovered(info: ServiceInfo) | Expired(info: ServiceInfo)

  /// `RegistryError`; the boxed error of `Other` is kept as its text.
  datatype RegistryError =
    | ServiceNotFound
    | PeerIdNotFound
    | InvalidPeerId(peerError: Identity.Error)
    | InvalidMultiaddr(addrError: MultiaddrProtocol.Error)
    | Closed
    | Other(message: string)

  /// `Config`: what a node announces besides its identity and addresses.
  datatype Config = Config(name: string, metadata: map<string, string>, ttl: Duration)

  /// `Config::default`: the name "volans", no metadata, a minute to live.
  function DefaultConfig(): (c: Config)
    ensures c.name == "volans" && c.metadata == map[] && c.ttl == 60 * NANOS_PER_SEC
  {
    Config("volans", map[], Secs(60))
  }
}
