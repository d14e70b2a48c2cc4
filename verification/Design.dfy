/** The inputs of a build: the network design, the network, the links, and what the API server holds. */
module Design {
  import opened Options
  import opened Names
  import opened ConfigTree

  const VXLAN_ITF := "vxlan0"
  const IRB_ITF := "irb0"
  const SYSTEM_ITF := "system0"
  const UNDERLAY := "underlay"
  const OVERLAY := "overlay"
  const DEFAULT_NETWORK := "default"
  const DEFAULT_IGP_INSTANCE := "i1"

  datatype Addressing = DualStack | IPv4Numbered | IPv6Numbered | IPv6Unnumbered | IPv4Unnumbered

  /** The five numeric BFD parameters, in the order the link override visits them. */
  datatype Timers = Timers(minEchoRx: Option<nat>, minRx: Option<nat>, minTx: Option<nat>,
                           multiplier: Option<nat>, ttl: Option<nat>)

  const NO_TIMERS := Timers(None, None, None, None, None)

  datatype OspfDesign = OspfDesign(instance: Option<string>, version: string, area: string, maxEcmp: Option<nat>,
                                   bfd: bool)
  datatype IsisDesign = IsisDesign(instance: Option<string>, level: string, areas: seq<string>, maxEcmp: Option<nat>,
                                   bfd: bool)
  datatype IbgpDesign = IbgpDesign(asn: Option<nat>, routeReflectors: seq<string>)
  datatype EbgpDesign = EbgpDesign(asPool: Option<string>, bfd: bool)

  /** The address-family and prefix lists derived from the design are taken as given. */
  datatype NetworkDesign = NetworkDesign(
    loopback: Option<Addressing>, underlay: Option<Addressing>, underlayBfd: Option<Timers>,
    ospf: Option<OspfDesign>, isis: Option<IsisDesign>, ibgp: Option<IbgpDesign>, ebgp: Option<EbgpDesign>,
    bgpEvpn: bool, vxlan: bool,
    underlayFamilies: seq<Family>, overlayFamilies: seq<Family>, allFamilies: seq<Family>,
    igpFamilies: seq<string>, prefixes4: seq<string>, prefixes6: seq<string>)
  {
    predicate LoopbackV4() {
      loopback.Some? && (loopback.value.DualStack? || loopback.value.IPv4Numbered?)
    }

    predicate LoopbackV6() {
      loopback.Some? && (loopback.value.DualStack? || loopback.value.IPv6Numbered?)
    }

    predicate V4Numbered() {
      underlay.Some? && (underlay.value.DualStack? || underlay.value.IPv4Numbered?)
    }

    predicate V6Numbered() {
      underlay.Some? && (underlay.value.DualStack? || underlay.value.IPv6Numbered?)
    }

    predicate V4Unnumbered() {
      underlay.Some? && underlay.value.IPv4Unnumbered?
    }

    predicate V6Unnumbered() {
      underlay.Some? && underlay.value.IPv6Unnumbered?
    }

    predicate V4Enabled() {
      V4Numbered() || V4Unnumbered()
    }

    predicate V6Enabled() {
      V6Numbered() || V6Unnumbered()
    }

    predicate BfdEnabled() {
      (isis.Some? && isis.value.bfd) || (ospf.Some? && ospf.value.bfd) || (ebgp.Some? && ebgp.value.bfd)
    }

    function IbgpAs(): nat {
      if ibgp.Some? then ibgp.value.asn.GetOr(0) else 0
    }

    /** GetUnderlayBFDParameters: the design's own record, or a fresh empty one on every call. */
    function BfdTimers(): Timers {
      underlayBfd.GetOr(NO_TIMERS)
    }
  }

  /** A node identifier: its KuidString and its node name. */
  datatype NodeId = NodeId(kuid: string, node: string)

  datatype BfdOverride = BfdOverride(enabled: Option<bool>, timers: Timers)

  /** The protocol section of a link. */
  datatype LinkProtocols = LinkProtocols(
    bfd: Option<BfdOverride>,
    ospfArea: Option<string>, ospfPassive: Option<bool>, ospfType: Option<string>, ospfBfd: Option<bool>,
    isisPassive: bool, isisType: Option<string>, isisBfd: Option<bool>, isisLevel: string, isisMetric: nat,
    bgpBfd: Option<bool>)

  datatype End = End(id: NodeId, ep: string)

  /** A link of the inventory with its two endpoints; GetLinks has already kept the "infra" links. */
  datatype Link = Link(a: End, b: End, protocols: LinkProtocols) {
    function E(i: bool): End {
      if i then b else a
    }

    function Node(i: bool): string {
      E(i).id.node
    }

    function Ep(i: bool): string {
      E(i).ep
    }
  }

  datatype InventoryNode = InventoryNode(provider: string, systemId: Option<string>, deviceType: Option<string>)
  datatype InventoryEndpoint = InventoryEndpoint(provider: string, endpoint: string)

  /** An IP or AS claim as the lookup sees it: its Ready condition and the value in its status. */
  datatype Claim<T> = Claim(ready: bool, value: Option<T>)

  /**
   What the API server holds. Nodes are stored under the topology and the node's KuidString; endpoints under the
   topology, the node's KuidString and the endpoint name, kept here as a pair. `parses`, `addressOf` and `isV4`
   stand for the IP library.
   */
  datatype Api = Api(nodes: map<string, InventoryNode>, endpoints: map<(string, string), InventoryEndpoint>,
                     ipClaims: map<string, Claim<string>>, asClaims: map<string, Claim<nat>>,
                     parses: string -> bool, addressOf: string -> string, isV4: string -> bool)

  /** getIPClaim and getASClaim: absent, not ready and without a value are all errors. */
  function Lookup<T>(claims: map<string, Claim<T>>, name: string): Option<T> {
    if name in claims && claims[name].ready then claims[name].value else None
  }

  datatype Inputs = Inputs(netName: string, topology: string, design: NetworkDesign, api: Api) {
    /** GetNetworkName: the part of the network's name after its last dot. */
    function Ni(): string {
      LastPart(netName)
    }

    function Ip(name: string): Option<string> {
      Lookup(api.ipClaims, name)
    }

    function Asn(name: string): Option<nat> {
      Lookup(api.asClaims, name)
    }

    function NodeClaim(node: string): string {
      Dotted(netName, node)
    }

    function LoopbackClaim(node: string, v4: bool): string {
      Dotted(NodeClaim(node), if v4 then "ipv4" else "ipv6")
    }

    function RouterIdClaim(node: string): string {
      Dotted(NodeClaim(node), "routerid")
    }

    function EndpointClaim(node: string, ep: string, v4: bool): string {
      Dotted(Dotted(NodeClaim(node), ep), if v4 then "ipv4" else "ipv6")
    }
  }
}
