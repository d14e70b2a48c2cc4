/**
 What BuildUnderlay does for one link, one node and one route reflector (pkg/devbuilder/builder.go and
 link.go), as logs of patches, and the log of a whole build.
 */
module Underlay {
  import opened Options
  import opened Names
  import opened ConfigTree
  import opened Design

  /** The node record of pkg/devbuilder/node.go. */
  datatype Node = Node(id: NodeId, provider: string, systemId: string, ipv4: string, ipv6: string,
                       routerId: string, asn: nat, edge: bool)

  type Nodes = map<string, Node>

  /** gatherNodeInfo: an error, a node without device type (never added to the map), or a node. */
  datatype Gathered = Missing | Unlabelled | Found(node: Node)

  datatype Outcome = Ok | Err | Panic

  function GatherNode(x: Inputs, id: NodeId): Gathered {
    var d, n := x.design, id.node;
    var key := Dotted(x.topology, id.kuid);
    if key !in x.api.nodes || x.api.nodes[key].systemId.None? then Missing
    else
      var inv := x.api.nodes[key];
      var v4, v6 := x.Ip(x.LoopbackClaim(n, true)), x.Ip(x.LoopbackClaim(n, false));
      var rid := if d.LoopbackV4() then v4 else x.Ip(x.RouterIdClaim(n));
      if rid.None? || (d.LoopbackV6() && v6.None?) || (d.ebgp.Some? && x.Asn(x.NodeClaim(n)).None?) then Missing
      else if inv.deviceType.None? then Unlabelled
      else Found(Node(id, inv.provider, inv.systemId.value,
                      if d.LoopbackV4() then v4.value else "",
                      if d.LoopbackV6() then v6.value else "",
                      x.api.addressOf(rid.value),
                      if d.ebgp.Some? then x.Asn(x.NodeClaim(n)).value else d.IbgpAs(),
                      inv.deviceType.value == "edge" || inv.deviceType.value == "pe"))
  }

  function AddEnd(x: Inputs, ns: Nodes, id: NodeId): Nodes {
    if id.node in ns then ns
    else match GatherNode(x, id)
         case Found(node) => ns[id.node := node]
         case _ => ns
  }

  /** The claims a link end needs, when the design numbers the underlay or runs EBGP. */
  predicate EndClaimed(x: Inputs, e: End) {
    && (x.design.ebgp.Some? ==> x.Asn(x.NodeClaim(e.id.node)).Some?)
    && (x.design.V4Numbered() ==> x.Ip(x.EndpointClaim(e.id.node, e.ep, true)).Some?)
    && (x.design.V6Numbered() ==> x.Ip(x.EndpointClaim(e.id.node, e.ep, false)).Some?)
  }

  predicate EndGathers(x: Inputs, ns: Nodes, e: End) {
    (e.id.node in ns || !GatherNode(x, e.id).Missing?) && EndClaimed(x, e)
  }

  function AsOf(x: Inputs, node: string): nat {
    if x.design.ebgp.Some? then x.Asn(x.NodeClaim(node)).GetOr(0) else 0
  }

  function Numbered(x: Inputs, v4: bool): bool {
    if v4 then x.design.V4Numbered() else x.design.V6Numbered()
  }

  predicate LoopbackEnabled(x: Inputs, v4: bool) {
    if v4 then x.design.LoopbackV4() else x.design.LoopbackV6()
  }

  /** getIpv4 and getIpv6 of a gathered link: empty unless the family is numbered. */
  function IpOf(x: Inputs, e: End, v4: bool): string {
    if Numbered(x, v4) then x.Ip(x.EndpointClaim(e.id.node, e.ep, v4)).GetOr("") else ""
  }

  function AddressOf(x: Inputs, e: End, v4: bool): string {
    x.api.addressOf(IpOf(x, e, v4))
  }

  // ---------------------------------------------------------------- BFD timers

  function OverrideTimer(t: Option<nat>, o: Option<nat>): Option<nat> {
    if o.Some? then o else t
  }

  /** An override of a timer the design leaves nil dereferences nil. */
  predicate Overridable(t: Timers, o: Timers) {
    && (o.minEchoRx.Some? ==> t.minEchoRx.Some?) && (o.minRx.Some? ==> t.minRx.Some?)
    && (o.minTx.Some? ==> t.minTx.Some?) && (o.multiplier.Some? ==> t.multiplier.Some?)
    && (o.ttl.Some? ==> t.ttl.Some?)
  }

  function Overridden(t: Timers, o: Timers): Timers {
    Timers(OverrideTimer(t.minEchoRx, o.minEchoRx), OverrideTimer(t.minRx, o.minRx), OverrideTimer(t.minTx, o.minTx),
           OverrideTimer(t.multiplier, o.multiplier), OverrideTimer(t.ttl, o.ttl))
  }

  function LinkTimers(l: Link): Timers {
    if l.protocols.bfd.Some? then l.protocols.bfd.value.timers else NO_TIMERS
  }

  function BfdOn(x: Inputs, l: Link): bool {
    x.design.BfdEnabled() && (l.protocols.bfd.None? || l.protocols.bfd.value.enabled.GetOr(true))
  }

  function TimersAfter(x: Inputs, t: Timers, l: Link): Timers {
    if x.design.BfdEnabled() then Overridden(t, LinkTimers(l)) else t
  }

  // ---------------------------------------------------------------- base configuration of a node

  const SYSTEM_SUB := Sub(SYSTEM_ITF, 0)

  function OneOrNone(s: string): seq<string> {
    if s != "" then [s] else []
  }

  function BaseLog(x: Inputs, n: string, v: Node): Log {
    BaseHead(n, v) + BaseInstance(x, n) + BaseOspf(x, n, v) + BaseIsis(x, n, v) + BaseBgp(x, n, v)
  }

  function BaseHead(n: string, v: Node): Log {
    [AddProvider(n, v.provider),
     AddInterface(n, IRB_ITF),
     AddInterface(n, SYSTEM_ITF),
     AddSubInterface(n, SYSTEM_SUB, VSub("", "", None, Some(OneOrNone(v.ipv4)), Some(OneOrNone(v.ipv6))))]
  }

  function BaseInstance(x: Inputs, n: string): Log {
    (if x.design.vxlan then [AddTunnelInterface(n, VXLAN_ITF)] else [])
    + [AddNetworkInstance(n, x.Ni(), "default"), AddInstanceItf(n, x.Ni(), SYSTEM_SUB)]
  }

  function OspfInstance(o: OspfDesign): string {
    o.instance.GetOr(DEFAULT_IGP_INSTANCE)
  }

  function BaseOspf(x: Inputs, n: string, v: Node): Log {
    match x.design.ospf
    case None => []
    case Some(o) =>
      [AddOspfInstance(n, x.Ni(), OspfInstance(o), VOspf(o.version, v.routerId, o.maxEcmp.GetOr(1))),
       AddOspfArea(n, x.Ni(), OspfInstance(o), o.area),
       AddOspfItf(n, x.Ni(), OspfInstance(o), o.area, SYSTEM_SUB, VOspfItf("unknown", true, false))]
  }

  function IsisInstance(o: IsisDesign): string {
    o.instance.GetOr(DEFAULT_IGP_INSTANCE)
  }

  function BaseIsis(x: Inputs, n: string, v: Node): Log {
    match x.design.isis
    case None => []
    case Some(o) =>
      [AddIsisInstance(n, x.Ni(), IsisInstance(o),
                       VIsis(o.level, o.areas, v.systemId, o.maxEcmp.GetOr(1), x.design.igpFamilies)),
       AddIsisItf(n, x.Ni(), IsisInstance(o), SYSTEM_SUB, VIsisItf(None, None, "unknown", true, None, None))]
  }

  function BaseBgp(x: Inputs, n: string, v: Node): Log {
    if x.design.ibgp.None? && x.design.ebgp.None? then []
    else BgpSection(x, n, v) + EbgpSection(x, n) + IbgpSection(x, n) + VpnSection(x, n)
  }

  function BgpSection(x: Inputs, n: string, v: Node): Log {
    [AddBgpAs(n, x.Ni(), v.asn), AddBgpRouterId(n, x.Ni(), v.routerId)]
  }

  function EbgpSection(x: Inputs, n: string): Log {
    if x.design.ebgp.Some? then [AddRoutingPolicy(n, UNDERLAY, x.design.prefixes4, x.design.prefixes6)] else []
  }

  function IbgpSection(x: Inputs, n: string): Log {
    if x.design.ibgp.Some? then [AddRoutingPolicy(n, OVERLAY, [], []), AddBgpFamilies(n, x.Ni(), x.design.allFamilies)]
    else []
  }

  function VpnSection(x: Inputs, n: string): Log {
    if x.design.bgpEvpn then [AddSystemVpn(n)] else []
  }

  // ---------------------------------------------------------------- configuration of a link end

  function EpSub(l: Link, i: bool): Sub {
    Sub(l.Ep(i), 0)
  }

  /** getUnderlaySubInterface. */
  function UnderlaySub(x: Inputs, l: Link, i: bool): (v: Val)
    ensures v.VSub? && v.vlan.None?
  {
    var d := x.design;
    VSub(Dotted(l.Node(!i), l.Ep(!i)), "routed", None,
         if d.V4Numbered() then Some([IpOf(x, l.E(i), true)]) else if d.V4Unnumbered() then Some([]) else None,
         if d.V6Numbered() then Some([IpOf(x, l.E(i), false)]) else if d.V6Unnumbered() then Some([]) else None)
  }

  function ItfLog(x: Inputs, l: Link, i: bool): Log {
    ItfCore(x, l, i) + ItfProtocols(x, l, i)
  }

  function ItfCore(x: Inputs, l: Link, i: bool): Log {
    [AddInterface(l.Node(i), l.Ep(i)),
     AddSubInterface(l.Node(i), EpSub(l, i), UnderlaySub(x, l, i)),
     AddInstanceItf(l.Node(i), DEFAULT_NETWORK, EpSub(l, i))]
  }

  function ItfProtocols(x: Inputs, l: Link, i: bool): Log {
    ItfBfd(x, l, i) + ItfOspf(x, l, i) + ItfIsis(x, l, i) + ItfEbgp(x, l, i)
  }

  function ItfBfd(x: Inputs, l: Link, i: bool): Log {
    if BfdOn(x, l) then [AddBfdInterface(l.Node(i), EpSub(l, i))] else []
  }

  function ItfOspf(x: Inputs, l: Link, i: bool): Log {
    match x.design.ospf
    case None => []
    case Some(o) =>
      [AddOspfArea(l.Node(i), x.Ni(), OspfInstance(o), OspfAreaOf(o, l)),
       AddOspfItf(l.Node(i), x.Ni(), OspfInstance(o), OspfAreaOf(o, l), EpSub(l, i), OspfValue(o, l))]
  }

  function OspfAreaOf(o: OspfDesign, l: Link): string {
    l.protocols.ospfArea.GetOr(o.area)
  }

  function OspfValue(o: OspfDesign, l: Link): Val {
    var p := l.protocols;
    var passive := p.ospfPassive.GetOr(false);
    VOspfItf(if passive then "unknown" else p.ospfType.GetOr("pointToPoint"), passive, o.bfd && p.ospfBfd.GetOr(true))
  }

  function ItfIsis(x: Inputs, l: Link, i: bool): Log {
    match x.design.isis
    case None => []
    case Some(o) =>
      [AddIsisItf(l.Node(i), x.Ni(), IsisInstance(o), EpSub(l, i), IsisValue(x, o, l))]
  }

  /** A level's entry is made when the link excludes the level or has a metric. */
  function LevelOf(enabled: bool, disable: bool, metric: nat): Option<IsisLevel> {
    if enabled && (disable || metric != 0) then Some(IsisLevel(disable, metric, metric)) else None
  }

  /** getISISInterface. */
  function IsisValue(x: Inputs, o: IsisDesign, l: Link): (v: Val)
    ensures v.VIsisItf?
  {
    var p := l.protocols;
    var bfd := o.bfd && p.isisBfd.GetOr(true);
    VIsisItf(if x.design.V4Enabled() then Some(bfd) else None, if x.design.V6Enabled() then Some(bfd) else None,
             if p.isisPassive then "unknown" else p.isisType.GetOr("pointToPoint"), p.isisPassive,
             LevelOf(o.level == "L1" || o.level == "L1L2", p.isisLevel == "L2", p.isisMetric),
             LevelOf(o.level == "L2" || o.level == "L1L2", p.isisLevel == "L1", p.isisMetric))
  }

  function BgpBfd(x: Inputs, l: Link): bool {
    x.design.ebgp.Some? && x.design.ebgp.value.bfd && l.protocols.bgpBfd.GetOr(true)
  }

  /** The neighbor entry of end i: local address and AS of i, peer address and AS of the other end. */
  function EbgpNeighbor(x: Inputs, l: Link, i: bool, v4: bool): Patch {
    AddNeighbor(l.Node(i), x.Ni(), AddressOf(x, l.E(!i), v4),
                VNeighbor(AddressOf(x, l.E(i), v4), UNDERLAY, AsOf(x, l.Node(i)), AsOf(x, l.Node(!i)), BgpBfd(x, l)))
  }

  function EbgpDynamic(x: Inputs, l: Link, i: bool): Patch {
    AddDynNeighbor(l.Node(i), x.Ni(), EpSub(l, i), VDynNeighbor(AsOf(x, l.Node(!i)), UNDERLAY))
  }

  function EbgpGroup(x: Inputs, l: Link, i: bool): Patch {
    AddPeerGroup(l.Node(i), x.Ni(), UNDERLAY, VPeerGroup(x.design.underlayFamilies, None, BgpBfd(x, l)))
  }

  function ItfEbgp(x: Inputs, l: Link, i: bool): Log {
    var d := x.design;
    if d.ebgp.None? then []
    else
      (if d.V4Numbered() then [EbgpNeighbor(x, l, i, true)] else if d.V4Unnumbered() then [EbgpDynamic(x, l, i)]
       else [])
      + (if d.V6Numbered() then [EbgpNeighbor(x, l, i, false)] else if d.V6Unnumbered() then [EbgpDynamic(x, l, i)]
         else [])
      + [EbgpGroup(x, l, i)]
  }

  // ---------------------------------------------------------------- the loop over the links

  /** The nodes gathered from a list of links, in order. */
  function NodesOf(x: Inputs, links: seq<Link>): Nodes {
    if links == [] then map[]
    else
      var l := links[|links| - 1];
      AddEnd(x, AddEnd(x, NodesOf(x, links[..|links| - 1]), l.a.id), l.b.id)
  }

  /** The node names seen: nodeSet once every link succeeded. */
  function EndNodes(links: seq<Link>): set<string> {
    if links == [] then {}
    else EndNodes(links[..|links| - 1]) + {links[|links| - 1].Node(false), links[|links| - 1].Node(true)}
  }

  function TimersOf(x: Inputs, links: seq<Link>): Timers {
    if links == [] then x.design.BfdTimers()
    else TimersAfter(x, TimersOf(x, links[..|links| - 1]), links[|links| - 1])
  }

  /** A second override by the same link changes nothing: both ends of a link go through the same cells. */
  lemma OverrideAgain(t: Timers, o: Timers)
    ensures Overridable(t, o) ==>
              Overridable(Overridden(t, o), o) && Overridden(Overridden(t, o), o) == Overridden(t, o)
  {
  }

  /** Overriding never makes a nil timer set or a set one nil. */
  lemma StaysOverridable(t: Timers, o: Timers, p: Timers)
    requires Overridable(t, o)
    ensures Overridable(Overridden(t, o), p) <==> Overridable(t, p)
  {
  }

  lemma {:induction false} TimersStayOverridable(x: Inputs, links: seq<Link>, o: Timers)
    requires x.design.BfdEnabled() ==> forall l :: l in links ==> Overridable(x.design.BfdTimers(), LinkTimers(l))
    ensures Overridable(TimersOf(x, links), o) <==> Overridable(x.design.BfdTimers(), o)
  {
    hide Overridable, Overridden;
    if links != [] {
      var front, l := links[..|links| - 1], links[|links| - 1];
      TimersStayOverridable(x, front, o);
      TimersStayOverridable(x, front, LinkTimers(l));
      assert l in links;
      if x.design.BfdEnabled() {
        StaysOverridable(TimersOf(x, front), LinkTimers(l), o);
      }
    }
  }

  /** updateBaseDeviceConfig: base configuration of the ends whose node is not in `done`. */
  function BaseOf(x: Inputs, done: set<string>, ns: Nodes, l: Link): Log
    requires l.Node(false) in ns && l.Node(true) in ns
  {
    (if l.Node(false) in done then [] else BaseLog(x, l.Node(false), ns[l.Node(false)]))
    + (if l.Node(true) in done + {l.Node(false)} then [] else BaseLog(x, l.Node(true), ns[l.Node(true)]))
  }

  function LinkOutcome(x: Inputs, ns: Nodes, t: Timers, l: Link): Outcome {
    var ns1 := AddEnd(x, ns, l.a.id);
    var ns2 := AddEnd(x, ns1, l.b.id);
    if !EndGathers(x, ns, l.a) || !EndGathers(x, ns1, l.b) then Err
    else if l.Node(false) !in ns2 || l.Node(true) !in ns2 then Panic
    else if x.design.BfdEnabled() && !Overridable(t, LinkTimers(l)) then Panic
    else Ok
  }

  function LinksOutcome(x: Inputs, links: seq<Link>): Outcome {
    if links == [] then Ok
    else
      var front := links[..|links| - 1];
      if !LinksOutcome(x, front).Ok? then LinksOutcome(x, front)
      else LinkOutcome(x, NodesOf(x, front), TimersOf(x, front), links[|links| - 1])
  }

  /** Every end node of successfully processed links is in the nodes map. */
  lemma {:induction false} EndNodesGathered(x: Inputs, links: seq<Link>)
    requires LinksOutcome(x, links).Ok?
    ensures EndNodes(links) == NodesOf(x, links).Keys
  {
    if links != [] {
      EndNodesGathered(x, links[..|links| - 1]);
    }
  }

  function LinkLog(x: Inputs, links: seq<Link>): Log
    requires LinksOutcome(x, links).Ok?
  {
    if links == [] then []
    else
      var front, l := links[..|links| - 1], links[|links| - 1];
      LinkLog(x, front) + BaseOf(x, EndNodes(front), NodesOf(x, links), l) + ItfLog(x, l, false) + ItfLog(x, l, true)
  }

  // ---------------------------------------------------------------- the route-reflector mesh

  datatype Reflector = Reflector(ip: string, ipv4: bool)

  function ReflectorNames(x: Inputs): seq<string> {
    if x.design.ibgp.Some? then x.design.ibgp.value.routeReflectors else []
  }

  predicate ReflectorsResolve(x: Inputs) {
    forall r :: r in ReflectorNames(x) ==> x.Ip(r).Some?
  }

  /** gatherRRInfo. */
  function Reflectors(x: Inputs): map<string, Reflector>
    requires ReflectorsResolve(x)
  {
    map r | r in ReflectorNames(x) :: ReflectorOf(x, r)
  }

  function ReflectorOf(x: Inputs, r: string): Reflector {
    Reflector(x.api.addressOf(x.Ip(r).GetOr("")), x.api.isV4(x.Ip(r).GetOr("")))
  }

  function LoopbackOf(v: Node, ipv4: bool): string {
    if ipv4 then v.ipv4 else v.ipv6
  }

  /** The loopback address a node peers from. */
  function PeeringAddress(x: Inputs, v: Node, ipv4: bool): string {
    x.api.addressOf(LoopbackOf(v, ipv4))
  }

  function MeshNeighbor(x: Inputs, n: string, local: string, peer: string): Patch {
    AddNeighbor(n, x.Ni(), peer, VNeighbor(local, OVERLAY, x.design.IbgpAs(), x.design.IbgpAs(), false))
  }

  function EdgeGroup(x: Inputs, n: string): Patch {
    AddPeerGroup(n, x.Ni(), OVERLAY, VPeerGroup(x.design.overlayFamilies, None, false))
  }

  function EdgeNeighbor(x: Inputs, n: string, v: Node, rr: Reflector): Patch {
    MeshNeighbor(x, n, PeeringAddress(x, v, rr.ipv4), rr.ip)
  }

  function HostGroup(x: Inputs, n: string, rr: Reflector): Patch {
    AddPeerGroup(n, x.Ni(), OVERLAY, VPeerGroup(x.design.overlayFamilies, Some(rr.ip), false))
  }

  function HostNeighbor(x: Inputs, n: string, v: Node, rr: Reflector, edge: Node): Patch {
    MeshNeighbor(x, n, PeeringAddress(x, v, rr.ipv4), PeeringAddress(x, edge, rr.ipv4))
  }

  /** The reflector name is one of the node's loopback claims. */
  predicate Hosts(x: Inputs, n: string, r: string) {
    r == x.LoopbackClaim(n, true) || r == x.LoopbackClaim(n, false)
  }

  /** An edge without a loopback of the reflector's family: the prefix parsed from "" is nil and is dereferenced. */
  predicate EdgeStuck(ns: Nodes, rrs: map<string, Reflector>, n: string, r: string)
    requires n in ns && r in rrs
  {
    ns[n].edge && LoopbackOf(ns[n], rrs[r].ipv4) == ""
  }

  /** The same for the host of a reflector, once there is an edge to peer with. */
  predicate HostStuck(x: Inputs, ns: Nodes, rrs: map<string, Reflector>, n: string, r: string)
    requires n in ns && r in rrs
  {
    Hosts(x, n, r) && LoopbackOf(ns[n], rrs[r].ipv4) == "" && exists e :: e in ns && ns[e].edge
  }

  predicate MeshPanics(x: Inputs, ns: Nodes)
    requires ReflectorsResolve(x)
  {
    var rrs := Reflectors(x);
    exists n, r :: n in ns && r in rrs && (EdgeStuck(ns, rrs, n, r) || HostStuck(x, ns, rrs, n, r))
  }

  ghost predicate IsEdgePatch(x: Inputs, ns: Nodes, p: Patch) {
    ReflectorsResolve(x) &&
    exists n, r :: n in ns && ns[n].edge && r in Reflectors(x) &&
                   (p == EdgeGroup(x, n) || p == EdgeNeighbor(x, n, ns[n], Reflectors(x)[r]))
  }

  ghost predicate IsHostPatch(x: Inputs, ns: Nodes, p: Patch) {
    ReflectorsResolve(x) &&
    exists n, r :: n in ns && r in Reflectors(x) && Hosts(x, n, r) && IsHostPatchOf(x, ns, n, r, p)
  }

  ghost predicate IsHostPatchOf(x: Inputs, ns: Nodes, n: string, r: string, p: Patch)
    requires ReflectorsResolve(x) && n in ns && r in Reflectors(x)
  {
    p == HostGroup(x, n, Reflectors(x)[r]) ||
    exists e :: e in ns && ns[e].edge && p == HostNeighbor(x, n, ns[n], Reflectors(x)[r], ns[e])
  }

  /** What BuildUnderlay returns. */
  function BuildOutcome(x: Inputs, links: seq<Link>): Outcome {
    if !LinksOutcome(x, links).Ok? then LinksOutcome(x, links)
    else if !ReflectorsResolve(x) then Err
    else if MeshPanics(x, NodesOf(x, links)) then Panic
    else Ok
  }

  /**
   The logs of a successful build. The links come in list order; the two phases of the mesh iterate over Go
   maps, so their patches may come in any order and number, as long as they are exactly the phase's patches.
   */
  ghost predicate UnderlayLog(x: Inputs, links: seq<Link>, log: Log, e: Log, r: Log) {
    && BuildOutcome(x, links).Ok?
    && log == LinkLog(x, links) + e + r
    && (forall p :: p in e <==> IsEdgePatch(x, NodesOf(x, links), p))
    && (forall p :: p in r <==> IsHostPatch(x, NodesOf(x, links), p))
  }
}
