/** The layers of one device in the final tree: its AS, its router id and its system addresses agree throughout. */
module UnderlayDevices {
  import opened Options
  import opened ConfigTree
  import opened Design
  import opened Underlay
  import opened UnderlayEntries
  import opened UnderlayLayers
  import opened UnderlayTheorems
  import opened UnderlaySessions
  import opened UnderlayMesh

  /** Cells that only the base configuration of a node writes. */
  predicate BaseOnly(c: Cell) {
    c.Ospf? || c.Isis? || c.BgpAs? || c.BgpRouterId? || c.BgpFamilies? || c.SystemVpn? || c.Policy? || c.Provider?
  }

  /** What the base configuration writes to such a cell is final. */
  lemma BaseDecides(x: Inputs, links: seq<Link>, log: Log, e: Log, r: Log, loc: Loc)
    requires UnderlayLog(x, links, log, e, r) && loc.node in NodesOf(x, links) && BaseOnly(loc.cell)
    requires loc in BaseTree(x, loc.node, NodesOf(x, links)[loc.node])
    ensures loc in Merge(log) && Merge(log)[loc] == BaseTree(x, loc.node, NodesOf(x, links)[loc.node])[loc]
  {
    hide Merge, LinkLog, LinksOutcome, IsEdgePatch, IsHostPatch, BaseTree, ItfTree, NodesOf;
    MeshMissesOthers(x, links, log, e, r, loc);
    LinksDecide(x, links, log, e, r, loc);
    LinkTreeLayered(x, links, loc);
    if Touched(x, links, loc) {
      var l, i :| l in links && loc in ItfTree(x, l, i);
      ItfTreeEntries(x, l, i, loc);
    }
  }

  function AsLoc(x: Inputs, n: string): Loc {
    Loc(n, BgpAs(x.Ni()))
  }

  function RouterIdLoc(x: Inputs, n: string): Loc {
    Loc(n, BgpRouterId(x.Ni()))
  }

  function OspfInstanceLoc(x: Inputs, n: string, o: OspfDesign): Loc {
    Loc(n, Ospf(x.Ni(), OspfInstance(o)))
  }

  lemma BaseBgpValues(x: Inputs, n: string, v: Node)
    requires x.design.ebgp.Some? || x.design.ibgp.Some?
    ensures AsLoc(x, n) in BaseTree(x, n, v) && BaseTree(x, n, v)[AsLoc(x, n)] == VNum(v.asn)
    ensures RouterIdLoc(x, n) in BaseTree(x, n, v) && BaseTree(x, n, v)[RouterIdLoc(x, n)] == VText(v.routerId)
  {
    hide Merge, BaseHead, BaseInstance, BaseOspf, BaseIsis, BaseBgp;
    BaseStartMissesBgp(x, n, v);
    BaseIgpMissesBgp(x, n, v);
    BgpWrites(x, n, v);
    SettledValue(BaseLog(x, n, v), AsLoc(x, n), VNum(v.asn));
    SettledValue(BaseLog(x, n, v), RouterIdLoc(x, n), VText(v.routerId));
  }

  lemma BaseStartMissesBgp(x: Inputs, n: string, v: Node)
    ensures forall p :: p in BaseHead(n, v) || p in BaseInstance(x, n) ==> AsLoc(x, n) !in p && RouterIdLoc(x, n) !in p
  {
  }

  lemma BaseIgpMissesBgp(x: Inputs, n: string, v: Node)
    ensures forall p :: p in BaseOspf(x, n, v) || p in BaseIsis(x, n, v) ==>
              AsLoc(x, n) !in p && RouterIdLoc(x, n) !in p
  {
  }

  lemma BgpWrites(x: Inputs, n: string, v: Node)
    requires x.design.ebgp.Some? || x.design.ibgp.Some?
    ensures forall p :: p in BaseBgp(x, n, v) && AsLoc(x, n) in p ==> p[AsLoc(x, n)] == VNum(v.asn)
    ensures forall p :: p in BaseBgp(x, n, v) && RouterIdLoc(x, n) in p ==> p[RouterIdLoc(x, n)] == VText(v.routerId)
    ensures exists p :: p in BaseBgp(x, n, v) && AsLoc(x, n) in p
    ensures exists p :: p in BaseBgp(x, n, v) && RouterIdLoc(x, n) in p
  {
    var head := BgpSection(x, n, v);
    assert forall p :: p in EbgpSection(x, n) || p in IbgpSection(x, n) || p in VpnSection(x, n) ==>
             AsLoc(x, n) !in p && RouterIdLoc(x, n) !in p;
    assert head[0] in head && head[0] in BaseBgp(x, n, v) && AsLoc(x, n) in head[0];
    assert head[1] in head && head[1] in BaseBgp(x, n, v) && RouterIdLoc(x, n) in head[1];
  }

  lemma BaseOspfValue(x: Inputs, n: string, v: Node, o: OspfDesign)
    requires x.design.ospf == Some(o)
    ensures OspfInstanceLoc(x, n, o) in BaseTree(x, n, v)
    ensures BaseTree(x, n, v)[OspfInstanceLoc(x, n, o)] == VOspf(o.version, v.routerId, o.maxEcmp.GetOr(1))
  {
    hide Merge, BaseHead, BaseInstance, BaseIsis, BaseBgp;
    var loc := OspfInstanceLoc(x, n, o);
    OthersMissOspf(x, n, v, o);
    assert BaseOspf(x, n, v)[0] in BaseOspf(x, n, v) && loc in BaseOspf(x, n, v)[0];
    SettledValue(BaseLog(x, n, v), loc, VOspf(o.version, v.routerId, o.maxEcmp.GetOr(1)));
  }

  lemma OthersMissOspf(x: Inputs, n: string, v: Node, o: OspfDesign)
    ensures forall p :: p in BaseHead(n, v) || p in BaseInstance(x, n) || p in BaseIsis(x, n, v) ==>
              OspfInstanceLoc(x, n, o) !in p
    ensures forall p :: p in BaseBgp(x, n, v) ==> OspfInstanceLoc(x, n, o) !in p
  {
    assert forall p :: p in BgpSection(x, n, v) || p in EbgpSection(x, n) ==> OspfInstanceLoc(x, n, o) !in p;
    assert forall p :: p in IbgpSection(x, n) || p in VpnSection(x, n) ==> OspfInstanceLoc(x, n, o) !in p;
  }

  // ---------------------------------------------------------------- AS numbers

  /** Under EBGP every gathered device runs BGP in the AS that its AS claim holds, else in the design's IBGP AS. */
  lemma DeviceAs(x: Inputs, links: seq<Link>, log: Log, e: Log, r: Log, n: string)
    requires UnderlayLog(x, links, log, e, r) && n in NodesOf(x, links)
    requires x.design.ebgp.Some? || x.design.ibgp.Some?
    ensures AsLoc(x, n) in Merge(log)
    ensures Merge(log)[AsLoc(x, n)] == VNum(if x.design.ebgp.Some? then AsOf(x, n) else x.design.IbgpAs())
  {
    hide Merge, LinkLog, LinksOutcome, IsEdgePatch, IsHostPatch, BaseTree, NodesOf;
    BaseBgpValues(x, n, NodesOf(x, links)[n]);
    BaseDecides(x, links, log, e, r, AsLoc(x, n));
    NodesAreGathered(x, links, n);
  }

  /**
   Session and device AS agree: the local AS of every underlay session is the AS its device runs BGP in, and
   the peer AS is the one the mirrored device m runs BGP in.
   */
  lemma SessionAsIsDeviceAs(x: Inputs, links: seq<Link>, log: Log, e: Log, r: Log, n: string, b: string)
    returns (m: string)
    requires UnderlayLog(x, links, log, e, r) && AddressPlan(x, links)
    requires SessionLoc(x, n, b) in Merge(log) && Merge(log)[SessionLoc(x, n, b)].VNeighbor?
    requires Merge(log)[SessionLoc(x, n, b)].group == UNDERLAY
    ensures var t := Merge(log);
            var v := t[SessionLoc(x, n, b)];
            && AsLoc(x, n) in t && t[AsLoc(x, n)] == VNum(v.localAs)
            && AsLoc(x, m) in t && t[AsLoc(x, m)] == VNum(v.peerAs)
            && SessionLoc(x, m, v.local) in t && Owns(x, t, m, b)
  {
    hide Merge, LinkLog, LinksOutcome, IsEdgePatch, IsHostPatch;
    var l, i, f := SessionComesFromEnd(x, links, log, e, r, n, b);
    m := l.Node(!i);
    SessionOfEveryEnd(x, links, log, e, r, l, !i, f);
    EndOwnsAddress(x, links, log, e, r, l, !i, f);
    EndNodesGathered(x, links);
    EndsAreEndNodes(links, l, i);
    EndsAreEndNodes(links, l, !i);
    DeviceAs(x, links, log, e, r, n);
    DeviceAs(x, links, log, e, r, m);
  }

  // ---------------------------------------------------------------- router ids

  /** The claim a node's router id comes from: its IPv4 loopback if there is one. */
  function RouterIdSource(x: Inputs, n: string): Option<string> {
    x.Ip(if x.design.LoopbackV4() then x.LoopbackClaim(n, true) else x.RouterIdClaim(n))
  }

  /** One router id per device: OSPF and BGP use the same one, the address of the node's claim. */
  lemma RouterIdsAgree(x: Inputs, links: seq<Link>, log: Log, e: Log, r: Log, n: string)
    requires UnderlayLog(x, links, log, e, r) && n in NodesOf(x, links)
    ensures RouterIdSource(x, n).Some?
    ensures x.design.ebgp.Some? || x.design.ibgp.Some? ==>
              RouterIdLoc(x, n) in Merge(log) &&
                Merge(log)[RouterIdLoc(x, n)] == VText(x.api.addressOf(RouterIdSource(x, n).value))
    ensures forall o :: x.design.ospf == Some(o) ==>
              OspfInstanceLoc(x, n, o) in Merge(log) && Merge(log)[OspfInstanceLoc(x, n, o)].VOspf? &&
              Merge(log)[OspfInstanceLoc(x, n, o)].routerId == x.api.addressOf(RouterIdSource(x, n).value)
  {
    hide Merge, LinkLog, LinksOutcome, IsEdgePatch, IsHostPatch, BaseTree, NodesOf;
    var v := NodesOf(x, links)[n];
    NodesAreGathered(x, links, n);
    if x.design.ebgp.Some? || x.design.ibgp.Some? {
      BaseBgpValues(x, n, v);
      BaseDecides(x, links, log, e, r, RouterIdLoc(x, n));
    }
    if x.design.ospf.Some? {
      BaseOspfValue(x, n, v, x.design.ospf.value);
      BaseDecides(x, links, log, e, r, OspfInstanceLoc(x, n, x.design.ospf.value));
    }
  }

  // ---------------------------------------------------------------- system addresses

  function SystemValue(v: Node): Val {
    VSub("", "", None, Some(OneOrNone(v.ipv4)), Some(OneOrNone(v.ipv6)))
  }

  lemma BaseSystemValue(x: Inputs, n: string, v: Node)
    ensures SystemLoc(n) in BaseTree(x, n, v) && BaseTree(x, n, v)[SystemLoc(n)] == SystemValue(v)
  {
    hide Merge, BaseInstance, BaseOspf, BaseIsis, BaseBgp;
    var head := BaseHead(n, v);
    BaseRestWithoutSystem(x, n, v);
    assert head[3] in head && SystemLoc(n) in head[3];
    SettledValue(BaseLog(x, n, v), SystemLoc(n), SystemValue(v));
  }

  /** A device's system interface owns its loopback address, unless a link ends on an endpoint called system0. */
  lemma SystemOwnsLoopback(x: Inputs, links: seq<Link>, log: Log, e: Log, r: Log, n: string, f: bool)
    requires UnderlayLog(x, links, log, e, r) && n in NodesOf(x, links) && SystemFree(links, n)
    requires LoopbackOf(NodesOf(x, links)[n], f) != ""
    ensures Owns(x, Merge(log), n, PeeringAddress(x, NodesOf(x, links)[n], f))
  {
    hide Merge, LinkLog, LinksOutcome, IsEdgePatch, IsHostPatch, BaseTree, NodesOf;
    var v, loc := NodesOf(x, links)[n], SystemLoc(n);
    BaseSystemValue(x, n, v);
    BaseStillThere(x, links, n, loc);
    MeshMissesOthers(x, links, log, e, r, loc);
    LinksDecide(x, links, log, e, r, loc);
    assert HasPrefix(Merge(log)[loc], LoopbackOf(v, f));
  }

  /**
   Mesh sessions run between system addresses: the edge's end leaves from an address its own device owns, and
   the reflector's address is owned by the device that hosts the reflector.
   */
  lemma MeshSessionsOwned(x: Inputs, links: seq<Link>, log: Log, e: Log, r: Log, n: string, s: string)
    returns (h: string)
    requires UnderlayLog(x, links, log, e, r) && MeshPlan(x, NodesOf(x, links))
    requires forall m :: m in NodesOf(x, links) ==> SystemFree(links, m)
    requires forall m, f :: m in NodesOf(x, links) && LoopbackEnabled(x, f) ==>
               LoopbackOf(NodesOf(x, links)[m], f) != ""
    requires n in NodesOf(x, links) && NodesOf(x, links)[n].edge && s in ReflectorNames(x)
    ensures var t, rr := Merge(log), ReflectorOf(x, s);
            && SessionLoc(x, n, rr.ip) in t && t[SessionLoc(x, n, rr.ip)].VNeighbor?
            && Owns(x, t, n, t[SessionLoc(x, n, rr.ip)].local) && Owns(x, t, h, rr.ip)
            && SessionLoc(x, h, t[SessionLoc(x, n, rr.ip)].local) in t
  {
    hide Merge, LinkLog, LinksOutcome, IsEdgePatch, IsHostPatch, NodesOf, Owns;
    h := MeshSessionsMatch(x, links, log, e, r, n, s);
    PlanHolds(x, links);
    assert HostsAsPlanned(x, NodesOf(x, links), h, s);
    SystemOwnsLoopback(x, links, log, e, r, n, ReflectorOf(x, s).ipv4);
    SystemOwnsLoopback(x, links, log, e, r, h, ReflectorOf(x, s).ipv4);
  }
}
