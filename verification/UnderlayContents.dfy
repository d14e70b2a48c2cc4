/**
 What BuildUnderlay leaves, in terms of the links, the design, the inventory and the claims alone: for every kind of
 entry, on which device, under which name and with which value it is.
 */
module UnderlayContents {
  import opened Options
  import opened ConfigTree
  import opened Design
  import opened Underlay
  import opened UnderlayEntries
  import opened UnderlayLayers
  import opened UnderlayOrder

  // ---------------------------------------------------------------- what the inputs say

  /** The underlay gives interfaces addresses of the family. */
  predicate Numbers(d: NetworkDesign, v4: bool) {
    match d.underlay
    case Some(DualStack) => true
    case Some(IPv4Numbered) => v4
    case Some(IPv6Numbered) => !v4
    case _ => false
  }

  /** The underlay runs the family on interfaces without addresses of their own. */
  predicate RunsBare(d: NetworkDesign, v4: bool) {
    match d.underlay
    case Some(IPv4Unnumbered) => v4
    case Some(IPv6Unnumbered) => !v4
    case _ => false
  }

  /** The claim of an interface is named after network, node, endpoint and family. */
  function EndClaimName(x: Inputs, l: Link, i: bool, v4: bool): string {
    x.netName + "." + l.Node(i) + "." + l.Ep(i) + "." + if v4 then "ipv4" else "ipv6"
  }

  /** The prefix of an interface. */
  function Prefix(x: Inputs, l: Link, i: bool, v4: bool): string {
    x.Ip(EndClaimName(x, l, i, v4)).GetOr("")
  }

  /** The AS of a node: the value of the claim named after network and node. */
  function AsNumber(x: Inputs, node: string): nat {
    x.Asn(x.netName + "." + node).GetOr(0)
  }

  predicate IsOff(o: Option<bool>) {
    o == Some(false)
  }

  predicate SomeBfd(d: NetworkDesign) {
    || (d.isis.Some? && d.isis.value.bfd) || (d.ospf.Some? && d.ospf.value.bfd) || (d.ebgp.Some? && d.ebgp.value.bfd)
  }

  /** BFD is on in some protocol of the design, and the link does not switch it off. */
  predicate BfdAsked(x: Inputs, l: Link) {
    SomeBfd(x.design) && (l.protocols.bfd.Some? ==> !IsOff(l.protocols.bfd.value.enabled))
  }

  predicate BgpBfdAsked(x: Inputs, l: Link) {
    x.design.ebgp.Some? && x.design.ebgp.value.bfd && !IsOff(l.protocols.bgpBfd)
  }

  function Name(o: Option<string>, default: string): string {
    if o.Some? then o.value else default
  }

  // ---------------------------------------------------------------- what a link end gives

  predicate SubGiven(x: Inputs, l: Link, i: bool, v: Val) {
    && v.VSub? && v.peerName == l.Node(!i) + "." + l.Ep(!i) && v.kind == "routed" && v.vlan == None
    && v.ipv4 == (if Numbers(x.design, true) then Some([Prefix(x, l, i, true)])
                  else if RunsBare(x.design, true) then Some([]) else None)
    && v.ipv6 == (if Numbers(x.design, false) then Some([Prefix(x, l, i, false)])
                  else if RunsBare(x.design, false) then Some([]) else None)
  }

  /** A passive interface has no network type; an active one the link's, or point-to-point. */
  predicate OspfGiven(o: OspfDesign, l: Link, v: Val) {
    && v.VOspfItf?
    && (v.passive <==> l.protocols.ospfPassive == Some(true))
    && v.netType == (if v.passive then "unknown" else Name(l.protocols.ospfType, "pointToPoint"))
    && (v.bfd <==> o.bfd && !IsOff(l.protocols.ospfBfd))
  }

  /** A family that the underlay runs has the design's BFD, unless the link switches it off. */
  function IsisBfd(x: Inputs, o: IsisDesign, l: Link, v4: bool): Option<bool> {
    if Numbers(x.design, v4) || RunsBare(x.design, v4) then Some(o.bfd && !IsOff(l.protocols.isisBfd)) else None
  }

  predicate IsisGiven(x: Inputs, o: IsisDesign, l: Link, v: Val) {
    && v.VIsisItf? && v.level1 == None && v.level2 == None
    && v.passive == l.protocols.isisPassive
    && v.netType == (if v.passive then "unknown" else Name(l.protocols.isisType, "pointToPoint"))
    && v.bfd4 == IsisBfd(x, o, l, true) && v.bfd6 == IsisBfd(x, o, l, false)
  }

  /** The settings of a level are computed where the design runs it and the link excludes it or has a metric. */
  lemma LevelsComputed(x: Inputs, o: IsisDesign, l: Link)
    ensures var v, p := IsisValue(x, o, l), l.protocols;
            && v.level1 == (if (o.level == "L1" || o.level == "L1L2") && (p.isisLevel == "L2" || p.isisMetric != 0)
                            then Some(IsisLevel(p.isisLevel == "L2", p.isisMetric, p.isisMetric)) else None)
            && v.level2 == (if (o.level == "L2" || o.level == "L1L2") && (p.isisLevel == "L1" || p.isisMetric != 0)
                            then Some(IsisLevel(p.isisLevel == "L1", p.isisMetric, p.isisMetric)) else None)
  {
  }

  /** The session of one family: from the end's address and AS to the other end's. */
  predicate SessionGiven(x: Inputs, l: Link, i: bool, v4: bool, peer: string, v: Val) {
    && Numbers(x.design, v4) && peer != "" && peer == x.api.addressOf(Prefix(x, l, !i, v4))
    && v == VNeighbor(x.api.addressOf(Prefix(x, l, i, v4)), "underlay", AsNumber(x, l.Node(i)), AsNumber(x, l.Node(!i)),
                      BgpBfdAsked(x, l))
  }

  /** What end i of the link gives the entry at `loc`. */
  predicate EndGives(x: Inputs, l: Link, i: bool, loc: Loc, v: Val) {
    var d, port := x.design, Sub(l.Ep(i), 0);
    && loc.node == l.Node(i)
    && match loc.cell
       case VlanTagging(f) => f == l.Ep(i) && f != "" && v == VFlag(false)
       case SubInterface(s) => s == port && SubGiven(x, l, i, v)
       case InstanceItf(ni, s) => ni == "default" && s == port && v == VPresent
       case Bfd(s) => s == port && l.Ep(i) != "" && BfdAsked(x, l) && v == VPresent
       case OspfArea(ni, inst, area) =>
         d.ospf.Some? && ni == x.Ni() && inst == Name(d.ospf.value.instance, "i1") &&
         area == Name(l.protocols.ospfArea, d.ospf.value.area) && v == VPresent
       case OspfItf(ni, inst, area, s) =>
         d.ospf.Some? && ni == x.Ni() && inst == Name(d.ospf.value.instance, "i1") &&
         area == Name(l.protocols.ospfArea, d.ospf.value.area) && s == port && OspfGiven(d.ospf.value, l, v)
       case IsisItf(ni, inst, s) =>
         d.isis.Some? && ni == x.Ni() && inst == Name(d.isis.value.instance, "i1") && s == port &&
         IsisGiven(x, d.isis.value, l, v)
       case Neighbor(ni, peer) =>
         d.ebgp.Some? && ni == x.Ni() &&
         (SessionGiven(x, l, i, true, peer, v) || SessionGiven(x, l, i, false, peer, v))
       case DynNeighbor(ni, s) =>
         d.ebgp.Some? && (RunsBare(x.design, true) || RunsBare(x.design, false)) && ni == x.Ni() && s == port &&
           l.Ep(i) != "" &&
         v == VDynNeighbor(AsNumber(x, l.Node(!i)), "underlay")
       case PeerGroup(ni, g) =>
         d.ebgp.Some? && ni == x.Ni() && g == "underlay" && v == VPeerGroup(d.underlayFamilies, None, BgpBfdAsked(x, l))
       case _ => false
  }

  ghost predicate EndPatches(x: Inputs, l: Link, i: bool, log: Log) {
    forall p :: p in log ==> EndPatch(x, l, i, p)
  }

  ghost predicate EndPatch(x: Inputs, l: Link, i: bool, p: Patch) {
    forall loc :: loc in p ==> EndGives(x, l, i, loc, p[loc])
  }

  lemma FamiliesAgree(x: Inputs, v4: bool)
    ensures Numbered(x, v4) <==> Numbers(x.design, v4)
    ensures (if v4 then x.design.V4Unnumbered() else x.design.V6Unnumbered()) <==> RunsBare(x.design, v4)
  {
  }

  lemma PrefixesAgree(x: Inputs, l: Link, i: bool, v4: bool)
    ensures IpOf(x, l.E(i), v4) == if Numbers(x.design, v4) then Prefix(x, l, i, v4) else ""
  {
    FamiliesAgree(x, v4);
  }

  lemma AsAgrees(x: Inputs, node: string)
    ensures x.design.ebgp.Some? ==> AsOf(x, node) == AsNumber(x, node)
  {
  }

  lemma SubAgrees(x: Inputs, l: Link, i: bool)
    ensures SubGiven(x, l, i, UnderlaySub(x, l, i))
  {
    hide Inputs.Ip, Inputs.EndpointClaim, Prefix;
    PrefixesAgree(x, l, i, true);
    PrefixesAgree(x, l, i, false);
    FamiliesAgree(x, true);
    FamiliesAgree(x, false);
  }

  lemma CoreGives(x: Inputs, l: Link, i: bool)
    ensures EndPatches(x, l, i, ItfCore(x, l, i)) && EndPatches(x, l, i, ItfBfd(x, l, i))
  {
    hide SubGiven, UnderlaySub;
    SubAgrees(x, l, i);
  }

  lemma IsisAgrees(x: Inputs, o: IsisDesign, l: Link)
    ensures IsisGiven(x, o, l, WithoutLevels(IsisValue(x, o, l)))
  {
    FamiliesAgree(x, true);
    FamiliesAgree(x, false);
  }

  lemma OspfAgrees(o: OspfDesign, l: Link)
    ensures OspfGiven(o, l, OspfValue(o, l))
  {
  }

  lemma OspfGives(x: Inputs, l: Link, i: bool)
    ensures EndPatches(x, l, i, ItfOspf(x, l, i))
  {
    hide OspfGiven, OspfValue;
    if x.design.ospf.Some? {
      OspfAgrees(x.design.ospf.value, l);
    }
  }

  lemma IsisGives(x: Inputs, l: Link, i: bool)
    ensures EndPatches(x, l, i, ItfIsis(x, l, i))
  {
    hide IsisGiven, IsisValue, WithoutLevels;
    if x.design.isis.Some? {
      IsisAgrees(x, x.design.isis.value, l);
    }
  }

  lemma NeighborGives(x: Inputs, l: Link, i: bool, v4: bool)
    requires x.design.ebgp.Some? && Numbers(x.design, v4)
    ensures EndPatch(x, l, i, EbgpNeighbor(x, l, i, v4))
  {
    hide Numbers, Prefix, AsNumber, IpOf, AsOf;
    PrefixesAgree(x, l, i, v4);
    PrefixesAgree(x, l, !i, v4);
    AsAgrees(x, l.Node(i));
    AsAgrees(x, l.Node(!i));
  }

  lemma EbgpOthersGive(x: Inputs, l: Link, i: bool)
    requires x.design.ebgp.Some?
    ensures RunsBare(x.design, true) || RunsBare(x.design, false) ==> EndPatch(x, l, i, EbgpDynamic(x, l, i))
    ensures EndPatch(x, l, i, EbgpGroup(x, l, i))
  {
    hide AsNumber, AsOf, RunsBare;
    AsAgrees(x, l.Node(!i));
  }

  lemma EbgpGives(x: Inputs, l: Link, i: bool)
    ensures EndPatches(x, l, i, ItfEbgp(x, l, i))
  {
    hide EndPatch, EbgpNeighbor, EbgpDynamic, EbgpGroup, Numbers, RunsBare;
    FamiliesAgree(x, true);
    FamiliesAgree(x, false);
    if x.design.ebgp.Some? {
      EbgpOthersGive(x, l, i);
      if Numbers(x.design, true) {
        NeighborGives(x, l, i, true);
      }
      if Numbers(x.design, false) {
        NeighborGives(x, l, i, false);
      }
    }
  }

  /** What a link end writes it gives. */
  lemma EndTreeGives(x: Inputs, l: Link, i: bool, loc: Loc)
    requires loc in ItfTree(x, l, i)
    ensures EndGives(x, l, i, loc, ItfTree(x, l, i)[loc])
  {
    hide EndGives, ItfCore, ItfBfd, ItfOspf, ItfIsis, ItfEbgp;
    CoreGives(x, l, i);
    OspfGives(x, l, i);
    IsisGives(x, l, i);
    EbgpGives(x, l, i);
    var log := ItfLog(x, l, i);
    var k := LastWriter(log, loc);
    assert EndPatch(x, l, i, log[k]);
  }

  lemma InTree(log: Log, p: Patch, loc: Loc)
    requires p in log && loc in p
    ensures loc in Merge(log)
  {
    var k := LastWriter(log, loc);
  }

  lemma CoreIsWritten(x: Inputs, l: Link, i: bool, loc: Loc, v: Val)
    requires EndGives(x, l, i, loc, v)
    requires loc.cell.VlanTagging? || loc.cell.SubInterface? || loc.cell.InstanceItf? || loc.cell.Bfd?
    ensures exists p :: p in ItfCore(x, l, i) + ItfBfd(x, l, i) && loc in p
  {
    hide SubGiven, UnderlaySub;
    var core, log := ItfCore(x, l, i), ItfCore(x, l, i) + ItfBfd(x, l, i);
    if loc.cell.VlanTagging? {
      assert core[0] in log && loc in core[0];
    } else if loc.cell.SubInterface? {
      assert core[1] in log && loc in core[1];
    } else if loc.cell.InstanceItf? {
      assert core[2] in log && loc in core[2];
    } else {
      assert ItfBfd(x, l, i)[0] in log && loc in ItfBfd(x, l, i)[0];
    }
  }

  lemma IgpIsWritten(x: Inputs, l: Link, i: bool, loc: Loc, v: Val)
    requires EndGives(x, l, i, loc, v) && (loc.cell.OspfArea? || loc.cell.OspfItf? || loc.cell.IsisItf?)
    ensures exists p :: p in ItfOspf(x, l, i) + ItfIsis(x, l, i) && loc in p
  {
    hide OspfGiven, IsisGiven, OspfValue, IsisValue;
    var log := ItfOspf(x, l, i) + ItfIsis(x, l, i);
    if loc.cell.IsisItf? {
      assert ItfIsis(x, l, i)[0] in log && loc in ItfIsis(x, l, i)[0];
    } else {
      assert ItfOspf(x, l, i)[0] in log && ItfOspf(x, l, i)[1] in log;
      assert loc.cell.OspfArea? ==> loc in ItfOspf(x, l, i)[0];
      assert loc.cell.OspfItf? ==> loc in ItfOspf(x, l, i)[1];
    }
  }

  lemma EbgpIsWritten(x: Inputs, l: Link, i: bool, loc: Loc, v: Val)
    requires EndGives(x, l, i, loc, v) && (loc.cell.Neighbor? || loc.cell.DynNeighbor? || loc.cell.PeerGroup?)
    ensures exists p :: p in ItfEbgp(x, l, i) && loc in p
  {
    hide Prefix, AsNumber, AsOf, IpOf, Numbers, RunsBare, BgpBfdAsked, BgpBfd;
    FamiliesAgree(x, true);
    FamiliesAgree(x, false);
    var log := ItfEbgp(x, l, i);
    if loc.cell.PeerGroup? {
      assert EbgpGroup(x, l, i) in log && loc in EbgpGroup(x, l, i);
    } else if loc.cell.DynNeighbor? {
      assert EbgpDynamic(x, l, i) in log && loc in EbgpDynamic(x, l, i);
    } else {
      var v4 := SessionGiven(x, l, i, true, loc.cell.peer, v);
      assert Numbers(x.design, v4);
      PrefixesAgree(x, l, !i, v4);
      assert EbgpNeighbor(x, l, i, v4) in log && loc in EbgpNeighbor(x, l, i, v4);
    }
  }

  /** Where a link end gives something, it writes. */
  lemma EndGivenIsWritten(x: Inputs, l: Link, i: bool, loc: Loc, v: Val)
    requires EndGives(x, l, i, loc, v)
    ensures loc in ItfTree(x, l, i)
  {
    hide EndGives, ItfCore, ItfBfd, ItfOspf, ItfIsis, ItfEbgp, Merge;
    EndCells(x, l, i, loc, v);
    var log := ItfLog(x, l, i);
    if loc.cell.VlanTagging? || loc.cell.SubInterface? || loc.cell.InstanceItf? || loc.cell.Bfd? {
      CoreIsWritten(x, l, i, loc, v);
      var p :| p in ItfCore(x, l, i) + ItfBfd(x, l, i) && loc in p;
      InTree(log, p, loc);
    } else if loc.cell.OspfArea? || loc.cell.OspfItf? || loc.cell.IsisItf? {
      IgpIsWritten(x, l, i, loc, v);
      var p :| p in ItfOspf(x, l, i) + ItfIsis(x, l, i) && loc in p;
      InTree(log, p, loc);
    } else {
      EbgpIsWritten(x, l, i, loc, v);
      var p :| p in ItfEbgp(x, l, i) && loc in p;
      InTree(log, p, loc);
    }
  }

  lemma EndCells(x: Inputs, l: Link, i: bool, loc: Loc, v: Val)
    requires EndGives(x, l, i, loc, v)
    ensures || loc.cell.VlanTagging? || loc.cell.SubInterface? || loc.cell.InstanceItf? || loc.cell.Bfd?
            || loc.cell.OspfArea? || loc.cell.OspfItf? || loc.cell.IsisItf?
            || loc.cell.Neighbor? || loc.cell.DynNeighbor? || loc.cell.PeerGroup?
  {
  }

  // ---------------------------------------------------------------- what a node's base configuration gives

  function Listed(prefix: string): seq<string> {
    if prefix == "" then [] else [prefix]
  }

  predicate RunsBgp(x: Inputs) {
    x.design.ibgp.Some? || x.design.ebgp.Some?
  }

  /** What node n, gathered as k, gives the entry at `loc`. */
  predicate NodeGives(x: Inputs, n: string, k: Node, loc: Loc, v: Val) {
    var d, system := x.design, Sub("system0", 0);
    && loc.node == n
    && match loc.cell
       case Provider => v == VText(k.provider)
       case VlanTagging(f) => (f == "irb0" || f == "system0") && v == VFlag(false)
       case SubInterface(s) => s == system && v == VSub("", "", None, Some(Listed(k.ipv4)), Some(Listed(k.ipv6)))
       case Tunnel(f) => d.vxlan && f == "vxlan0" && v == VPresent
       case InstanceType(ni) => ni == x.Ni() && v == VText("default")
       case InstanceItf(ni, s) => ni == x.Ni() && s == system && v == VPresent
       case Ospf(ni, inst) =>
         d.ospf.Some? && ni == x.Ni() && inst == Name(d.ospf.value.instance, "i1") &&
         v == VOspf(d.ospf.value.version, k.routerId,
                    if d.ospf.value.maxEcmp.Some? then d.ospf.value.maxEcmp.value else 1)
       case OspfArea(ni, inst, area) =>
         d.ospf.Some? && ni == x.Ni() && inst == Name(d.ospf.value.instance, "i1") && area == d.ospf.value.area &&
         v == VPresent
       case OspfItf(ni, inst, area, s) =>
         d.ospf.Some? && ni == x.Ni() && inst == Name(d.ospf.value.instance, "i1") && area == d.ospf.value.area &&
         s == system && v == VOspfItf("unknown", true, false)
       case Isis(ni, inst) =>
         d.isis.Some? && ni == x.Ni() && inst == Name(d.isis.value.instance, "i1") &&
         v == VIsis(d.isis.value.level, d.isis.value.areas, k.systemId,
                    if d.isis.value.maxEcmp.Some? then d.isis.value.maxEcmp.value else 1, d.igpFamilies)
       case IsisItf(ni, inst, s) =>
         d.isis.Some? && ni == x.Ni() && inst == Name(d.isis.value.instance, "i1") && s == system &&
         v == VIsisItf(None, None, "unknown", true, None, None)
       case BgpAs(ni) => RunsBgp(x) && ni == x.Ni() && v == VNum(k.asn)
       case BgpRouterId(ni) => RunsBgp(x) && ni == x.Ni() && v == VText(k.routerId)
       case Policy(p) =>
         || (d.ebgp.Some? && p == "underlay" && v == VPolicy(d.prefixes4, d.prefixes6))
         || (d.ibgp.Some? && p == "overlay" && v == VPolicy([], []))
       case BgpFamilies(ni) => d.ibgp.Some? && ni == x.Ni() && v == VFamilies(d.allFamilies)
       case SystemVpn => RunsBgp(x) && d.bgpEvpn && v == VPresent
       case _ => false
  }

  ghost predicate NodePatches(x: Inputs, n: string, k: Node, log: Log) {
    forall p :: p in log ==> NodePatch(x, n, k, p)
  }

  ghost predicate NodePatch(x: Inputs, n: string, k: Node, p: Patch) {
    forall loc :: loc in p ==> NodeGives(x, n, k, loc, p[loc])
  }

  lemma HeadGives(x: Inputs, n: string, k: Node)
    ensures NodePatches(x, n, k, BaseHead(n, k)) && NodePatches(x, n, k, BaseInstance(x, n))
  {
  }

  lemma IgpGives(x: Inputs, n: string, k: Node)
    ensures NodePatches(x, n, k, BaseOspf(x, n, k)) && NodePatches(x, n, k, BaseIsis(x, n, k))
  {
  }

  lemma BgpGives(x: Inputs, n: string, k: Node)
    ensures NodePatches(x, n, k, BaseBgp(x, n, k))
  {
    if RunsBgp(x) {
      assert NodePatches(x, n, k, BgpSection(x, n, k)) && NodePatches(x, n, k, EbgpSection(x, n));
      assert NodePatches(x, n, k, IbgpSection(x, n)) && NodePatches(x, n, k, VpnSection(x, n));
    }
  }

  /** What a node's base configuration writes it gives. */
  lemma NodeTreeGives(x: Inputs, n: string, k: Node, loc: Loc)
    requires loc in BaseTree(x, n, k)
    ensures NodeGives(x, n, k, loc, BaseTree(x, n, k)[loc])
  {
    hide NodeGives, BaseHead, BaseInstance, BaseOspf, BaseIsis, BaseBgp;
    HeadGives(x, n, k);
    IgpGives(x, n, k);
    BgpGives(x, n, k);
    var log := BaseLog(x, n, k);
    var j := LastWriter(log, loc);
    assert NodePatch(x, n, k, log[j]);
  }

  lemma HeadIsWritten(x: Inputs, n: string, k: Node, loc: Loc, v: Val)
    requires NodeGives(x, n, k, loc, v)
    requires || loc.cell.Provider? || loc.cell.VlanTagging? || loc.cell.SubInterface? || loc.cell.Tunnel?
             || loc.cell.InstanceType? || loc.cell.InstanceItf?
    ensures exists p :: p in BaseHead(n, k) + BaseInstance(x, n) && loc in p
  {
    var head, inst, log := BaseHead(n, k), BaseInstance(x, n), BaseHead(n, k) + BaseInstance(x, n);
    assert head[0] in log && head[1] in log && head[2] in log && head[3] in log;
    assert inst[|inst| - 1] in log && inst[|inst| - 2] in log && inst[0] in log;
    match loc.cell {
      case Provider => assert loc in head[0];
      case VlanTagging(f) => assert loc in head[1] || loc in head[2];
      case SubInterface(_) => assert loc in head[3];
      case Tunnel(_) => assert loc in inst[0];
      case InstanceType(_) => assert loc in inst[|inst| - 2];
      case InstanceItf(_, _) => assert loc in inst[|inst| - 1];
    }
  }

  lemma NodeIgpIsWritten(x: Inputs, n: string, k: Node, loc: Loc, v: Val)
    requires NodeGives(x, n, k, loc, v)
    requires loc.cell.Ospf? || loc.cell.OspfArea? || loc.cell.OspfItf? || loc.cell.Isis? || loc.cell.IsisItf?
    ensures exists p :: p in BaseOspf(x, n, k) + BaseIsis(x, n, k) && loc in p
  {
    var ospf, isis, log := BaseOspf(x, n, k), BaseIsis(x, n, k), BaseOspf(x, n, k) + BaseIsis(x, n, k);
    match loc.cell {
      case Ospf(_, _) => assert ospf[0] in log && loc in ospf[0];
      case OspfArea(_, _, _) => assert ospf[1] in log && loc in ospf[1];
      case OspfItf(_, _, _, _) => assert ospf[2] in log && loc in ospf[2];
      case Isis(_, _) => assert isis[0] in log && loc in isis[0];
      case IsisItf(_, _, _) => assert isis[1] in log && loc in isis[1];
    }
  }

  lemma NodeBgpIsWritten(x: Inputs, n: string, k: Node, loc: Loc, v: Val)
    requires NodeGives(x, n, k, loc, v)
    requires loc.cell.BgpAs? || loc.cell.BgpRouterId? || loc.cell.Policy? || loc.cell.BgpFamilies? ||
             loc.cell.SystemVpn?
    ensures exists p :: p in BaseBgp(x, n, k) && loc in p
  {
    var bgp, log := BgpSection(x, n, k), BaseBgp(x, n, k);
    assert bgp[0] in log && bgp[1] in log;
    assert x.design.ebgp.Some? ==> EbgpSection(x, n)[0] in log;
    assert x.design.ibgp.Some? ==> IbgpSection(x, n)[0] in log && IbgpSection(x, n)[1] in log;
    assert x.design.bgpEvpn ==> VpnSection(x, n)[0] in log;
    match loc.cell {
      case BgpAs(_) => assert loc in bgp[0];
      case BgpRouterId(_) => assert loc in bgp[1];
      case Policy(p) =>
        if p == "underlay" && x.design.ebgp.Some? {
          assert loc in EbgpSection(x, n)[0];
        } else {
          assert loc in IbgpSection(x, n)[0];
        }
      case BgpFamilies(_) => assert loc in IbgpSection(x, n)[1];
      case SystemVpn => assert loc in VpnSection(x, n)[0];
    }
  }

  /** Where a node's base configuration gives something, it writes. */
  lemma NodeGivenIsWritten(x: Inputs, n: string, k: Node, loc: Loc, v: Val)
    requires NodeGives(x, n, k, loc, v)
    ensures loc in BaseTree(x, n, k)
  {
    hide NodeGives, BaseHead, BaseInstance, BaseOspf, BaseIsis, BaseBgp, Merge;
    NodeCells(x, n, k, loc, v);
    var log := BaseLog(x, n, k);
    if loc.cell.Ospf? || loc.cell.OspfArea? || loc.cell.OspfItf? || loc.cell.Isis? || loc.cell.IsisItf? {
      NodeIgpIsWritten(x, n, k, loc, v);
      var p :| p in BaseOspf(x, n, k) + BaseIsis(x, n, k) && loc in p;
      InTree(log, p, loc);
    } else if loc.cell.BgpAs? || loc.cell.BgpRouterId? || loc.cell.Policy? || loc.cell.BgpFamilies? ||
      loc.cell.SystemVpn? {
      NodeBgpIsWritten(x, n, k, loc, v);
      var p :| p in BaseBgp(x, n, k) && loc in p;
      InTree(log, p, loc);
    } else {
      HeadIsWritten(x, n, k, loc, v);
      var p :| p in BaseHead(n, k) + BaseInstance(x, n) && loc in p;
      InTree(log, p, loc);
    }
  }

  lemma NodeCells(x: Inputs, n: string, k: Node, loc: Loc, v: Val)
    requires NodeGives(x, n, k, loc, v)
    ensures || loc.cell.Provider? || loc.cell.VlanTagging? || loc.cell.SubInterface? || loc.cell.Tunnel?
            || loc.cell.InstanceType? || loc.cell.InstanceItf?
            || loc.cell.Ospf? || loc.cell.OspfArea? || loc.cell.OspfItf? || loc.cell.Isis? || loc.cell.IsisItf?
            || loc.cell.BgpAs? || loc.cell.BgpRouterId? || loc.cell.Policy? || loc.cell.BgpFamilies? ||
               loc.cell.SystemVpn?
  {
  }

  // ---------------------------------------------------------------- what gathering a node gives

  /** The design gives nodes a loopback of the family. */
  predicate Loops(d: NetworkDesign, v4: bool) {
    match d.loopback
    case Some(DualStack) => true
    case Some(IPv4Numbered) => v4
    case Some(IPv6Numbered) => !v4
    case _ => false
  }

  /** The claims of a node, by the last part of their names. */
  function NodeClaimName(x: Inputs, n: string, last: string): string {
    x.netName + "." + n + "." + last
  }

  function RouterIdClaimName(x: Inputs, n: string): string {
    NodeClaimName(x, n, if Loops(x.design, true) then "ipv4" else "routerid")
  }

  /** The inventory has the node with a system id, and every claim that it needs has a value. */
  predicate NodeFound(x: Inputs, id: NodeId) {
    var key := x.topology + "." + id.kuid;
    && key in x.api.nodes && x.api.nodes[key].systemId.Some?
    && x.Ip(RouterIdClaimName(x, id.node)).Some?
    && (Loops(x.design, false) ==> x.Ip(NodeClaimName(x, id.node, "ipv6")).Some?)
    && (x.design.ebgp.Some? ==> x.Asn(x.netName + "." + id.node).Some?)
  }

  /** The node carries the values of its own claims and the inventory's provider, system id and role. */
  predicate NodeIs(x: Inputs, id: NodeId, k: Node) {
    var key, n := x.topology + "." + id.kuid, id.node;
    && key in x.api.nodes && k.id == id && k.provider == x.api.nodes[key].provider
    && Some(k.systemId) == x.api.nodes[key].systemId
    && (if Loops(x.design, true) then Some(k.ipv4) == x.Ip(NodeClaimName(x, n, "ipv4")) else k.ipv4 == "")
    && (if Loops(x.design, false) then Some(k.ipv6) == x.Ip(NodeClaimName(x, n, "ipv6")) else k.ipv6 == "")
    && k.routerId == x.api.addressOf(x.Ip(RouterIdClaimName(x, n)).GetOr(""))
    && k.asn == (if x.design.ebgp.Some? then AsNumber(x, n) else MeshAs(x))
    && (k.edge <==> x.api.nodes[key].deviceType == Some("edge") || x.api.nodes[key].deviceType == Some("pe"))
  }

  function MeshAs(x: Inputs): nat {
    if x.design.ibgp.Some? && x.design.ibgp.value.asn.Some? then x.design.ibgp.value.asn.value else 0
  }

  lemma NamesAgree(x: Inputs, n: string)
    ensures x.LoopbackClaim(n, true) == NodeClaimName(x, n, "ipv4") &&
            x.LoopbackClaim(n, false) == NodeClaimName(x, n, "ipv6")
    ensures x.RouterIdClaim(n) == NodeClaimName(x, n, "routerid") && x.NodeClaim(n) == x.netName + "." + n
  {
  }

  /** A node is added exactly when it is found and labelled, and then with these values. */
  lemma GatheredExactly(x: Inputs, id: NodeId)
    ensures !GatherNode(x, id).Missing? <==> NodeFound(x, id)
    ensures GatherNode(x, id).Found? <==>
              NodeFound(x, id) && x.api.nodes[x.topology + "." + id.kuid].deviceType.Some?
    ensures GatherNode(x, id).Found? ==> NodeIs(x, id, GatherNode(x, id).node)
  {
    hide Lookup, NodeClaimName, Inputs.LoopbackClaim, Inputs.RouterIdClaim, Inputs.NodeClaim;
    NamesAgree(x, id.node);
  }

  /** The claims that a link end needs, by name. */
  lemma EndClaimedExactly(x: Inputs, l: Link, i: bool)
    ensures EndClaimed(x, l.E(i)) <==>
              && (x.design.ebgp.Some? ==> x.Asn(x.netName + "." + l.Node(i)).Some?)
              && (forall v4 :: Numbers(x.design, v4) ==> x.Ip(EndClaimName(x, l, i, v4)).Some?)
  {
    hide Numbers, Inputs.Ip, Inputs.Asn;
    NamesAgree(x, l.Node(i));
    FamiliesAgree(x, true);
    FamiliesAgree(x, false);
    assert EndClaimName(x, l, i, true) == x.EndpointClaim(l.Node(i), l.Ep(i), true);
    assert EndClaimName(x, l, i, false) == x.EndpointClaim(l.Node(i), l.Ep(i), false);
  }

  // ---------------------------------------------------------------- what the mesh gives

  predicate Reflects(x: Inputs, r: string) {
    x.design.ibgp.Some? && r in x.design.ibgp.value.routeReflectors
  }

  function ReflectorAddress(x: Inputs, r: string): string {
    x.api.addressOf(x.Ip(r).GetOr(""))
  }

  /** The loopback address of the family in which the reflector peers. */
  function PeerAddress(x: Inputs, k: Node, r: string): string {
    x.api.addressOf(if x.api.isV4(x.Ip(r).GetOr("")) then k.ipv4 else k.ipv6)
  }

  function MeshNeighborValue(x: Inputs, local: string): Val {
    VNeighbor(local, "overlay", MeshAs(x), MeshAs(x), false)
  }

  /** What edge n gives for reflector r. */
  predicate EdgeGives(x: Inputs, ns: Nodes, n: string, r: string, loc: Loc, v: Val) {
    && n in ns && ns[n].edge && Reflects(x, r) && loc.node == n
    && match loc.cell
       case PeerGroup(ni, g) => ni == x.Ni() && g == "overlay" && v == VPeerGroup(x.design.overlayFamilies, None, false)
       case Neighbor(ni, peer) =>
         ni == x.Ni() && peer != "" && peer == ReflectorAddress(x, r) &&
           v == MeshNeighborValue(x, PeerAddress(x, ns[n], r))
       case _ => false
  }

  /** The reflector is named by one of the node's loopback claims. */
  predicate HostedOn(x: Inputs, r: string, n: string) {
    r == NodeClaimName(x, n, "ipv4") || r == NodeClaimName(x, n, "ipv6")
  }

  /** What the host n of reflector r gives: a group with its cluster id, and a neighbor for every edge. */
  ghost predicate HostGives(x: Inputs, ns: Nodes, n: string, r: string, loc: Loc, v: Val) {
    && n in ns && Reflects(x, r) && HostedOn(x, r, n) && loc.node == n
    && match loc.cell
       case PeerGroup(ni, g) =>
         ni == x.Ni() && g == "overlay" &&
           v == VPeerGroup(x.design.overlayFamilies, Some(ReflectorAddress(x, r)), false)
       case Neighbor(ni, peer) =>
         ni == x.Ni() && peer != "" && v == MeshNeighborValue(x, PeerAddress(x, ns[n], r)) &&
         exists e :: e in ns && ns[e].edge && peer == PeerAddress(x, ns[e], r)
       case _ => false
  }

  lemma EdgePatchOf(x: Inputs, ns: Nodes, n: string, r: string, p: Patch, loc: Loc)
    requires ReflectorsResolve(x) && n in ns && ns[n].edge && r in Reflectors(x) && loc in p
    requires p == EdgeGroup(x, n) || p == EdgeNeighbor(x, n, ns[n], Reflectors(x)[r])
    ensures EdgeGives(x, ns, n, r, loc, p[loc])
  {
    hide Inputs.Ni, Inputs.Ip;
  }

  lemma EdgePatchGives(x: Inputs, ns: Nodes, p: Patch, loc: Loc)
    requires IsEdgePatch(x, ns, p) && loc in p
    ensures exists n, r :: EdgeGives(x, ns, n, r, loc, p[loc])
  {
    hide EdgeGroup, EdgeNeighbor, EdgeGives;
    var n, r :| n in ns && ns[n].edge && r in Reflectors(x) &&
                (p == EdgeGroup(x, n) || p == EdgeNeighbor(x, n, ns[n], Reflectors(x)[r]));
    EdgePatchOf(x, ns, n, r, p, loc);
  }

  lemma EdgeGivenIsPatch(x: Inputs, ns: Nodes, n: string, r: string, loc: Loc, v: Val)
    requires ReflectorsResolve(x) && EdgeGives(x, ns, n, r, loc, v)
    ensures exists p :: IsEdgePatch(x, ns, p) && loc in p && p[loc] == v
  {
    assert r in Reflectors(x);
    if loc.cell.PeerGroup? {
      assert IsEdgePatch(x, ns, EdgeGroup(x, n)) && loc in EdgeGroup(x, n);
    } else {
      var p := EdgeNeighbor(x, n, ns[n], Reflectors(x)[r]);
      assert IsEdgePatch(x, ns, p) && loc in p;
    }
  }

  lemma HostGroupGives(x: Inputs, ns: Nodes, n: string, r: string, loc: Loc)
    requires ReflectorsResolve(x) && n in ns && r in Reflectors(x) && Hosts(x, n, r)
    requires loc in HostGroup(x, n, Reflectors(x)[r])
    ensures HostGives(x, ns, n, r, loc, HostGroup(x, n, Reflectors(x)[r])[loc])
  {
    hide Inputs.Ni, Inputs.Ip;
    NamesAgree(x, n);
  }

  lemma HostNeighborGives(x: Inputs, ns: Nodes, n: string, r: string, e: string, loc: Loc)
    requires ReflectorsResolve(x) && n in ns && r in Reflectors(x) && Hosts(x, n, r) && e in ns && ns[e].edge
    requires loc in HostNeighbor(x, n, ns[n], Reflectors(x)[r], ns[e])
    ensures HostGives(x, ns, n, r, loc, HostNeighbor(x, n, ns[n], Reflectors(x)[r], ns[e])[loc])
  {
    hide Inputs.Ni, Inputs.Ip;
    NamesAgree(x, n);
    assert loc.cell.peer == PeerAddress(x, ns[e], r);
  }

  lemma HostPatchGives(x: Inputs, ns: Nodes, p: Patch, loc: Loc)
    requires IsHostPatch(x, ns, p) && loc in p
    ensures exists n, r :: HostGives(x, ns, n, r, loc, p[loc])
  {
    hide HostGroup, HostNeighbor, HostGives, Hosts;
    var n, r :| n in ns && r in Reflectors(x) && Hosts(x, n, r) && IsHostPatchOf(x, ns, n, r, p);
    if p == HostGroup(x, n, Reflectors(x)[r]) {
      HostGroupGives(x, ns, n, r, loc);
    } else {
      var e :| e in ns && ns[e].edge && p == HostNeighbor(x, n, ns[n], Reflectors(x)[r], ns[e]);
      HostNeighborGives(x, ns, n, r, e, loc);
    }
  }

  lemma HostGivenIsPatch(x: Inputs, ns: Nodes, n: string, r: string, loc: Loc, v: Val)
    requires ReflectorsResolve(x) && HostGives(x, ns, n, r, loc, v)
    ensures exists p :: IsHostPatch(x, ns, p) && loc in p && p[loc] == v
  {
    NamesAgree(x, n);
    assert r in Reflectors(x) && Hosts(x, n, r);
    if loc.cell.PeerGroup? {
      var p := HostGroup(x, n, Reflectors(x)[r]);
      assert IsHostPatchOf(x, ns, n, r, p) && loc in p;
    } else {
      var e :| e in ns && ns[e].edge && loc.cell.peer == PeerAddress(x, ns[e], r);
      var p := HostNeighbor(x, n, ns[n], Reflectors(x)[r], ns[e]);
      assert IsHostPatchOf(x, ns, n, r, p) && loc in p;
    }
  }

  // ---------------------------------------------------------------- the whole underlay

  ghost predicate SomeHostGives(x: Inputs, ns: Nodes, loc: Loc, v: Val) {
    exists n, r :: HostGives(x, ns, n, r, loc, v)
  }

  ghost predicate SomeEdgeGives(x: Inputs, ns: Nodes, loc: Loc, v: Val) {
    exists n, r :: EdgeGives(x, ns, n, r, loc, v)
  }

  ghost predicate SomeEndGives(x: Inputs, links: seq<Link>, loc: Loc, v: Val) {
    exists l, i :: l in links && EndGives(x, l, i, loc, v)
  }

  predicate ItsNodeGives(x: Inputs, ns: Nodes, loc: Loc, v: Val) {
    loc.node in ns && NodeGives(x, loc.node, ns[loc.node], loc, v)
  }

  /** The entry at `loc` is what a host gives there, else an edge, else a link end, else its node, else absent. */
  ghost predicate EntryGiven(x: Inputs, links: seq<Link>, ns: Nodes, t: Tree, loc: Loc) {
    if exists v :: SomeHostGives(x, ns, loc, v) then loc in t && SomeHostGives(x, ns, loc, t[loc])
    else if exists v :: SomeEdgeGives(x, ns, loc, v) then loc in t && SomeEdgeGives(x, ns, loc, t[loc])
    else if exists v :: SomeEndGives(x, links, loc, v) then loc in t && SomeEndGives(x, links, loc, t[loc])
    else if exists v :: ItsNodeGives(x, ns, loc, v) then loc in t && ItsNodeGives(x, ns, loc, t[loc])
    else loc !in t
  }

  lemma MeshGives(x: Inputs, ns: Nodes, loc: Loc)
    requires ReflectorsResolve(x)
    ensures InHost(x, ns, loc) <==> exists v :: SomeHostGives(x, ns, loc, v)
    ensures InEdge(x, ns, loc) <==> exists v :: SomeEdgeGives(x, ns, loc, v)
    ensures forall p :: IsHostPatch(x, ns, p) && loc in p ==> SomeHostGives(x, ns, loc, p[loc])
    ensures forall p :: IsEdgePatch(x, ns, p) && loc in p ==> SomeEdgeGives(x, ns, loc, p[loc])
  {
    hide IsHostPatch, IsEdgePatch, HostGives, EdgeGives;
    forall p | IsHostPatch(x, ns, p) && loc in p
      ensures SomeHostGives(x, ns, loc, p[loc])
    {
      HostPatchGives(x, ns, p, loc);
    }
    forall p | IsEdgePatch(x, ns, p) && loc in p
      ensures SomeEdgeGives(x, ns, loc, p[loc])
    {
      EdgePatchGives(x, ns, p, loc);
    }
    if v, n, r :| HostGives(x, ns, n, r, loc, v) {
      HostGivenIsPatch(x, ns, n, r, loc, v);
    }
    if v, n, r :| EdgeGives(x, ns, n, r, loc, v) {
      EdgeGivenIsPatch(x, ns, n, r, loc, v);
    }
  }

  lemma LayersGive(x: Inputs, links: seq<Link>, ns: Nodes, t: Tree, loc: Loc)
    requires LayeredAt(x, links, ns, t, loc)
    ensures if exists v :: SomeEndGives(x, links, loc, v) then loc in t && SomeEndGives(x, links, loc, t[loc])
            else if exists v :: ItsNodeGives(x, ns, loc, v) then loc in t && ItsNodeGives(x, ns, loc, t[loc])
            else loc !in t
  {
    hide EndGives, NodeGives, ItfTree, BaseTree;
    if v, l, i :| l in links && EndGives(x, l, i, loc, v) {
      EndGivenIsWritten(x, l, i, loc, v);
      assert Touched(x, links, loc);
      var m, j :| m in links && loc in ItfTree(x, m, j) && ItfTree(x, m, j)[loc] == t[loc];
      EndTreeGives(x, m, j, loc);
    } else {
      if m, j :| m in links && loc in ItfTree(x, m, j) {
        EndTreeGives(x, m, j, loc);
        assert false;
      }
      if loc in t {
        NodeTreeGives(x, loc.node, ns[loc.node], loc);
      }
      if v :| ItsNodeGives(x, ns, loc, v) {
        NodeGivenIsWritten(x, loc.node, ns[loc.node], loc, v);
      }
    }
  }

  /**
   What a successful underlay holds, entry by entry: hosts of reflectors come before edges, edges before link ends and
   those before the base configuration of the node; the entry is there if and only if one of them gives it, and has the
   value that one of the first kind gives.
   */
  lemma UnderlayHolds(x: Inputs, links: seq<Link>, log: Log, e: Log, r: Log, loc: Loc)
    requires UnderlayLog(x, links, log, e, r)
    ensures EntryGiven(x, links, NodesOf(x, links), Merge(log), loc)
  {
    hide IsHostPatch, IsEdgePatch, SomeHostGives, SomeEdgeGives, SomeEndGives, ItsNodeGives, NodesOf, LinkLog, Merge;
    hide LayeredAt;
    BuildDecides(x, links, log, e, r, loc);
    MeshGives(x, NodesOf(x, links), loc);
    LinkTreeLayered(x, links, loc);
    LayersGive(x, links, NodesOf(x, links), Merge(LinkLog(x, links)), loc);
  }

  /** And every node that holds anything is one that some link end names, gathered with these values. */
  lemma NodesHold(x: Inputs, links: seq<Link>, n: string)
    requires n in NodesOf(x, links)
    ensures exists l, i ::
              l in links && l.Node(i) == n && NodeFound(x, l.E(i).id) && NodeIs(x, l.E(i).id, NodesOf(x, links)[n])
  {
    hide NodesOf, NodeFound, NodeIs;
    NodesAreGathered(x, links, n);
    var l, i :| l in links && l.Node(i) == n && GatherNode(x, l.E(i).id) == Found(NodesOf(x, links)[n]);
    GatheredExactly(x, l.E(i).id);
  }

  lemma MeshCells(x: Inputs, ns: Nodes, loc: Loc, v: Val)
    ensures SomeHostGives(x, ns, loc, v) || SomeEdgeGives(x, ns, loc, v) ==> loc.cell.PeerGroup? || loc.cell.Neighbor?
  {
  }

  /** The entry is of the sub-interface of end i. */
  predicate OfPort(l: Link, i: bool, c: Cell) {
    var port := Sub(l.Ep(i), 0);
    || c == SubInterface(port) || c == Bfd(port)
    || (c.InstanceItf? && c.sub == port) || (c.OspfItf? && c.sub == port) || (c.IsisItf? && c.sub == port)
    || (c.DynNeighbor? && c.sub == port)
  }

  /** Where each endpoint is on one link, what a link end gives its own sub-interface is final. */
  lemma PortKept(x: Inputs, links: seq<Link>, log: Log, e: Log, r: Log, l: Link, i: bool, loc: Loc, v: Val)
    requires UnderlayLog(x, links, log, e, r) && EndpointsDistinct(links) && l in links
    requires EndGives(x, l, i, loc, v) && OfPort(l, i, loc.cell)
    ensures loc in Merge(log) && EndGives(x, l, i, loc, Merge(log)[loc])
  {
    hide UnderlayLog, Merge, SomeHostGives, SomeEdgeGives, NodesOf;
    UnderlayHolds(x, links, log, e, r, loc);
    forall w
      ensures !SomeHostGives(x, NodesOf(x, links), loc, w) && !SomeEdgeGives(x, NodesOf(x, links), loc, w)
    {
      MeshCells(x, NodesOf(x, links), loc, w);
    }
    assert SomeEndGives(x, links, loc, v);
    var m, j :| m in links && EndGives(x, m, j, loc, Merge(log)[loc]);
    assert m.Node(j) == l.Node(i) && m.Ep(j) == l.Ep(i);
  }

  /** The final OSPF and IS-IS entries and the sub-interface of every link end, field by field. */
  lemma EndFields(x: Inputs, links: seq<Link>, log: Log, e: Log, r: Log, l: Link, i: bool)
    requires UnderlayLog(x, links, log, e, r) && EndpointsDistinct(links) && l in links
    ensures var t, port := Merge(log), Sub(l.Ep(i), 0);
            && (var loc := Loc(l.Node(i), SubInterface(port)); loc in t && SubGiven(x, l, i, t[loc]))
            && (forall o :: x.design.ospf == Some(o) ==>
                  var loc := Loc(l.Node(i),
                                 OspfItf(x.Ni(), Name(o.instance, "i1"), Name(l.protocols.ospfArea, o.area), port));
                  loc in t && OspfGiven(o, l, t[loc]))
            && (forall o :: x.design.isis == Some(o) ==>
                  var loc := Loc(l.Node(i), IsisItf(x.Ni(), Name(o.instance, "i1"), port));
                  loc in t && IsisGiven(x, o, l, t[loc]))
  {
    hide UnderlayLog, Merge, EndpointsDistinct, SubGiven, OspfGiven, IsisGiven, OspfValue, IsisValue, UnderlaySub,
         WithoutLevels;
    var port := Sub(l.Ep(i), 0);
    SubAgrees(x, l, i);
    PortKept(x, links, log, e, r, l, i, Loc(l.Node(i), SubInterface(port)), UnderlaySub(x, l, i));
    if x.design.ospf.Some? {
      var o := x.design.ospf.value;
      OspfAgrees(o, l);
      PortKept(x, links, log, e, r, l, i,
               Loc(l.Node(i), OspfItf(x.Ni(), Name(o.instance, "i1"), Name(l.protocols.ospfArea, o.area), port)),
               OspfValue(o, l));
    }
    if x.design.isis.Some? {
      var o := x.design.isis.value;
      IsisAgrees(x, o, l);
      PortKept(x, links, log, e, r, l, i, Loc(l.Node(i), IsisItf(x.Ni(), Name(o.instance, "i1"), port)),
               WithoutLevels(IsisValue(x, o, l)));
    }
  }

  /** A claim is found exactly when it is there, ready and has the value. */
  lemma LookupExactly<T>(claims: map<string, Claim<T>>, name: string, v: T)
    ensures Lookup(claims, name) == Some(v) <==> name in claims && claims[name] == Claim(true, Some(v))
  {
  }
}
