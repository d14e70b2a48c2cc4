/** What a base configuration and a link end can write, location by location, and what follows per log. */
module UnderlayEntries {
  import opened Options
  import opened ConfigTree
  import opened Design
  import opened Underlay

  /** The entries of a node's base configuration, as far as link ends can meet them. */
  predicate BaseEntry(n: string, loc: Loc, v: Val) {
    loc.node == n &&
    match loc.cell
    case VlanTagging(_) => v == VFlag(false)
    case SubInterface(s) => s == SYSTEM_SUB
    case InstanceItf(_, s) => s == SYSTEM_SUB
    case OspfArea(_, _, _) => v == VPresent
    case OspfItf(_, _, _, s) => s == SYSTEM_SUB
    case IsisItf(_, _, s) => s == SYSTEM_SUB
    case Provider => true
    case Tunnel(_) => true
    case InstanceType(_) => true
    case Policy(_) => true
    case Ospf(_, _) => true
    case Isis(_, _) => true
    case BgpAs(_) => true
    case BgpRouterId(_) => true
    case BgpFamilies(_) => true
    case SystemVpn => true
    case _ => false
  }

  /** The EBGP neighbor entry of a link end in one address family. */
  predicate NeighborEntry(x: Inputs, l: Link, i: bool, v4: bool, peer: string, v: Val) {
    && x.design.ebgp.Some? && Numbered(x, v4) && peer != "" && peer == AddressOf(x, l.E(!i), v4)
    && v == VNeighbor(AddressOf(x, l.E(i), v4), UNDERLAY, AsOf(x, l.Node(i)), AsOf(x, l.Node(!i)), BgpBfd(x, l))
  }

  /** The entries of a link end. */
  predicate ItfEntry(x: Inputs, l: Link, i: bool, loc: Loc, v: Val) {
    loc.node == l.Node(i) &&
    match loc.cell
    case VlanTagging(f) => f == l.Ep(i) && v == VFlag(false)
    case SubInterface(s) => s == EpSub(l, i) && v == UnderlaySub(x, l, i)
    case InstanceItf(_, s) => s == EpSub(l, i)
    case Bfd(s) => s == EpSub(l, i)
    case OspfArea(_, _, _) => v == VPresent
    case OspfItf(_, _, _, s) => s == EpSub(l, i)
    case IsisItf(_, _, s) => s == EpSub(l, i)
    case DynNeighbor(ni, s) => x.design.ebgp.Some? && ni == x.Ni() && s == EpSub(l, i) && v.VDynNeighbor? &&
                               v.group == UNDERLAY
    case Neighbor(ni, peer) => ni == x.Ni() &&
                               (NeighborEntry(x, l, i, true, peer, v) || NeighborEntry(x, l, i, false, peer, v))
    case PeerGroup(ni, g) => ni == x.Ni() && g == UNDERLAY &&
                             v == VPeerGroup(x.design.underlayFamilies, None, BgpBfd(x, l))
    case _ => false
  }

  ghost predicate BasePatches(n: string, log: Log) {
    forall p :: p in log ==> BasePatch(n, p)
  }

  ghost predicate BasePatch(n: string, p: Patch) {
    forall loc :: loc in p ==> BaseEntry(n, loc, p[loc])
  }

  ghost predicate ItfPatches(x: Inputs, l: Link, i: bool, log: Log) {
    forall p :: p in log ==> ItfPatch(x, l, i, p)
  }

  ghost predicate ItfPatch(x: Inputs, l: Link, i: bool, p: Patch) {
    forall loc :: loc in p ==> ItfEntry(x, l, i, loc, p[loc])
  }

  lemma BaseHeadPatches(x: Inputs, n: string, v: Node)
    ensures BasePatches(n, BaseHead(n, v)) && BasePatches(n, BaseInstance(x, n))
  {
  }

  lemma BaseOspfPatches(x: Inputs, n: string, v: Node)
    ensures BasePatches(n, BaseOspf(x, n, v)) && BasePatches(n, BaseIsis(x, n, v))
  {
  }

  lemma BaseBgpPatches(x: Inputs, n: string, v: Node)
    ensures BasePatches(n, BaseBgp(x, n, v))
  {
    assert BasePatches(n, BgpSection(x, n, v)) && BasePatches(n, EbgpSection(x, n));
    assert BasePatches(n, IbgpSection(x, n)) && BasePatches(n, VpnSection(x, n));
  }

  lemma BaseLogEntries(x: Inputs, n: string, v: Node)
    ensures BasePatches(n, BaseLog(x, n, v))
  {
    BaseHeadPatches(x, n, v);
    BaseOspfPatches(x, n, v);
    BaseBgpPatches(x, n, v);
  }

  lemma ItfCorePatches(x: Inputs, l: Link, i: bool)
    ensures ItfPatches(x, l, i, ItfCore(x, l, i)) && ItfPatches(x, l, i, ItfBfd(x, l, i))
  {
  }

  lemma ItfIgpPatches(x: Inputs, l: Link, i: bool)
    ensures ItfPatches(x, l, i, ItfOspf(x, l, i)) && ItfPatches(x, l, i, ItfIsis(x, l, i))
  {
  }

  lemma EbgpNeighborPatch(x: Inputs, l: Link, i: bool, v4: bool)
    requires x.design.ebgp.Some? && Numbered(x, v4)
    ensures ItfPatch(x, l, i, EbgpNeighbor(x, l, i, v4))
  {
  }

  lemma EbgpOtherPatches(x: Inputs, l: Link, i: bool)
    requires x.design.ebgp.Some?
    ensures ItfPatch(x, l, i, EbgpDynamic(x, l, i)) && ItfPatch(x, l, i, EbgpGroup(x, l, i))
  {
  }

  lemma ItfEbgpPatches(x: Inputs, l: Link, i: bool)
    ensures ItfPatches(x, l, i, ItfEbgp(x, l, i))
  {
    forall p | p in ItfEbgp(x, l, i)
      ensures ItfPatch(x, l, i, p)
    {
      EbgpOtherPatches(x, l, i);
      if p == EbgpNeighbor(x, l, i, true) && Numbered(x, true) {
        EbgpNeighborPatch(x, l, i, true);
      } else if p == EbgpNeighbor(x, l, i, false) && Numbered(x, false) {
        EbgpNeighborPatch(x, l, i, false);
      }
    }
  }

  lemma ItfLogEntries(x: Inputs, l: Link, i: bool)
    ensures ItfPatches(x, l, i, ItfLog(x, l, i))
  {
    ItfCorePatches(x, l, i);
    ItfIgpPatches(x, l, i);
    ItfEbgpPatches(x, l, i);
  }

  function BaseTree(x: Inputs, n: string, v: Node): Tree {
    Merge(BaseLog(x, n, v))
  }

  function ItfTree(x: Inputs, l: Link, i: bool): Tree {
    Merge(ItfLog(x, l, i))
  }

  lemma BaseTreeEntries(x: Inputs, n: string, v: Node, loc: Loc)
    requires loc in BaseTree(x, n, v)
    ensures BaseEntry(n, loc, BaseTree(x, n, v)[loc])
  {
    BaseLogEntries(x, n, v);
    var log := BaseLog(x, n, v);
    var k := LastWriter(log, loc);
    assert BasePatch(n, log[k]);
  }

  lemma ItfTreeEntries(x: Inputs, l: Link, i: bool, loc: Loc)
    requires loc in ItfTree(x, l, i)
    ensures ItfEntry(x, l, i, loc, ItfTree(x, l, i)[loc])
  {
    ItfLogEntries(x, l, i);
    var log := ItfLog(x, l, i);
    var k := LastWriter(log, loc);
    assert ItfPatch(x, l, i, log[k]);
  }

  // ---------------------------------------------------------------- references

  ghost predicate RefersToNothing(p: Patch) {
    forall loc :: loc in p ==> Reference(loc.cell).None? && !loc.cell.InstanceVxlan?
  }

  lemma GroundedHead(log: Log)
    requires forall p :: p in log ==> RefersToNothing(p)
    ensures Grounded(log)
  {
    assert Grounded([]);
    GroundedExtend([], log);
    assert [] + log == log;
  }

  lemma BaseHeadGrounded(n: string, v: Node)
    ensures Grounded(BaseHead(n, v)) && Loc(n, SubInterface(SYSTEM_SUB)) in Merge(BaseHead(n, v))
  {
    var head := BaseHead(n, v);
    GroundedHead(head);
    assert Loc(n, SubInterface(SYSTEM_SUB)) in head[3] && head[3] in head;
    var k := LastWriter(head, Loc(n, SubInterface(SYSTEM_SUB)));
  }

  lemma BaseRestGrounded(x: Inputs, n: string, v: Node, rest: Log)
    requires BasePatches(n, rest)
    ensures Grounded(BaseHead(n, v) + rest)
  {
    BaseHeadGrounded(n, v);
    forall p | p in rest
      ensures RefersInto(p, Merge(BaseHead(n, v)))
    {
      assert BasePatch(n, p);
    }
    GroundedExtend(BaseHead(n, v), rest);
  }

  lemma BaseGrounded(x: Inputs, n: string, v: Node)
    ensures Grounded(BaseLog(x, n, v))
  {
    BaseHeadPatches(x, n, v);
    BaseOspfPatches(x, n, v);
    BaseBgpPatches(x, n, v);
    var a, b, c, d := BaseInstance(x, n), BaseOspf(x, n, v), BaseIsis(x, n, v), BaseBgp(x, n, v);
    BaseRestGrounded(x, n, v, a + b + c + d);
    assert BaseHead(n, v) + a + b + c + d == BaseHead(n, v) + (a + b + c + d);
  }

  lemma ItfCoreGrounded(x: Inputs, l: Link, i: bool)
    ensures Grounded(ItfCore(x, l, i)) && Loc(l.Node(i), SubInterface(EpSub(l, i))) in Merge(ItfCore(x, l, i))
  {
    var n, ep := l.Node(i), EpSub(l, i);
    var head := [AddInterface(n, l.Ep(i)), AddSubInterface(n, ep, UnderlaySub(x, l, i))];
    GroundedHead(head);
    assert Loc(n, SubInterface(ep)) in head[1] && head[1] in head;
    var k := LastWriter(head, Loc(n, SubInterface(ep)));
    GroundedExtend(head, [AddInstanceItf(n, DEFAULT_NETWORK, ep)]);
    assert ItfCore(x, l, i) == head + [AddInstanceItf(n, DEFAULT_NETWORK, ep)];
    MergeAppend(head, [AddInstanceItf(n, DEFAULT_NETWORK, ep)]);
  }

  lemma SubInterfaceOfEnd(x: Inputs, l: Link, i: bool)
    ensures Loc(l.Node(i), SubInterface(EpSub(l, i))) in ItfTree(x, l, i)
  {
    ItfCoreGrounded(x, l, i);
    MergeAppend(ItfCore(x, l, i), ItfProtocols(x, l, i));
  }

  lemma ItfPatchRefers(x: Inputs, l: Link, i: bool, p: Patch, t: Tree)
    requires ItfPatch(x, l, i, p) && Loc(l.Node(i), SubInterface(EpSub(l, i))) in t
    ensures RefersInto(p, t)
  {
    forall loc | loc in p
      ensures Reference(loc.cell).Some? ==> Loc(loc.node, SubInterface(Reference(loc.cell).value)) in t
      ensures !loc.cell.InstanceVxlan?
    {
      assert ItfEntry(x, l, i, loc, p[loc]);
    }
  }

  lemma ItfGrounded(x: Inputs, l: Link, i: bool)
    ensures Grounded(ItfLog(x, l, i))
  {
    ItfCorePatches(x, l, i);
    ItfIgpPatches(x, l, i);
    ItfEbgpPatches(x, l, i);
    ItfCoreGrounded(x, l, i);
    forall p | p in ItfProtocols(x, l, i)
      ensures RefersInto(p, Merge(ItfCore(x, l, i)))
    {
      ItfPatchRefers(x, l, i, p, Merge(ItfCore(x, l, i)));
    }
    GroundedExtend(ItfCore(x, l, i), ItfProtocols(x, l, i));
  }

  /** By the end of a per-interface function every neighbor's peer group exists. */
  lemma ItfGroups(x: Inputs, l: Link, i: bool)
    ensures GroupsExist(ItfTree(x, l, i))
  {
    var log, t := ItfLog(x, l, i), ItfTree(x, l, i);
    forall loc | loc in t
      ensures GroupsAt(t, loc)
    {
      ItfTreeEntries(x, l, i, loc);
      if loc.cell.Neighbor? || loc.cell.DynNeighbor? {
        assert EbgpGroup(x, l, i) in ItfEbgp(x, l, i);
        var m := LastWriter(log, Loc(l.Node(i), PeerGroup(x.Ni(), UNDERLAY)));
      }
    }
  }
}
