/**
 The device trees the builder fills, by path: every group of fields that one Add* method of
 pkg/devbuilder/devices.go assigns has a location. One Add* call is a patch, and a build is a log of patches.
 Module Devices holds the nested records and proves that they are what the merged patches say.
 */
module ConfigTree {
  import opened Options

  /** NetworkDeviceNetworkInstanceInterface: the name and id of a sub-interface. */
  datatype Sub = Sub(ifName: string, id: nat)

  /** Where in a device's tree an Add* method writes. `ni` is a network instance, `inst` a protocol instance. */
  datatype Cell =
    | Provider
    | VlanTagging(ifName: string)
    | SubInterface(sub: Sub)
    | Tunnel(ifName: string)
    | TunnelSub(sub: Sub)
    | InstanceType(ni: string)
    | InstanceItf(ni: string, sub: Sub)
    | InstanceVxlan(ni: string)
    | Bfd(sub: Sub)
    | Policy(policy: string)
    | Ospf(ni: string, inst: string)
    | OspfArea(ni: string, inst: string, area: string)
    | OspfItf(ni: string, inst: string, area: string, sub: Sub)
    | Isis(ni: string, inst: string)
    | IsisItf(ni: string, inst: string, sub: Sub)
    | BgpAs(ni: string)
    | BgpRouterId(ni: string)
    | BgpFamilies(ni: string)
    | Neighbor(ni: string, peer: string)
    | DynNeighbor(ni: string, sub: Sub)
    | PeerGroup(ni: string, group: string)
    | Evpn(ni: string)
    | Vpn(ni: string)
    | SystemVpn

  /** The network instance a cell lies in. */
  function InstanceOf(c: Cell): Option<string> {
    match c
    case InstanceType(ni) => Some(ni)
    case InstanceItf(ni, _) => Some(ni)
    case InstanceVxlan(ni) => Some(ni)
    case Ospf(ni, _) => Some(ni)
    case OspfArea(ni, _, _) => Some(ni)
    case OspfItf(ni, _, _, _) => Some(ni)
    case Isis(ni, _) => Some(ni)
    case IsisItf(ni, _, _) => Some(ni)
    case BgpAs(ni) => Some(ni)
    case BgpRouterId(ni) => Some(ni)
    case BgpFamilies(ni) => Some(ni)
    case Neighbor(ni, _) => Some(ni)
    case DynNeighbor(ni, _) => Some(ni)
    case PeerGroup(ni, _) => Some(ni)
    case Evpn(ni) => Some(ni)
    case Vpn(ni) => Some(ni)
    case _ => None
  }

  datatype Loc = Loc(node: string, cell: Cell)

  datatype Family = Family(name: string, rfc5549: bool)

  /** The settings of an IS-IS interface at one level. */
  datatype IsisLevel = IsisLevel(disable: bool, metric: nat, metricIpv6: nat)

  datatype Val =
    | VText(text: string)
    | VFlag(flag: bool)
    | VNum(num: nat)
    | VPresent
    | VSub(peerName: string, kind: string, vlan: Option<nat>, ipv4: Option<seq<string>>, ipv6: Option<seq<string>>)
    | VItf(itf: Sub)
    | VPolicy(prefixes4: seq<string>, prefixes6: seq<string>)
    | VOspf(version: string, routerId: string, ecmp: nat)
    | VOspfItf(netType: string, passive: bool, bfd: bool)
    | VIsis(level: string, areas: seq<string>, systemId: string, ecmp: nat, afs: seq<string>)
    | VIsisItf(bfd4: Option<bool>, bfd6: Option<bool>, netType: string, passive: bool,
               level1: Option<IsisLevel>, level2: Option<IsisLevel>)
    | VFamilies(families: seq<Family>)
    | VNeighbor(local: string, group: string, localAs: nat, peerAs: nat, bfd: bool)
    | VDynNeighbor(peerAs: nat, group: string)
    | VPeerGroup(families: seq<Family>, clusterId: Option<string>, bfd: bool)
    | VEvpn(evi: nat, ecmp: nat, vxlanItf: string)
    | VVpn(importTarget: string, exportTarget: string)

  type Tree = map<Loc, Val>
  type Patch = Tree
  type Log = seq<Patch>

  // ---------------------------------------------------------------- the Add* methods as patches

  function AddProvider(n: string, provider: string): Patch {
    map[Loc(n, Provider) := VText(provider)]
  }

  /** AddOrUpdateInterface returns early on an empty name. */
  function AddInterface(n: string, ifName: string): Patch {
    if ifName == "" then map[] else map[Loc(n, VlanTagging(ifName)) := VFlag(false)]
  }

  function AddSubInterface(n: string, sub: Sub, v: Val): Patch
    requires v.VSub?
  {
    (if v.vlan.Some? then map[Loc(n, VlanTagging(sub.ifName)) := VFlag(true)] else map[])
    + map[Loc(n, SubInterface(sub)) := v]
  }

  function AddTunnelInterface(n: string, ifName: string): Patch {
    if ifName == "" then map[] else map[Loc(n, Tunnel(ifName)) := VPresent]
  }

  /** Get-or-create makes the tunnel interface as well. */
  function AddTunnelSubInterface(n: string, sub: Sub, kind: string): Patch {
    map[Loc(n, Tunnel(sub.ifName)) := VPresent, Loc(n, TunnelSub(sub)) := VText(kind)]
  }

  function AddNetworkInstance(n: string, ni: string, kind: string): Patch {
    map[Loc(n, InstanceType(ni)) := VText(kind)]
  }

  function AddInstanceItf(n: string, ni: string, sub: Sub): Patch {
    map[Loc(n, InstanceItf(ni, sub)) := VPresent]
  }

  function AddInstanceVxlan(n: string, ni: string, sub: Sub): Patch {
    map[Loc(n, InstanceVxlan(ni)) := VItf(sub)]
  }

  /** The value is the shared BFD record: its timers are cells of the design, see BfdCells. */
  function AddBfdInterface(n: string, sub: Sub): Patch {
    if sub.ifName == "" then map[] else map[Loc(n, Bfd(sub)) := VPresent]
  }

  function AddRoutingPolicy(n: string, policy: string, p4: seq<string>, p6: seq<string>): Patch {
    map[Loc(n, Policy(policy)) := VPolicy(p4, p6)]
  }

  function AddOspfInstance(n: string, ni: string, inst: string, v: Val): Patch {
    map[Loc(n, Ospf(ni, inst)) := v]
  }

  function AddOspfArea(n: string, ni: string, inst: string, area: string): Patch {
    map[Loc(n, OspfArea(ni, inst, area)) := VPresent]
  }

  /** Get-or-create makes the area as well. */
  function AddOspfItf(n: string, ni: string, inst: string, area: string, sub: Sub, v: Val): Patch {
    map[Loc(n, OspfArea(ni, inst, area)) := VPresent, Loc(n, OspfItf(ni, inst, area, sub)) := v]
  }

  function AddIsisInstance(n: string, ni: string, inst: string, v: Val): Patch {
    map[Loc(n, Isis(ni, inst)) := v]
  }

  /** What AddOrUpdateNetworkInstanceProtocolISISInstanceInterface takes over: everything but the levels. */
  function WithoutLevels(v: Val): Val
    requires v.VIsisItf?
  {
    v.(level1 := None, level2 := None)
  }

  function AddIsisItf(n: string, ni: string, inst: string, sub: Sub, v: Val): Patch
    requires v.VIsisItf?
  {
    map[Loc(n, IsisItf(ni, inst, sub)) := WithoutLevels(v)]
  }

  function AddBgpAs(n: string, ni: string, asn: nat): Patch {
    map[Loc(n, BgpAs(ni)) := VNum(asn)]
  }

  function AddBgpRouterId(n: string, ni: string, id: string): Patch {
    map[Loc(n, BgpRouterId(ni)) := VText(id)]
  }

  function AddBgpFamilies(n: string, ni: string, fs: seq<Family>): Patch {
    map[Loc(n, BgpFamilies(ni)) := VFamilies(fs)]
  }

  /** AddOrUpdateNetworkInstanceProtocolBGNeighbor returns early on an empty peer address. */
  function AddNeighbor(n: string, ni: string, peer: string, v: Val): Patch {
    if peer == "" then map[] else map[Loc(n, Neighbor(ni, peer)) := v]
  }

  function AddDynNeighbor(n: string, ni: string, sub: Sub, v: Val): Patch {
    if sub.ifName == "" then map[] else map[Loc(n, DynNeighbor(ni, sub)) := v]
  }

  function AddPeerGroup(n: string, ni: string, group: string, v: Val): Patch {
    if group == "" then map[] else map[Loc(n, PeerGroup(ni, group)) := v]
  }

  function AddEvpn(n: string, ni: string, evi: nat, vxlanItf: string): Patch {
    map[Loc(n, Evpn(ni)) := VEvpn(evi, 2, vxlanItf)]
  }

  function AddVpn(n: string, ni: string, target: string): Patch {
    map[Loc(n, Vpn(ni)) := VVpn(target, target)]
  }

  function AddSystemVpn(n: string): Patch {
    map[Loc(n, SystemVpn) := VPresent]
  }

  // ---------------------------------------------------------------- logs

  /** The tree a log leaves: later patches overwrite earlier ones. */
  function Merge(log: Log): Tree {
    if log == [] then map[] else Merge(log[..|log| - 1]) + log[|log| - 1]
  }

  lemma {:induction false} MergeAppend(a: Log, b: Log)
    ensures Merge(a + b) == Merge(a) + Merge(b)
  {
    if b == [] {
      assert a + b == a;
    } else {
      var front := b[..|b| - 1];
      assert (a + b)[..|a + b| - 1] == a + front;
      MergeAppend(a, front);
    }
  }

  lemma TreesAssociate(t: Tree, a: Tree, b: Tree)
    ensures t + a + b == t + (a + b)
  {
    assert forall loc :: loc in t + a + b <==> loc in t + (a + b);
  }

  /** A location is in the tree exactly when some patch writes it; the last such patch gives its value. */
  lemma {:induction false} LastWriter(log: Log, loc: Loc) returns (i: int)
    ensures loc in Merge(log) <==> exists p :: p in log && loc in p
    ensures loc in Merge(log) ==>
              0 <= i < |log| && loc in log[i] && log[i][loc] == Merge(log)[loc] &&
              forall j :: i < j < |log| ==> loc !in log[j]
  {
    i := 0;
    if log != [] {
      var k := |log| - 1;
      assert log == log[..k] + [log[k]];
      if loc in log[k] {
        i := k;
      } else {
        i := LastWriter(log[..k], loc);
        assert forall p :: p in log && loc in p ==> p in log[..k];
      }
    }
  }

  /** All patches that write `loc` write `v` there, and at least one does. */
  ghost predicate Settles(log: Log, loc: Loc, v: Val) {
    (exists p :: p in log && loc in p) && forall p :: p in log && loc in p ==> p[loc] == v
  }

  lemma SettledValue(log: Log, loc: Loc, v: Val)
    requires Settles(log, loc, v)
    ensures loc in Merge(log) && Merge(log)[loc] == v
  {
    var i := LastWriter(log, loc);
  }

  ghost predicate Agree(p: Patch, q: Patch) {
    forall loc :: loc in p && loc in q ==> p[loc] == q[loc]
  }

  ghost predicate AllAgree(log: Log) {
    forall p, q :: p in log && q in log ==> Agree(p, q)
  }

  /** Patches that pairwise agree can be merged in any order and any number of times. */
  lemma MergeOrderFree(a: Log, b: Log)
    requires AllAgree(a) && forall p :: p in a <==> p in b
    ensures Merge(a) == Merge(b)
  {
    forall loc
      ensures loc in Merge(a) <==> loc in Merge(b)
      ensures loc in Merge(a) ==> Merge(a)[loc] == Merge(b)[loc]
    {
      var i := LastWriter(a, loc);
      var j := LastWriter(b, loc);
      if loc in Merge(a) {
        assert a[i] in a && a[i] in b && b[j] in b && b[j] in a;
        assert Agree(a[i], b[j]);
      }
    }
  }

  // ---------------------------------------------------------------- references inside a tree

  /** The sub-interface that an entry names, if its kind refers to one. */
  function Reference(c: Cell): Option<Sub> {
    match c
    case InstanceItf(_, sub) => Some(sub)
    case Bfd(sub) => Some(sub)
    case OspfItf(_, _, _, sub) => Some(sub)
    case IsisItf(_, _, sub) => Some(sub)
    case DynNeighbor(_, sub) => Some(sub)
    case _ => None
  }

  /** What the entry at `loc` refers to is declared on the same device. */
  predicate ResolvesAt(t: Tree, loc: Loc)
    requires loc in t
  {
    && (Reference(loc.cell).Some? ==> Loc(loc.node, SubInterface(Reference(loc.cell).value)) in t)
    && (loc.cell.InstanceVxlan? ==> t[loc].VItf? && Loc(loc.node, TunnelSub(t[loc].itf)) in t)
  }

  ghost predicate Resolves(t: Tree) {
    forall loc :: loc in t ==> ResolvesAt(t, loc)
  }

  /** After every single patch of the log, every reference in the tree resolves. */
  ghost predicate Grounded(log: Log) {
    forall k :: 0 <= k <= |log| ==> Resolves(Merge(log[..k]))
  }

  lemma ResolvesMerge(t: Tree, u: Tree)
    requires Resolves(t) && Resolves(u)
    ensures Resolves(t + u)
  {
    forall loc | loc in t + u
      ensures ResolvesAt(t + u, loc)
    {
      if loc in u {
        assert ResolvesAt(u, loc);
      } else {
        assert ResolvesAt(t, loc);
      }
    }
  }

  lemma GroundedAppend(a: Log, b: Log)
    requires Grounded(a) && Grounded(b)
    ensures Grounded(a + b)
  {
    forall k | 0 <= k <= |a + b|
      ensures Resolves(Merge((a + b)[..k]))
    {
      if k <= |a| {
        assert (a + b)[..k] == a[..k];
      } else {
        assert (a + b)[..k] == a + b[..k - |a|];
        MergeAppend(a, b[..k - |a|]);
        assert a[..|a|] == a;
        ResolvesMerge(Merge(a), Merge(b[..k - |a|]));
      }
    }
  }

  /** Every reference the patch makes is to something that `t` declares. */
  ghost predicate RefersInto(p: Patch, t: Tree) {
    forall loc :: loc in p ==>
      && (Reference(loc.cell).Some? ==> Loc(loc.node, SubInterface(Reference(loc.cell).value)) in t)
      && (loc.cell.InstanceVxlan? ==> p[loc].VItf? && Loc(loc.node, TunnelSub(p[loc].itf)) in t)
  }

  /** Appending patches that refer only into what is already declared keeps a log grounded. */
  lemma {:induction false} GroundedExtend(a: Log, b: Log)
    requires Grounded(a) && forall p :: p in b ==> RefersInto(p, Merge(a))
    ensures Grounded(a + b)
  {
    if b == [] {
      assert a + b == a;
    } else {
      var front, p := b[..|b| - 1], b[|b| - 1];
      GroundedExtend(a, front);
      var t := Merge(a + front);
      MergeAppend(a, front);
      assert (a + front)[..|a + front|] == a + front;
      assert RefersInto(p, Merge(a));
      forall loc | loc in t + p
        ensures ResolvesAt(t + p, loc)
      {
        if loc !in p {
          assert ResolvesAt(t, loc);
        }
      }
      forall k | 0 <= k <= |a + b|
        ensures Resolves(Merge((a + b)[..k]))
      {
        if k < |a + b| {
          assert (a + b)[..k] == (a + front)[..k];
        } else {
          assert (a + b)[..k][..k - 1] == a + front && (a + b)[..k][k - 1] == p;
        }
      }
    }
  }

  /** Every neighbor's peer group exists on its device and network instance. */
  predicate GroupsAt(t: Tree, loc: Loc)
    requires loc in t
  {
    && (loc.cell.Neighbor? ==> t[loc].VNeighbor? && Loc(loc.node, PeerGroup(loc.cell.ni, t[loc].group)) in t)
    && (loc.cell.DynNeighbor? ==> t[loc].VDynNeighbor? && Loc(loc.node, PeerGroup(loc.cell.ni, t[loc].group)) in t)
  }

  ghost predicate GroupsExist(t: Tree) {
    forall loc :: loc in t ==> GroupsAt(t, loc)
  }

  lemma GroupsMerge(t: Tree, u: Tree)
    requires GroupsExist(t) && GroupsExist(u)
    ensures GroupsExist(t + u)
  {
    forall loc | loc in t + u
      ensures GroupsAt(t + u, loc)
    {
      if loc in u {
        assert GroupsAt(u, loc);
      } else {
        assert GroupsAt(t, loc);
      }
    }
  }
}
