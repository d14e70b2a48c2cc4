/**
 The nested records of pkg/devbuilder/devices.go and apis/network/v1alpha1/device.go, and the Add* methods that
 get or create their way down and assign fields. Each sorted list is held as the map it stands for, see
 KeyedList; the unsorted interface list of a network instance keeps its order, see InterfaceList.
 */
module Devices {
  import opened Options
  import opened ConfigTree
  import opened InterfaceList

  datatype Interface = Interface(tagging: Option<bool>, subs: map<nat, Val>)

  datatype OspfInstance = OspfInstance(settings: Option<Val>, areas: map<string, map<Sub, Val>>)

  datatype IsisInstance = IsisInstance(settings: Option<Val>, itfs: map<Sub, Val>)

  datatype Bgp = Bgp(asn: Option<nat>, routerId: Option<string>, families: Option<seq<Family>>,
                     neighbors: map<string, Val>, dynamic: map<Sub, Val>, groups: map<string, Val>)

  datatype Instance = Instance(kind: Option<string>, itfs: seq<Sub>, vxlan: Option<Sub>,
                               ospf: map<string, OspfInstance>, isis: map<string, IsisInstance>,
                               bgp: Bgp, evpn: Option<Val>, vpn: Option<Val>)

  datatype Device = Device(provider: Option<string>, interfaces: map<string, Interface>,
                           tunnels: map<string, map<nat, string>>, instances: map<string, Instance>,
                           bfd: set<Sub>, policies: map<string, Val>, systemVpn: bool)

  const NO_INTERFACE := Interface(None, map[])
  const NO_OSPF := OspfInstance(None, map[])
  const NO_ISIS := IsisInstance(None, map[])
  const NO_ISIS_ITF := VIsisItf(None, None, "", false, None, None)
  const NO_BGP := Bgp(None, None, None, map[], map[], map[])
  const NO_INSTANCE := Instance(None, [], None, map[], map[], NO_BGP, None, None)
  const NO_DEVICE := Device(None, map[], map[], map[], {}, map[], false)

  /** Get or create: the entry of a key, or a blank one. */
  function Get<K, V>(m: map<K, V>, k: K, blank: V): V {
    if k in m then m[k] else blank
  }

  function Find<K, V>(m: map<K, V>, k: K): Option<V> {
    if k in m then Some(m[k]) else None
  }

  function Present(b: bool): Option<Val> {
    if b then Some(VPresent) else None
  }

  function AtOspf(o: OspfInstance, c: Cell): Option<Val> {
    match c
    case Ospf(_, _) => o.settings
    case OspfArea(_, _, area) => Present(area in o.areas)
    case OspfItf(_, _, area, sub) => Find(Get(o.areas, area, map[]), sub)
    case _ => None
  }

  function AtIsis(o: IsisInstance, c: Cell): Option<Val> {
    match c
    case Isis(_, _) => o.settings
    case IsisItf(_, _, sub) => Find(o.itfs, sub)
    case _ => None
  }

  function AtBgp(b: Bgp, c: Cell): Option<Val> {
    match c
    case BgpAs(_) => if b.asn.Some? then Some(VNum(b.asn.value)) else None
    case BgpRouterId(_) => if b.routerId.Some? then Some(VText(b.routerId.value)) else None
    case BgpFamilies(_) => if b.families.Some? then Some(VFamilies(b.families.value)) else None
    case Neighbor(_, peer) => Find(b.neighbors, peer)
    case DynNeighbor(_, sub) => Find(b.dynamic, sub)
    case PeerGroup(_, group) => Find(b.groups, group)
    case _ => None
  }

  function AtInstance(i: Instance, c: Cell): Option<Val> {
    match c
    case InstanceType(_) => if i.kind.Some? then Some(VText(i.kind.value)) else None
    case InstanceItf(_, sub) => Present(sub in i.itfs)
    case InstanceVxlan(_) => if i.vxlan.Some? then Some(VItf(i.vxlan.value)) else None
    case Ospf(_, inst) => AtOspf(Get(i.ospf, inst, NO_OSPF), c)
    case OspfArea(_, inst, _) => AtOspf(Get(i.ospf, inst, NO_OSPF), c)
    case OspfItf(_, inst, _, _) => AtOspf(Get(i.ospf, inst, NO_OSPF), c)
    case Isis(_, inst) => AtIsis(Get(i.isis, inst, NO_ISIS), c)
    case IsisItf(_, inst, _) => AtIsis(Get(i.isis, inst, NO_ISIS), c)
    case Evpn(_) => i.evpn
    case Vpn(_) => i.vpn
    case _ => AtBgp(i.bgp, c)
  }

  /** What a device record holds at a cell. */
  function At(d: Device, c: Cell): Option<Val> {
    if InstanceOf(c).Some? then AtInstance(Get(d.instances, InstanceOf(c).value, NO_INSTANCE), c)
    else
      match c
      case Provider => if d.provider.Some? then Some(VText(d.provider.value)) else None
      case VlanTagging(f) =>
        var tagging := Get(d.interfaces, f, NO_INTERFACE).tagging;
        if tagging.Some? then Some(VFlag(tagging.value)) else None
      case SubInterface(s) => Find(Get(d.interfaces, s.ifName, NO_INTERFACE).subs, s.id)
      case Tunnel(f) => Present(f in d.tunnels)
      case TunnelSub(s) =>
        var kind := Find(Get(d.tunnels, s.ifName, map[]), s.id);
        if kind.Some? then Some(VText(kind.value)) else None
      case Bfd(s) => Present(s in d.bfd)
      case Policy(p) => Find(d.policies, p)
      case SystemVpn => Present(d.systemVpn)
      case _ => None
  }

  /** `e` is `d` after the patch, at every cell. */
  ghost predicate Patched(d: Device, e: Device, n: string, p: Patch) {
    && (forall loc :: loc in p ==> loc.node == n)
    && forall c :: At(e, c) == if Loc(n, c) in p then Some(p[Loc(n, c)]) else At(d, c)
  }

  ghost predicate InstancePatched(i: Instance, j: Instance, n: string, ni: string, p: Patch) {
    && (forall loc :: loc in p ==> loc.node == n && InstanceOf(loc.cell) == Some(ni))
    && forall c :: InstanceOf(c) == Some(ni) ==>
                     AtInstance(j, c) == if Loc(n, c) in p then Some(p[Loc(n, c)]) else AtInstance(i, c)
  }

  lemma PatchInstance(d: Device, n: string, ni: string, j: Instance, p: Patch)
    requires InstancePatched(Get(d.instances, ni, NO_INSTANCE), j, n, ni, p)
    ensures Patched(d, d.(instances := d.instances[ni := j]), n, p)
  {
    hide AtInstance;
    var e := d.(instances := d.instances[ni := j]);
    forall c
      ensures At(e, c) == if Loc(n, c) in p then Some(p[Loc(n, c)]) else At(d, c)
    {
      if InstanceOf(c) == Some(ni) {
        assert At(e, c) == AtInstance(j, c);
      }
    }
  }

  function OspfOf(c: Cell): Option<string> {
    match c
    case Ospf(_, inst) => Some(inst)
    case OspfArea(_, inst, _) => Some(inst)
    case OspfItf(_, inst, _, _) => Some(inst)
    case _ => None
  }

  ghost predicate OspfPatched(o: OspfInstance, q: OspfInstance, n: string, ni: string, inst: string, p: Patch) {
    && (forall loc :: loc in p ==> loc.node == n && InstanceOf(loc.cell) == Some(ni) && OspfOf(loc.cell) == Some(inst))
    && forall c :: InstanceOf(c) == Some(ni) && OspfOf(c) == Some(inst) ==>
                     AtOspf(q, c) == if Loc(n, c) in p then Some(p[Loc(n, c)]) else AtOspf(o, c)
  }

  lemma PatchOspf(i: Instance, n: string, ni: string, inst: string, q: OspfInstance, p: Patch)
    requires OspfPatched(Get(i.ospf, inst, NO_OSPF), q, n, ni, inst, p)
    ensures InstancePatched(i, i.(ospf := i.ospf[inst := q]), n, ni, p)
  {
    hide AtOspf, AtIsis, AtBgp;
    var j := i.(ospf := i.ospf[inst := q]);
    forall c | InstanceOf(c) == Some(ni)
      ensures AtInstance(j, c) == if Loc(n, c) in p then Some(p[Loc(n, c)]) else AtInstance(i, c)
    {
      if OspfOf(c) == Some(inst) {
        assert AtInstance(j, c) == AtOspf(q, c);
      }
    }
  }

  lemma OspfItfPatched(o: OspfInstance, n: string, ni: string, inst: string, area: string, sub: Sub, v: Val)
    ensures OspfPatched(o, o.(areas := o.areas[area := Get(o.areas, area, map[])[sub := v]]), n, ni, inst,
                        AddOspfItf(n, ni, inst, area, sub, v))
  {
    var q, p := o.(areas := o.areas[area := Get(o.areas, area, map[])[sub := v]]),
        AddOspfItf(n, ni, inst, area, sub, v);
    assert p.Keys == {Loc(n, OspfArea(ni, inst, area)), Loc(n, OspfItf(ni, inst, area, sub))};
    assert p[Loc(n, OspfArea(ni, inst, area))] == VPresent && p[Loc(n, OspfItf(ni, inst, area, sub))] == v;
    hide AddOspfItf;
    forall c | InstanceOf(c) == Some(ni) && OspfOf(c) == Some(inst)
      ensures AtOspf(q, c) == if Loc(n, c) in p then Some(p[Loc(n, c)]) else AtOspf(o, c)
    {
    }
  }

  /** An interface entry with the sub-interface replaced, and tagged when that has a VLAN. */
  function WithSub(itf: Interface, id: nat, v: Val): Interface
    requires v.VSub?
  {
    Interface(if v.vlan.Some? then Some(true) else itf.tagging, itf.subs[id := v])
  }

  lemma SubPatch(n: string, sub: Sub, v: Val)
    requires v.VSub?
    ensures var p, vlan := ConfigTree.AddSubInterface(n, sub, v), Loc(n, VlanTagging(sub.ifName));
            && p.Keys == {Loc(n, SubInterface(sub))} + (if v.vlan.Some? then {vlan} else {})
            && p[Loc(n, SubInterface(sub))] == v && (v.vlan.Some? ==> p[vlan] == VFlag(true))
  {
  }

  lemma SubPatched(d: Device, n: string, sub: Sub, v: Val)
    requires v.VSub?
    ensures Patched(d, d.(interfaces :=
                          d.interfaces[sub.ifName := WithSub(Get(d.interfaces, sub.ifName, NO_INTERFACE), sub.id, v)]),
                    n, ConfigTree.AddSubInterface(n, sub, v))
  {
    hide ConfigTree.AddSubInterface, AtInstance;
    SubPatch(n, sub, v);
    var p, itf := ConfigTree.AddSubInterface(n, sub, v),
        WithSub(Get(d.interfaces, sub.ifName, NO_INTERFACE), sub.id, v);
    var e := d.(interfaces := d.interfaces[sub.ifName := itf]);
    forall c
      ensures At(e, c) == if Loc(n, c) in p then Some(p[Loc(n, c)]) else At(d, c)
    {
      SubPatchedAt(d, n, sub, v, c);
    }
  }

  lemma SubPatchedAt(d: Device, n: string, sub: Sub, v: Val, c: Cell)
    requires v.VSub?
    ensures At(d.(interfaces :=
                  d.interfaces[sub.ifName := WithSub(Get(d.interfaces, sub.ifName, NO_INTERFACE), sub.id, v)]), c) ==
            if c == SubInterface(sub) then Some(v)
            else if c == VlanTagging(sub.ifName) && v.vlan.Some? then Some(VFlag(true))
            else At(d, c)
  {
    hide AtInstance;
  }

  /** No protocol instance without content is left behind, and no interface is listed twice. */
  predicate CompactInstance(i: Instance) {
    && Distinct(i.itfs)
    && (forall inst :: inst in i.ospf ==> i.ospf[inst] != NO_OSPF)
    && (forall inst :: inst in i.isis ==> i.isis[inst] != NO_ISIS && NoLevels(i.isis[inst]))
  }

  /** No IS-IS interface has settings at a level. */
  predicate NoLevels(o: IsisInstance) {
    forall sub :: sub in o.itfs ==> o.itfs[sub].VIsisItf? && o.itfs[sub].level1.None? && o.itfs[sub].level2.None?
  }

  predicate Compact(d: Device) {
    && (forall f :: f in d.interfaces ==> d.interfaces[f] != NO_INTERFACE)
    && (forall ni :: ni in d.instances ==> CompactInstance(d.instances[ni]))
  }

  lemma BlankIsCompact()
    ensures CompactInstance(NO_INSTANCE) && Compact(NO_DEVICE)
  {
  }

  lemma ItfsHaveNoLevels(i: Instance, inst: string, sub: Sub)
    requires CompactInstance(i)
    ensures var itf := Get(Get(i.isis, inst, NO_ISIS).itfs, sub, NO_ISIS_ITF);
            itf.VIsisItf? && itf.level1 == None && itf.level2 == None
  {
  }

  function WithIsisItf(i: Instance, inst: string, sub: Sub, v: Val): Instance {
    var o := Get(i.isis, inst, NO_ISIS);
    i.(isis := i.isis[inst := o.(itfs := o.itfs[sub := v])])
  }

  lemma IsisItfPatched(i: Instance, n: string, ni: string, inst: string, sub: Sub, v: Val)
    requires v.VIsisItf?
    ensures InstancePatched(i, WithIsisItf(i, inst, sub, WithoutLevels(v)), n, ni, AddIsisItf(n, ni, inst, sub, v))
  {
    hide WithoutLevels;
  }

  lemma IsisItfCompact(i: Instance, inst: string, sub: Sub, v: Val)
    requires v.VIsisItf? && CompactInstance(i)
    ensures CompactInstance(WithIsisItf(i, inst, sub, WithoutLevels(v)))
  {
    assert sub in WithIsisItf(i, inst, sub, WithoutLevels(v)).isis[inst].itfs;
  }

  class Devices {
    var devices: map<string, Device>
    /** The patches of the calls so far. */
    ghost var log: Log

    /** At every node and cell the records hold what the merged patches say. */
    ghost predicate Valid()
      reads this
    {
      && (forall n, c :: At(Get(devices, n, NO_DEVICE), c) == Find(Merge(log), Loc(n, c)))
      && (forall n :: Compact(Get(devices, n, NO_DEVICE)))
    }

    constructor ()
      ensures Valid() && log == [] && devices == map[]
    {
      devices, log := map[], [];
    }

    method Store(n: string, d: Device, ghost p: Patch)
      requires Valid() && Patched(Get(devices, n, NO_DEVICE), d, n, p)
      requires Compact(Get(devices, n, NO_DEVICE)) ==> Compact(d)
      modifies this
      ensures Valid() && log == old(log) + [p] && devices == old(devices)[n := d]
    {
      hide At, Compact;
      devices := devices[n := d];
      log := log + [p];
      assert log[..|log| - 1] == old(log);
      forall m
        ensures Compact(Get(devices, m, NO_DEVICE))
      {
        assert Get(devices, m, NO_DEVICE) == if m == n then d else Get(old(devices), m, NO_DEVICE);
      }
    }

    method StoreInstance(n: string, ni: string, j: Instance, ghost p: Patch)
      requires Valid() && InstancePatched(Get(Get(devices, n, NO_DEVICE).instances, ni, NO_INSTANCE), j, n, ni, p)
      requires CompactInstance(Get(Get(devices, n, NO_DEVICE).instances, ni, NO_INSTANCE)) ==> CompactInstance(j)
      modifies this
      ensures Valid() && log == old(log) + [p]
    {
      hide At, AtInstance, CompactInstance, Valid;
      var d := Get(devices, n, NO_DEVICE);
      BlankIsCompact();
      PatchInstance(d, n, ni, j, p);
      Store(n, d.(instances := d.instances[ni := j]), p);
    }

    method AddProvider(n: string, provider: string)
      requires Valid()
      modifies this
      ensures Valid() && log == old(log) + [ConfigTree.AddProvider(n, provider)]
    {
      hide Valid, AtInstance;
      var d := Get(devices, n, NO_DEVICE);
      Store(n, d.(provider := Some(provider)), ConfigTree.AddProvider(n, provider));
    }

    /** The entry is created unless its name is empty, and loses its VLAN tagging. */
    method AddInterface(n: string, ifName: string)
      requires Valid()
      modifies this
      ensures Valid() && log == old(log) + [ConfigTree.AddInterface(n, ifName)]
    {
      hide Valid, AtInstance;
      var d := Get(devices, n, NO_DEVICE);
      if ifName != "" {
        var itf := Get(d.interfaces, ifName, NO_INTERFACE);
        d := d.(interfaces := d.interfaces[ifName := itf.(tagging := Some(false))]);
      }
      Store(n, d, ConfigTree.AddInterface(n, ifName));
    }

    method AddSubInterface(n: string, sub: Sub, v: Val)
      requires Valid() && v.VSub?
      modifies this
      ensures Valid() && log == old(log) + [ConfigTree.AddSubInterface(n, sub, v)]
    {
      hide Valid, At, Patched, ConfigTree.AddSubInterface;
      var d := Get(devices, n, NO_DEVICE);
      SubPatched(d, n, sub, v);
      var itf := Get(d.interfaces, sub.ifName, NO_INTERFACE);
      if v.vlan.Some? {
        itf := itf.(tagging := Some(true));
      }
      itf := itf.(subs := itf.subs[sub.id := v]);
      assert sub.id in itf.subs;
      Store(n, d.(interfaces := d.interfaces[sub.ifName := itf]), ConfigTree.AddSubInterface(n, sub, v));
    }

    method AddTunnelInterface(n: string, ifName: string)
      requires Valid()
      modifies this
      ensures Valid() && log == old(log) + [ConfigTree.AddTunnelInterface(n, ifName)]
    {
      hide Valid, AtInstance;
      var d := Get(devices, n, NO_DEVICE);
      if ifName != "" {
        d := d.(tunnels := d.tunnels[ifName := Get(d.tunnels, ifName, map[])]);
      }
      Store(n, d, ConfigTree.AddTunnelInterface(n, ifName));
    }

    method AddTunnelSubInterface(n: string, sub: Sub, kind: string)
      requires Valid()
      modifies this
      ensures Valid() && log == old(log) + [ConfigTree.AddTunnelSubInterface(n, sub, kind)]
    {
      hide Valid, AtInstance;
      var d := Get(devices, n, NO_DEVICE);
      var subs := Get(d.tunnels, sub.ifName, map[]);
      Store(n, d.(tunnels := d.tunnels[sub.ifName := subs[sub.id := kind]]),
            ConfigTree.AddTunnelSubInterface(n, sub, kind));
    }

    method AddBfdInterface(n: string, sub: Sub)
      requires Valid()
      modifies this
      ensures Valid() && log == old(log) + [ConfigTree.AddBfdInterface(n, sub)]
    {
      hide Valid, AtInstance;
      var d := Get(devices, n, NO_DEVICE);
      if sub.ifName != "" {
        d := d.(bfd := d.bfd + {sub});
      }
      Store(n, d, ConfigTree.AddBfdInterface(n, sub));
    }

    method AddRoutingPolicy(n: string, policy: string, p4: seq<string>, p6: seq<string>)
      requires Valid()
      modifies this
      ensures Valid() && log == old(log) + [ConfigTree.AddRoutingPolicy(n, policy, p4, p6)]
    {
      hide Valid, AtInstance;
      var d := Get(devices, n, NO_DEVICE);
      Store(n, d.(policies := d.policies[policy := VPolicy(p4, p6)]), ConfigTree.AddRoutingPolicy(n, policy, p4, p6));
    }

    method AddSystemVpn(n: string)
      requires Valid()
      modifies this
      ensures Valid() && log == old(log) + [ConfigTree.AddSystemVpn(n)]
    {
      hide Valid, AtInstance;
      var d := Get(devices, n, NO_DEVICE);
      Store(n, d.(systemVpn := true), ConfigTree.AddSystemVpn(n));
    }

    // -------------------------------------------------------------- network instances

    function InstanceAt(n: string, ni: string): Instance
      reads this
    {
      Get(Get(devices, n, NO_DEVICE).instances, ni, NO_INSTANCE)
    }

    method AddNetworkInstance(n: string, ni: string, kind: string)
      requires Valid()
      modifies this
      ensures Valid() && log == old(log) + [ConfigTree.AddNetworkInstance(n, ni, kind)]
    {
      hide Valid;
      StoreInstance(n, ni, InstanceAt(n, ni).(kind := Some(kind)), ConfigTree.AddNetworkInstance(n, ni, kind));
    }

    method AddInstanceItf(n: string, ni: string, sub: Sub)
      requires Valid()
      modifies this
      ensures Valid() && log == old(log) + [ConfigTree.AddInstanceItf(n, ni, sub)]
    {
      hide Valid;
      var i := InstanceAt(n, ni);
      StoreInstance(n, ni, i.(itfs := Added(i.itfs, sub)), ConfigTree.AddInstanceItf(n, ni, sub));
    }

    method AddInstanceVxlan(n: string, ni: string, sub: Sub)
      requires Valid()
      modifies this
      ensures Valid() && log == old(log) + [ConfigTree.AddInstanceVxlan(n, ni, sub)]
    {
      hide Valid;
      StoreInstance(n, ni, InstanceAt(n, ni).(vxlan := Some(sub)), ConfigTree.AddInstanceVxlan(n, ni, sub));
    }

    method AddEvpn(n: string, ni: string, evi: nat, vxlanItf: string)
      requires Valid()
      modifies this
      ensures Valid() && log == old(log) + [ConfigTree.AddEvpn(n, ni, evi, vxlanItf)]
    {
      hide Valid;
      StoreInstance(n, ni, InstanceAt(n, ni).(evpn := Some(VEvpn(evi, 2, vxlanItf))),
                    ConfigTree.AddEvpn(n, ni, evi, vxlanItf));
    }

    method AddVpn(n: string, ni: string, target: string)
      requires Valid()
      modifies this
      ensures Valid() && log == old(log) + [ConfigTree.AddVpn(n, ni, target)]
    {
      hide Valid;
      StoreInstance(n, ni, InstanceAt(n, ni).(vpn := Some(VVpn(target, target))), ConfigTree.AddVpn(n, ni, target));
    }

    method StoreOspf(n: string, ni: string, inst: string, q: OspfInstance, ghost p: Patch)
      requires Valid() && OspfPatched(Get(InstanceAt(n, ni).ospf, inst, NO_OSPF), q, n, ni, inst, p) && q != NO_OSPF
      modifies this
      ensures Valid() && log == old(log) + [p]
    {
      hide Valid, AtInstance, AtOspf;
      var i := InstanceAt(n, ni);
      PatchOspf(i, n, ni, inst, q, p);
      StoreInstance(n, ni, i.(ospf := i.ospf[inst := q]), p);
    }

    method AddOspfInstance(n: string, ni: string, inst: string, v: Val)
      requires Valid()
      modifies this
      ensures Valid() && log == old(log) + [ConfigTree.AddOspfInstance(n, ni, inst, v)]
    {
      hide Valid;
      var o := Get(InstanceAt(n, ni).ospf, inst, NO_OSPF);
      StoreOspf(n, ni, inst, o.(settings := Some(v)), ConfigTree.AddOspfInstance(n, ni, inst, v));
    }

    method AddOspfArea(n: string, ni: string, inst: string, area: string)
      requires Valid()
      modifies this
      ensures Valid() && log == old(log) + [ConfigTree.AddOspfArea(n, ni, inst, area)]
    {
      hide Valid;
      var o := Get(InstanceAt(n, ni).ospf, inst, NO_OSPF);
      o := o.(areas := o.areas[area := Get(o.areas, area, map[])]);
      StoreOspf(n, ni, inst, o, ConfigTree.AddOspfArea(n, ni, inst, area));
    }

    method AddOspfItf(n: string, ni: string, inst: string, area: string, sub: Sub, v: Val)
      requires Valid()
      modifies this
      ensures Valid() && log == old(log) + [ConfigTree.AddOspfItf(n, ni, inst, area, sub, v)]
    {
      hide Valid, AtOspf, ConfigTree.AddOspfItf;
      var o := Get(InstanceAt(n, ni).ospf, inst, NO_OSPF);
      o := o.(areas := o.areas[area := Get(o.areas, area, map[])[sub := v]]);
      assert area in o.areas;
      OspfItfPatched(Get(InstanceAt(n, ni).ospf, inst, NO_OSPF), n, ni, inst, area, sub, v);
      StoreOspf(n, ni, inst, o, ConfigTree.AddOspfItf(n, ni, inst, area, sub, v));
    }

    method AddIsisInstance(n: string, ni: string, inst: string, v: Val)
      requires Valid()
      modifies this
      ensures Valid() && log == old(log) + [ConfigTree.AddIsisInstance(n, ni, inst, v)]
    {
      hide Valid;
      var i := InstanceAt(n, ni);
      var o := Get(i.isis, inst, NO_ISIS);
      StoreInstance(n, ni, i.(isis := i.isis[inst := o.(settings := Some(v))]),
                    ConfigTree.AddIsisInstance(n, ni, inst, v));
    }

    lemma InstanceCompact(n: string, ni: string)
      requires Valid()
      ensures CompactInstance(InstanceAt(n, ni))
    {
      BlankIsCompact();
      assert Compact(Get(devices, n, NO_DEVICE));
    }

    /** The upsert takes over every field but the levels. */
    method AddIsisItf(n: string, ni: string, inst: string, sub: Sub, v: Val)
      requires Valid() && v.VIsisItf?
      modifies this
      ensures Valid() && log == old(log) + [ConfigTree.AddIsisItf(n, ni, inst, sub, v)]
    {
      hide Valid, AtInstance, ConfigTree.AddIsisItf, CompactInstance;
      InstanceCompact(n, ni);
      var i := InstanceAt(n, ni);
      var o := Get(i.isis, inst, NO_ISIS);
      var itf := Get(o.itfs, sub, NO_ISIS_ITF);
      ItfsHaveNoLevels(i, inst, sub);
      itf := itf.(bfd4 := v.bfd4, bfd6 := v.bfd6, netType := v.netType, passive := v.passive);
      o := o.(itfs := o.itfs[sub := itf]);
      IsisItfPatched(i, n, ni, inst, sub, v);
      IsisItfCompact(i, inst, sub, v);
      StoreInstance(n, ni, i.(isis := i.isis[inst := o]), ConfigTree.AddIsisItf(n, ni, inst, sub, v));
    }

    method AddBgpAs(n: string, ni: string, asn: nat)
      requires Valid()
      modifies this
      ensures Valid() && log == old(log) + [ConfigTree.AddBgpAs(n, ni, asn)]
    {
      hide Valid;
      var i := InstanceAt(n, ni);
      StoreInstance(n, ni, i.(bgp := i.bgp.(asn := Some(asn))), ConfigTree.AddBgpAs(n, ni, asn));
    }

    method AddBgpRouterId(n: string, ni: string, id: string)
      requires Valid()
      modifies this
      ensures Valid() && log == old(log) + [ConfigTree.AddBgpRouterId(n, ni, id)]
    {
      hide Valid;
      var i := InstanceAt(n, ni);
      StoreInstance(n, ni, i.(bgp := i.bgp.(routerId := Some(id))), ConfigTree.AddBgpRouterId(n, ni, id));
    }

    method AddBgpFamilies(n: string, ni: string, fs: seq<Family>)
      requires Valid()
      modifies this
      ensures Valid() && log == old(log) + [ConfigTree.AddBgpFamilies(n, ni, fs)]
    {
      hide Valid;
      var i := InstanceAt(n, ni);
      StoreInstance(n, ni, i.(bgp := i.bgp.(families := Some(fs))), ConfigTree.AddBgpFamilies(n, ni, fs));
    }

    method AddNeighbor(n: string, ni: string, peer: string, v: Val)
      requires Valid()
      modifies this
      ensures Valid() && log == old(log) + [ConfigTree.AddNeighbor(n, ni, peer, v)]
    {
      hide Valid;
      var i := InstanceAt(n, ni);
      var b := if peer == "" then i.bgp else i.bgp.(neighbors := i.bgp.neighbors[peer := v]);
      StoreInstance(n, ni, i.(bgp := b), ConfigTree.AddNeighbor(n, ni, peer, v));
    }

    method AddDynNeighbor(n: string, ni: string, sub: Sub, v: Val)
      requires Valid()
      modifies this
      ensures Valid() && log == old(log) + [ConfigTree.AddDynNeighbor(n, ni, sub, v)]
    {
      hide Valid;
      var i := InstanceAt(n, ni);
      var b := if sub.ifName == "" then i.bgp else i.bgp.(dynamic := i.bgp.dynamic[sub := v]);
      StoreInstance(n, ni, i.(bgp := b), ConfigTree.AddDynNeighbor(n, ni, sub, v));
    }

    method AddPeerGroup(n: string, ni: string, group: string, v: Val)
      requires Valid()
      modifies this
      ensures Valid() && log == old(log) + [ConfigTree.AddPeerGroup(n, ni, group, v)]
    {
      hide Valid;
      var i := InstanceAt(n, ni);
      var b := if group == "" then i.bgp else i.bgp.(groups := i.bgp.groups[group := v]);
      StoreInstance(n, ni, i.(bgp := b), ConfigTree.AddPeerGroup(n, ni, group, v));
    }
  }
}
