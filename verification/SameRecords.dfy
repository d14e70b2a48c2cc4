/**
 From equal trees to equal records: what a device's nested records and sorted lists hold is determined by the
 merged patches, up to the order of the one unsorted list. Order independence of a build is stated of the
 records and lists that two builders leave.
 */
module SameRecords {
  import opened Options
  import opened ConfigTree
  import opened Design
  import opened Underlay
  import opened InterfaceList
  import opened Devices
  import Keyed = KeyedList
  import Layers = UnderlayLayers
  import Order = UnderlayOrder
  import B = Builder

  /** Equal except for the order of the interface list. */
  predicate SameInstance(i: Instance, j: Instance) {
    i.(itfs := []) == j.(itfs := []) && multiset(i.itfs) == multiset(j.itfs)
  }

  /** Equal except for those orders and for instances in which nothing was ever set. */
  ghost predicate SameDevice(d: Device, e: Device) {
    && d.(instances := map[]) == e.(instances := map[])
    && forall ni :: SameInstance(Get(d.instances, ni, NO_INSTANCE), Get(e.instances, ni, NO_INSTANCE))
  }

  lemma {:induction false} CountDistinct(s: seq<Sub>, x: Sub)
    requires Distinct(s)
    ensures multiset(s)[x] == if x in s then 1 else 0
  {
    if s != [] {
      assert s == [s[0]] + s[1..];
      CountDistinct(s[1..], x);
    }
  }

  lemma SameDistinct(s: seq<Sub>, t: seq<Sub>)
    requires Distinct(s) && Distinct(t) && forall x :: x in s <==> x in t
    ensures multiset(s) == multiset(t)
  {
    forall x
      ensures multiset(s)[x] == multiset(t)[x]
    {
      CountDistinct(s, x);
      CountDistinct(t, x);
    }
  }

  lemma SameMaps<K, V>(a: map<K, V>, b: map<K, V>)
    requires forall k :: Find(a, k) == Find(b, k)
    ensures a == b
  {
    forall k
      ensures k in a <==> k in b
      ensures k in a ==> a[k] == b[k]
    {
      assert Find(a, k) == Find(b, k);
    }
  }

  // ---------------------------------------------------------------- protocol instances

  lemma SameOspf(o: OspfInstance, q: OspfInstance)
    requires forall c :: OspfOf(c).Some? ==> AtOspf(o, c) == AtOspf(q, c)
    ensures o == q
  {
    assert OspfOf(Ospf("", "")).Some?;
    forall area
      ensures Find(o.areas, area) == Find(q.areas, area)
    {
      assert OspfOf(OspfArea("", "", area)).Some?;
      forall sub
        ensures Find(Get(o.areas, area, map[]), sub) == Find(Get(q.areas, area, map[]), sub)
      {
        assert OspfOf(OspfItf("", "", area, sub)).Some?;
      }
      SameMaps(Get(o.areas, area, map[]), Get(q.areas, area, map[]));
    }
    SameMaps(o.areas, q.areas);
  }

  lemma SameIsis(o: IsisInstance, q: IsisInstance)
    requires AtIsis(o, Isis("", "")) == AtIsis(q, Isis("", ""))
    requires forall sub :: AtIsis(o, IsisItf("", "", sub)) == AtIsis(q, IsisItf("", "", sub))
    ensures o == q
  {
    forall sub
      ensures Find(o.itfs, sub) == Find(q.itfs, sub)
    {
      assert AtIsis(o, IsisItf("", "", sub)) == AtIsis(q, IsisItf("", "", sub));
    }
    SameMaps(o.itfs, q.itfs);
  }

  /** Without blank entries a map of protocol instances is determined by its entries got or created. */
  lemma SameByGet<K, V>(a: map<K, V>, b: map<K, V>, blank: V)
    requires (forall k :: k in a ==> a[k] != blank) && (forall k :: k in b ==> b[k] != blank)
    requires forall k :: Get(a, k, blank) == Get(b, k, blank)
    ensures a == b
  {
    forall k
      ensures Find(a, k) == Find(b, k)
    {
      assert Get(a, k, blank) == Get(b, k, blank);
    }
    SameMaps(a, b);
  }

  lemma SameOspfs(i: Instance, j: Instance, ni: string)
    requires CompactInstance(i) && CompactInstance(j)
    requires forall c :: InstanceOf(c) == Some(ni) ==> AtInstance(i, c) == AtInstance(j, c)
    ensures i.ospf == j.ospf
  {
    hide AtIsis, AtBgp;
    forall inst
      ensures Get(i.ospf, inst, NO_OSPF) == Get(j.ospf, inst, NO_OSPF)
    {
      var o, q := Get(i.ospf, inst, NO_OSPF), Get(j.ospf, inst, NO_OSPF);
      forall c | OspfOf(c).Some?
        ensures AtOspf(o, c) == AtOspf(q, c)
      {
        var d := match c case Ospf(_, _) => Ospf(ni, inst)
                         case OspfArea(_, _, area) => OspfArea(ni, inst, area)
                         case OspfItf(_, _, area, sub) => OspfItf(ni, inst, area, sub);
        assert AtInstance(i, d) == AtOspf(o, c) && AtInstance(j, d) == AtOspf(q, c);
      }
      SameOspf(o, q);
    }
    SameByGet(i.ospf, j.ospf, NO_OSPF);
  }

  lemma SameIsisMaps(i: Instance, j: Instance, ni: string)
    requires CompactInstance(i) && CompactInstance(j)
    requires forall c :: InstanceOf(c) == Some(ni) ==> AtInstance(i, c) == AtInstance(j, c)
    ensures i.isis == j.isis
  {
    hide AtOspf, AtBgp;
    forall inst
      ensures Get(i.isis, inst, NO_ISIS) == Get(j.isis, inst, NO_ISIS)
    {
      var o, q := Get(i.isis, inst, NO_ISIS), Get(j.isis, inst, NO_ISIS);
      assert AtInstance(i, Isis(ni, inst)) == AtInstance(j, Isis(ni, inst));
      forall sub
        ensures AtIsis(o, IsisItf("", "", sub)) == AtIsis(q, IsisItf("", "", sub))
      {
        assert AtInstance(i, IsisItf(ni, inst, sub)) == AtInstance(j, IsisItf(ni, inst, sub));
      }
      SameIsis(o, q);
    }
    SameByGet(i.isis, j.isis, NO_ISIS);
  }

  predicate InBgp(c: Cell, ni: string) {
    InstanceOf(c) == Some(ni) &&
    (c.BgpAs? || c.BgpRouterId? || c.BgpFamilies? || c.Neighbor? || c.DynNeighbor? || c.PeerGroup?)
  }

  lemma SameBgp(i: Bgp, j: Bgp, ni: string)
    requires forall c :: InBgp(c, ni) ==> AtBgp(i, c) == AtBgp(j, c)
    ensures i == j
  {
    assert InBgp(BgpAs(ni), ni) && InBgp(BgpRouterId(ni), ni) && InBgp(BgpFamilies(ni), ni);
    forall peer
      ensures Find(i.neighbors, peer) == Find(j.neighbors, peer)
    {
      assert InBgp(Neighbor(ni, peer), ni);
    }
    SameMaps(i.neighbors, j.neighbors);
    forall sub
      ensures Find(i.dynamic, sub) == Find(j.dynamic, sub)
    {
      assert InBgp(DynNeighbor(ni, sub), ni);
    }
    SameMaps(i.dynamic, j.dynamic);
    forall group
      ensures Find(i.groups, group) == Find(j.groups, group)
    {
      assert InBgp(PeerGroup(ni, group), ni);
    }
    SameMaps(i.groups, j.groups);
  }

  lemma SameBgpCells(i: Instance, j: Instance, ni: string)
    requires forall c :: InstanceOf(c) == Some(ni) ==> AtInstance(i, c) == AtInstance(j, c)
    ensures i.bgp == j.bgp
  {
    forall c | InBgp(c, ni)
      ensures AtBgp(i.bgp, c) == AtBgp(j.bgp, c)
    {
      hide AtOspf, AtIsis, AtBgp;
      assert AtInstance(i, c) == AtBgp(i.bgp, c) && AtInstance(j, c) == AtBgp(j.bgp, c);
    }
    SameBgp(i.bgp, j.bgp, ni);
  }

  lemma CellsFixInstance(i: Instance, j: Instance, ni: string)
    requires CompactInstance(i) && CompactInstance(j)
    requires forall c :: InstanceOf(c) == Some(ni) ==> AtInstance(i, c) == AtInstance(j, c)
    ensures SameInstance(i, j)
  {
    hide AtOspf, AtIsis, AtBgp;
    SameOspfs(i, j, ni);
    SameIsisMaps(i, j, ni);
    SameBgpCells(i, j, ni);
    assert AtInstance(i, InstanceType(ni)) == AtInstance(j, InstanceType(ni));
    assert AtInstance(i, InstanceVxlan(ni)) == AtInstance(j, InstanceVxlan(ni));
    assert AtInstance(i, Evpn(ni)) == AtInstance(j, Evpn(ni)) && AtInstance(i, Vpn(ni)) == AtInstance(j, Vpn(ni));
    forall sub
      ensures sub in i.itfs <==> sub in j.itfs
    {
      assert AtInstance(i, InstanceItf(ni, sub)) == AtInstance(j, InstanceItf(ni, sub));
    }
    SameDistinct(i.itfs, j.itfs);
  }

  // ---------------------------------------------------------------- devices

  ghost predicate SameCells(d: Device, e: Device) {
    forall c :: At(d, c) == At(e, c)
  }

  lemma SameInterfaces(d: Device, e: Device)
    requires Compact(d) && Compact(e) && SameCells(d, e)
    ensures d.interfaces == e.interfaces
  {
    hide AtInstance, CompactInstance;
    forall f
      ensures Get(d.interfaces, f, NO_INTERFACE) == Get(e.interfaces, f, NO_INTERFACE)
    {
      var a, b := Get(d.interfaces, f, NO_INTERFACE), Get(e.interfaces, f, NO_INTERFACE);
      assert At(d, VlanTagging(f)) == At(e, VlanTagging(f));
      forall id: nat
        ensures Find(a.subs, id) == Find(b.subs, id)
      {
        assert At(d, SubInterface(Sub(f, id))) == At(e, SubInterface(Sub(f, id)));
      }
      SameMaps(a.subs, b.subs);
    }
    SameByGet(d.interfaces, e.interfaces, NO_INTERFACE);
  }

  lemma SameTunnels(d: Device, e: Device)
    requires SameCells(d, e)
    ensures d.tunnels == e.tunnels
  {
    hide AtInstance;
    forall f
      ensures Find(d.tunnels, f) == Find(e.tunnels, f)
    {
      var a, b := Get(d.tunnels, f, map[]), Get(e.tunnels, f, map[]);
      assert At(d, Tunnel(f)) == At(e, Tunnel(f));
      forall id: nat
        ensures Find(a, id) == Find(b, id)
      {
        assert At(d, TunnelSub(Sub(f, id))) == At(e, TunnelSub(Sub(f, id)));
      }
      SameMaps(a, b);
    }
    SameMaps(d.tunnels, e.tunnels);
  }

  lemma SameFlat(d: Device, e: Device)
    requires SameCells(d, e)
    ensures d.provider == e.provider && d.bfd == e.bfd && d.policies == e.policies && d.systemVpn == e.systemVpn
  {
    hide AtInstance;
    assert At(d, Provider) == At(e, Provider) && At(d, SystemVpn) == At(e, SystemVpn);
    forall sub
      ensures sub in d.bfd <==> sub in e.bfd
    {
      assert At(d, Bfd(sub)) == At(e, Bfd(sub));
    }
    forall p
      ensures Find(d.policies, p) == Find(e.policies, p)
    {
      assert At(d, Policy(p)) == At(e, Policy(p));
    }
    SameMaps(d.policies, e.policies);
  }

  /** The cells determine a device's records. */
  lemma CellsFixDevice(d: Device, e: Device)
    requires Compact(d) && Compact(e) && SameCells(d, e)
    ensures SameDevice(d, e)
  {
    hide AtInstance, CompactInstance, SameInstance;
    SameInterfaces(d, e);
    SameTunnels(d, e);
    SameFlat(d, e);
    forall ni
      ensures SameInstance(Get(d.instances, ni, NO_INSTANCE), Get(e.instances, ni, NO_INSTANCE))
    {
      var i, j := Get(d.instances, ni, NO_INSTANCE), Get(e.instances, ni, NO_INSTANCE);
      BlankIsCompact();
      forall c | InstanceOf(c) == Some(ni)
        ensures AtInstance(i, c) == AtInstance(j, c)
      {
        assert At(d, c) == AtInstance(i, c) && At(e, c) == AtInstance(j, c);
      }
      CellsFixInstance(i, j, ni);
    }
  }

  /** Equal merged patches mean the same records at every node. */
  lemma EqualTreesSameRecords(a: Devices, b: Devices)
    requires a.Valid() && b.Valid() && Merge(a.log) == Merge(b.log)
    ensures forall n :: SameDevice(Get(a.devices, n, NO_DEVICE), Get(b.devices, n, NO_DEVICE))
  {
    hide At, Compact, SameDevice, Find, Get;
    forall n
      ensures SameDevice(Get(a.devices, n, NO_DEVICE), Get(b.devices, n, NO_DEVICE))
    {
      var d, e := Get(a.devices, n, NO_DEVICE), Get(b.devices, n, NO_DEVICE);
      forall c
        ensures At(d, c) == At(e, c)
      {
        assert At(d, c) == Find(Merge(a.log), Loc(n, c)) && At(e, c) == Find(Merge(b.log), Loc(n, c));
      }
      CellsFixDevice(d, e);
    }
  }

  // ---------------------------------------------------------------- two builds

  /** The builder after a successful BuildUnderlay. */
  ghost predicate Built(b: B.DeviceBuilder, links: seq<Link>, e: Log, h: Log)
    reads b.devices
  {
    b.devices.Valid() && UnderlayLog(b.x, links, b.devices.log, e, h)
  }

  /**
   Order independence of the records: two successful builds of harmonious links, in any two orders and with any
   iteration orders of the maps, leave the same records on every device.
   */
  lemma BuildsLeaveSameRecords(a: B.DeviceBuilder, links: seq<Link>, e: Log, h: Log,
                               b: B.DeviceBuilder, others: seq<Link>, e2: Log, h2: Log)
    requires a.x == b.x && multiset(links) == multiset(others) && Layers.NamesDistinct(links) &&
             Order.Harmonious(a.x, links)
    requires Built(a, links, e, h) && Built(b, others, e2, h2)
    ensures forall n :: SameDevice(Get(a.devices.devices, n, NO_DEVICE), Get(b.devices.devices, n, NO_DEVICE))
  {
    hide Devices.Valid, UnderlayLog, Order.Harmonious, SameDevice, Get;
    Order.HarmonyLeavesSame(a.x, links, a.devices.log, e, h, others, b.devices.log, e2, h2);
    EqualTreesSameRecords(a.devices, b.devices);
  }

  /** The sorted list of a record's map with string keys, as KeyedList keeps it. */
  ghost predicate ListsByName<V>(s: Keyed.Store<V>, m: map<string, V>)
    reads s, s.items
  {
    s.Valid() && s.Contents() == map k | k in m :: Keyed.ByName(k) := m[k]
  }

  ghost predicate SameLists<V>(s: Keyed.Store<V>, t: Keyed.Store<V>)
    reads s, t, s.items, t.items
  {
    |s.items| == |t.items| &&
    forall i :: 0 <= i < |s.items| ==> s.items[i].key == t.items[i].key && s.items[i].val == t.items[i].val
  }

  /** And so the same sorted lists, entry by entry: here the neighbors and the interfaces of any device. */
  lemma BuildsLeaveSameLists(a: B.DeviceBuilder, links: seq<Link>, e: Log, h: Log,
                             b: B.DeviceBuilder, others: seq<Link>, e2: Log, h2: Log, n: string, ni: string,
                             p: Keyed.Store<Val>, q: Keyed.Store<Val>, r: Keyed.Store<Interface>,
                             s: Keyed.Store<Interface>)
    requires a.x == b.x && multiset(links) == multiset(others) && Layers.NamesDistinct(links) &&
             Order.Harmonious(a.x, links)
    requires Built(a, links, e, h) && Built(b, others, e2, h2)
    requires ListsByName(p, a.devices.InstanceAt(n, ni).bgp.neighbors) &&
             ListsByName(q, b.devices.InstanceAt(n, ni).bgp.neighbors)
    requires ListsByName(r, Get(a.devices.devices, n, NO_DEVICE).interfaces)
    requires ListsByName(s, Get(b.devices.devices, n, NO_DEVICE).interfaces)
    ensures SameLists(p, q) && SameLists(r, s)
  {
    hide Built, Order.Harmonious;
    BuildsLeaveSameRecords(a, links, e, h, b, others, e2, h2);
    var d, f := Get(a.devices.devices, n, NO_DEVICE), Get(b.devices.devices, n, NO_DEVICE);
    SamePieces(d, f, ni);
    Keyed.EqualViewsEqualLists(p, q);
    Keyed.EqualViewsEqualLists(r, s);
  }

  lemma SamePieces(d: Device, e: Device, ni: string)
    requires SameDevice(d, e)
    ensures d.interfaces == e.interfaces
    ensures Get(d.instances, ni, NO_INSTANCE).bgp == Get(e.instances, ni, NO_INSTANCE).bgp
  {
    var i, j := Get(d.instances, ni, NO_INSTANCE), Get(e.instances, ni, NO_INSTANCE);
    assert SameInstance(i, j);
    assert d.interfaces == d.(instances := map[]).interfaces && i.bgp == i.(itfs := []).bgp;
  }
}
