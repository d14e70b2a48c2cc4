/** What a finished overlay holds: which instances on which devices, with which interfaces, and that they agree. */
module OverlayTheorems {
  import opened Options
  import opened Names
  import opened ConfigTree
  import opened Design
  import opened UnderlayEntries
  import opened Overlay

  /** The locations one static interface writes. */
  predicate Writes(x: Inputs, sv: Services, item: Item, loc: Loc)
    requires ItemOk(x, sv, item)
  {
    loc.node == item.Node() &&
    match loc.cell
    case Provider => true
    case VlanTagging(f) => !item.Irb() && f == ItemSub(x, item).ifName
    case SubInterface(s) => s == ItemSub(x, item)
    case InstanceType(ni) => ni == Own(x, item)
    case InstanceItf(ni, s) => s == ItemSub(x, item) &&
                               (ni == Own(x, item) || (item.Irb() && ni == NiName(x, item.itf.bridge.value)))
    case Tunnel(f) => x.design.vxlan && f == VXLAN_ITF
    case TunnelSub(s) => x.design.vxlan && s == VxlanSub(item)
    case InstanceVxlan(ni) => x.design.vxlan && ni == Own(x, item)
    case Evpn(ni) => ni == Own(x, item)
    case Vpn(ni) => ni == Own(x, item)
    case _ => false
  }

  /** What it writes to its sub-interface and to the cells of its own network instance. */
  predicate Written(x: Inputs, item: Item, loc: Loc, v: Val) {
    match loc.cell
    case VlanTagging(_) => v == VFlag(true)
    case SubInterface(_) => v == PortValue(x, item)
    case InstanceType(_) => v == VText(if item.routed then "ip-vrf" else "mac-vrf")
    case InstanceVxlan(_) => v == VItf(VxlanSub(item))
    case Evpn(_) => v == VEvpn(item.Id(), 2, VXLAN_ITF)
    case Vpn(_) => v == VVpn(Target(x, item.Id()), Target(x, item.Id()))
    case _ => true
  }

  ghost predicate Sound(x: Inputs, sv: Services, item: Item, p: Patch)
    requires ItemOk(x, sv, item)
  {
    forall loc :: loc in p ==> Writes(x, sv, item, loc) && Written(x, item, loc, p[loc])
  }

  lemma HeadsSound(x: Inputs, sv: Services, item: Item)
    requires ItemOk(x, sv, item)
    ensures item.routed ==> forall p :: p in RouterHead(x, sv, item) ==> Sound(x, sv, item, p)
    ensures !item.routed ==> forall p :: p in BridgeHead(x, sv, item) ==> Sound(x, sv, item, p)
  {
  }

  lemma PartsSound(x: Inputs, sv: Services, item: Item)
    requires ItemOk(x, sv, item)
    ensures forall p :: p in VxlanPart(x, item) ==> Sound(x, sv, item, p)
    ensures forall p :: p in EvpnPart(x, item) ==> Sound(x, sv, item, p)
  {
    hide ItemOk, Target;
  }

  lemma PortSound(x: Inputs, sv: Services, item: Item)
    requires ItemOk(x, sv, item) && item.routed
    ensures forall p :: p in RouterPort(x, sv, item) ==> Sound(x, sv, item, p)
  {
  }

  function ItemTree(x: Inputs, sv: Services, item: Item): Tree
    requires ItemOk(x, sv, item)
  {
    Merge(ItemLog(x, sv, item))
  }

  lemma ItemLogSound(x: Inputs, sv: Services, item: Item, p: Patch)
    requires ItemOk(x, sv, item) && p in ItemLog(x, sv, item)
    ensures Sound(x, sv, item, p)
  {
    hide Sound, RouterHead, BridgeHead, VxlanPart, EvpnPart, RouterPort;
    HeadsSound(x, sv, item);
    PartsSound(x, sv, item);
    if item.routed {
      PortSound(x, sv, item);
    }
  }

  /** Every location it writes is written by some patch. */
  lemma SomePatchWrites(x: Inputs, sv: Services, item: Item, loc: Loc) returns (p: Patch)
    requires ItemOk(x, sv, item) && Writes(x, sv, item, loc)
    ensures p in ItemLog(x, sv, item) && loc in p
  {
    var head := if item.routed then RouterHead(x, sv, item) else BridgeHead(x, sv, item);
    var vxlan, evpn := VxlanPart(x, item), EvpnPart(x, item);
    var port := if item.routed then RouterPort(x, sv, item) else head[1..];
    match loc.cell {
      case Provider => p := head[0];
      case VlanTagging(_) => p := port[0];
      case SubInterface(_) => p := port[0];
      case InstanceType(_) => p := if item.routed then head[1] else head[2];
      case InstanceItf(ni, _) => p := if !item.routed then head[3] else if ni == Own(x, item) then port[1] else port[2];
      case Tunnel(_) => p := vxlan[0];
      case TunnelSub(_) => p := vxlan[0];
      case InstanceVxlan(_) => p := vxlan[1];
      case Evpn(_) => p := evpn[0];
      case Vpn(_) => p := evpn[1];
    }
  }

  lemma ItemTreeExact(x: Inputs, sv: Services, item: Item, loc: Loc)
    requires ItemOk(x, sv, item)
    ensures loc in ItemTree(x, sv, item) <==> Writes(x, sv, item, loc)
    ensures loc in ItemTree(x, sv, item) ==> Written(x, item, loc, ItemTree(x, sv, item)[loc])
  {
    var log := ItemLog(x, sv, item);
    var i := LastWriter(log, loc);
    if loc in ItemTree(x, sv, item) {
      ItemLogSound(x, sv, item, log[i]);
    } else if Writes(x, sv, item, loc) {
      var p := SomePatchWrites(x, sv, item, loc);
    }
  }

  /** A location is in the overlay exactly when some item writes it, and its value is one of those items'. */
  lemma {:induction false} OverlayExact(x: Inputs, sv: Services, items: seq<Item>, loc: Loc)
    requires AllOk(x, sv, items)
    ensures loc in Merge(ItemsLog(x, sv, items)) <==> exists item :: item in items && Writes(x, sv, item, loc)
    ensures loc in Merge(ItemsLog(x, sv, items)) ==>
              exists item :: item in items && Writes(x, sv, item, loc) &&
                             Written(x, item, loc, Merge(ItemsLog(x, sv, items))[loc])
  {
    hide Writes, Written, ItemOk, ItemLog;
    if items != [] {
      var front, last := items[..|items| - 1], items[|items| - 1];
      OverlayExact(x, sv, front, loc);
      MergeAppend(ItemsLog(x, sv, front), ItemLog(x, sv, last));
      ItemTreeExact(x, sv, last, loc);
      assert items == front + [last];
    }
  }

  // ---------------------------------------------------------------- references

  lemma BridgeHeadGrounded(x: Inputs, sv: Services, item: Item)
    requires ItemOk(x, sv, item) && !item.routed
    ensures Grounded(BridgeHead(x, sv, item))
  {
    hide ItemProvider, ItemSub, PortValue, Own, Merge, Resolves;
    var log := BridgeHead(x, sv, item);
    var sub := Loc(item.Node(), SubInterface(ItemSub(x, item)));
    GroundedHead(log[..3]);
    assert log[1] in log[..3] && sub in log[1];
    var k := LastWriter(log[..3], sub);
    GroundedExtend(log[..3], [log[3]]);
    assert log == log[..3] + [log[3]];
  }

  lemma VxlanGrounded(x: Inputs, item: Item)
    ensures Grounded(VxlanPart(x, item))
  {
    var log := VxlanPart(x, item);
    if x.design.vxlan {
      var tunnel := Loc(item.Node(), TunnelSub(VxlanSub(item)));
      GroundedHead([log[0]]);
      assert log[0] in [log[0]] && tunnel in log[0];
      var k := LastWriter([log[0]], tunnel);
      GroundedExtend([log[0]], [log[1]]);
      assert log == [log[0]] + [log[1]];
    } else {
      GroundedHead([]);
    }
  }

  lemma RouterPortGrounded(x: Inputs, sv: Services, item: Item)
    requires ItemOk(x, sv, item) && item.routed
    ensures Grounded(RouterPort(x, sv, item))
  {
    hide ItemSub, PortValue, Own, Merge, Resolves;
    var log := RouterPort(x, sv, item);
    var sub := Loc(item.Node(), SubInterface(ItemSub(x, item)));
    GroundedHead([log[0]]);
    assert log[0] in [log[0]] && sub in log[0];
    var k := LastWriter([log[0]], sub);
    GroundedExtend([log[0]], log[1..]);
    assert log == [log[0]] + log[1..];
  }

  lemma ItemGrounded(x: Inputs, sv: Services, item: Item)
    requires ItemOk(x, sv, item)
    ensures Grounded(ItemLog(x, sv, item))
  {
    hide BridgeHead, VxlanPart, Merge, Resolves, ItemOk;
    VxlanGrounded(x, item);
    GroundedHead(EvpnPart(x, item));
    if item.routed {
      GroundedHead(RouterHead(x, sv, item));
      RouterPortGrounded(x, sv, item);
      GroundedAppend(RouterHead(x, sv, item), VxlanPart(x, item));
      GroundedAppend(RouterHead(x, sv, item) + VxlanPart(x, item), EvpnPart(x, item));
      GroundedAppend(RouterHead(x, sv, item) + VxlanPart(x, item) + EvpnPart(x, item), RouterPort(x, sv, item));
    } else {
      BridgeHeadGrounded(x, sv, item);
      GroundedAppend(BridgeHead(x, sv, item), VxlanPart(x, item));
      GroundedAppend(BridgeHead(x, sv, item) + VxlanPart(x, item), EvpnPart(x, item));
    }
  }

  /**
   Referential integrity: after every single Add* call of BuildOverlay every sub-interface and VXLAN tunnel that
   an entry refers to is on its device; for the interface that EVPN names, see EvpnResolvesExactly.
   */
  lemma {:induction false} OverlayIntegrity(x: Inputs, sv: Services, items: seq<Item>)
    requires AllOk(x, sv, items)
    ensures Grounded(ItemsLog(x, sv, items))
  {
    hide ItemLog, Grounded, ItemOk;
    if items == [] {
      GroundedHead([]);
    } else {
      var front, last := items[..|items| - 1], items[|items| - 1];
      OverlayIntegrity(x, sv, front);
      ItemGrounded(x, sv, last);
      GroundedAppend(ItemsLog(x, sv, front), ItemLog(x, sv, last));
    }
  }

  // ---------------------------------------------------------------- the interface that EVPN names

  /** Every EVPN entry names a tunnel interface of its device. */
  ghost predicate EvpnResolves(t: Tree) {
    forall loc :: loc in t && loc.cell.Evpn? ==> t[loc].VEvpn? && Loc(loc.node, Tunnel(t[loc].vxlanItf)) in t
  }

  /** Every EVPN entry comes after a call that makes the tunnel interface it names. */
  ghost predicate TunnelFirst(log: Log) {
    forall i, loc :: 0 <= i < |log| && loc in log[i] && loc.cell.Evpn? ==>
                       log[i][loc].VEvpn? &&
                       exists j :: 0 <= j < i && Loc(loc.node, Tunnel(log[i][loc].vxlanItf)) in log[j]
  }

  lemma TunnelFirstResolves(log: Log, k: nat)
    requires TunnelFirst(log) && k <= |log|
    ensures EvpnResolves(Merge(log[..k]))
  {
    var t := Merge(log[..k]);
    forall loc | loc in t && loc.cell.Evpn?
      ensures t[loc].VEvpn? && Loc(loc.node, Tunnel(t[loc].vxlanItf)) in t
    {
      var i := LastWriter(log[..k], loc);
      var j :| 0 <= j < i && Loc(loc.node, Tunnel(log[i][loc].vxlanItf)) in log[j];
      assert log[..k][j] == log[j];
      var l := LastWriter(log[..k], Loc(loc.node, Tunnel(log[i][loc].vxlanItf)));
    }
  }

  lemma TunnelFirstAppend(a: Log, b: Log)
    requires TunnelFirst(a) && TunnelFirst(b)
    ensures TunnelFirst(a + b)
  {
    forall i, loc | 0 <= i < |a + b| && loc in (a + b)[i] && loc.cell.Evpn?
      ensures (a + b)[i][loc].VEvpn? &&
              exists j :: 0 <= j < i && Loc(loc.node, Tunnel((a + b)[i][loc].vxlanItf)) in (a + b)[j]
    {
      if i >= |a| {
        var j :| 0 <= j < i - |a| && Loc(loc.node, Tunnel(b[i - |a|][loc].vxlanItf)) in b[j];
        assert (a + b)[|a| + j] == b[j];
      } else {
        var j :| 0 <= j < i && Loc(loc.node, Tunnel(a[i][loc].vxlanItf)) in a[j];
        assert (a + b)[j] == a[j];
      }
    }
  }

  lemma PartsTunnelFirst(x: Inputs, item: Item)
    requires x.design.vxlan
    ensures TunnelFirst(VxlanPart(x, item) + EvpnPart(x, item))
  {
    hide Target, Own;
    var log := VxlanPart(x, item) + EvpnPart(x, item);
    assert Loc(item.Node(), Tunnel(VXLAN_ITF)) in log[0];
  }

  ghost predicate NoEvpn(log: Log) {
    forall p, loc :: p in log && loc in p ==> !loc.cell.Evpn?
  }

  lemma OtherPartsNoEvpn(x: Inputs, sv: Services, item: Item)
    requires ItemOk(x, sv, item)
    ensures !item.routed ==> NoEvpn(BridgeHead(x, sv, item))
    ensures item.routed ==> NoEvpn(RouterHead(x, sv, item)) && NoEvpn(RouterPort(x, sv, item))
  {
    hide ItemProvider, ItemSub, PortValue, Own, NiName, ItemOk;
  }

  lemma ItemTunnelFirst(x: Inputs, sv: Services, item: Item)
    requires ItemOk(x, sv, item) && x.design.vxlan
    ensures TunnelFirst(ItemLog(x, sv, item))
  {
    hide RouterHead, BridgeHead, VxlanPart, EvpnPart, RouterPort;
    var parts := VxlanPart(x, item) + EvpnPart(x, item);
    PartsTunnelFirst(x, item);
    OtherPartsNoEvpn(x, sv, item);
    var head, port := if item.routed then RouterHead(x, sv, item) else BridgeHead(x, sv, item),
                      if item.routed then RouterPort(x, sv, item) else [];
    assert TunnelFirst(head) && TunnelFirst(port);
    TunnelFirstAppend(head, parts);
    TunnelFirstAppend(head + parts, port);
    assert ItemLog(x, sv, item) == head + parts + port;
  }

  lemma {:induction false} TunnelsFirst(x: Inputs, sv: Services, items: seq<Item>)
    requires AllOk(x, sv, items) && x.design.vxlan
    ensures TunnelFirst(ItemsLog(x, sv, items))
  {
    hide ItemLog, ItemOk;
    if items != [] {
      var front, last := items[..|items| - 1], items[|items| - 1];
      TunnelsFirst(x, sv, front);
      ItemTunnelFirst(x, sv, last);
      TunnelFirstAppend(ItemsLog(x, sv, front), ItemLog(x, sv, last));
    }
  }

  /**
   The EVPN entries are written whether or not the design has VXLAN, the tunnel they name only with it: all of
   them resolve, after every call, if and only if the design has VXLAN or there is no static interface at all.
   */
  lemma EvpnResolvesExactly(x: Inputs, sv: Services)
    requires AllOk(x, sv, Items(sv))
    ensures EvpnResolves(OverlayTree(x, sv)) <==> x.design.vxlan || Items(sv) == []
    ensures x.design.vxlan ==>
              forall k :: 0 <= k <= |ItemsLog(x, sv, Items(sv))| ==>
                            EvpnResolves(Merge(ItemsLog(x, sv, Items(sv))[..k]))
  {
    hide EvpnResolves, ItemOk, ItemsLog, Items;
    var log, t := ItemsLog(x, sv, Items(sv)), OverlayTree(x, sv);
    if x.design.vxlan {
      TunnelsFirst(x, sv, Items(sv));
      forall k | 0 <= k <= |log|
        ensures EvpnResolves(Merge(log[..k]))
      {
        TunnelFirstResolves(log, k);
      }
      assert log[..|log|] == log;
    } else if Items(sv) == [] {
      NoItemsResolve(x, sv);
    } else {
      EvpnDangles(x, sv);
    }
  }

  lemma NoItemsResolve(x: Inputs, sv: Services)
    requires Items(sv) == []
    ensures EvpnResolves(OverlayTree(x, sv))
  {
  }

  lemma EvpnDangles(x: Inputs, sv: Services)
    requires AllOk(x, sv, Items(sv)) && !x.design.vxlan && Items(sv) != []
    ensures !EvpnResolves(OverlayTree(x, sv))
  {
    hide Merge, ItemsLog, Items, Target;
    var items, t := Items(sv), OverlayTree(x, sv);
    var n, loc := items[0].Node(), Loc(items[0].Node(), Evpn(Own(x, items[0])));
    assert items[0] in items && Writes(x, sv, items[0], loc);
    OverlayExact(x, sv, items, loc);
    OverlayExact(x, sv, items, Loc(n, Tunnel(VXLAN_ITF)));
    assert t[loc].VEvpn? && t[loc].vxlanItf == VXLAN_ITF;
  }

  // ---------------------------------------------------------------- network instances

  ghost predicate HasInstance(t: Tree, n: string, ni: string) {
    exists loc :: loc in t && loc.node == n && InstanceOf(loc.cell) == Some(ni)
  }

  /** A static interface of service `name` on device n. */
  ghost predicate Attached(items: seq<Item>, n: string, name: string) {
    exists item :: item in items && item.Node() == n && item.svc.name == name
  }

  /** A router interface on device n that joins bridge `name` over irb. */
  ghost predicate IrbInto(items: seq<Item>, n: string, name: string) {
    exists item :: item in items && item.Node() == n && item.Irb() && item.itf.bridge.value == name
  }

  function OverlayTree(x: Inputs, sv: Services): Tree
    requires AllOk(x, sv, Items(sv))
  {
    Merge(ItemsLog(x, sv, Items(sv)))
  }

  /** A device has instance net.name exactly when it has a static interface of `name` or an irb into it. */
  lemma InstancesExact(x: Inputs, sv: Services, n: string, name: string)
    requires AllOk(x, sv, Items(sv))
    ensures HasInstance(OverlayTree(x, sv), n, NiName(x, name)) <==>
              Attached(Items(sv), n, name) || IrbInto(Items(sv), n, name)
  {
    hide OverlayTree, Items;
    if HasInstance(OverlayTree(x, sv), n, NiName(x, name)) {
      InstanceHasCause(x, sv, n, name);
    }
    if Attached(Items(sv), n, name) {
      TypeNeedsAttachment(x, sv, n, name);
    }
    if item :| item in Items(sv) && item.Node() == n && item.Irb() && item.itf.bridge.value == name {
      InterfacesExact(x, sv, n, name, ItemSub(x, item));
    }
  }

  lemma InstanceHasCause(x: Inputs, sv: Services, n: string, name: string)
    requires AllOk(x, sv, Items(sv)) && HasInstance(OverlayTree(x, sv), n, NiName(x, name))
    ensures Attached(Items(sv), n, name) || IrbInto(Items(sv), n, name)
  {
    hide Merge, ItemsLog, Items;
    var loc :| loc in OverlayTree(x, sv) && loc.node == n && InstanceOf(loc.cell) == Some(NiName(x, name));
    OverlayExact(x, sv, Items(sv), loc);
    var item :| item in Items(sv) && Writes(x, sv, item, loc);
    WritesInstance(x, sv, item, loc, name);
  }

  lemma WritesInstance(x: Inputs, sv: Services, item: Item, loc: Loc, name: string)
    requires ItemOk(x, sv, item) && Writes(x, sv, item, loc) && InstanceOf(loc.cell) == Some(NiName(x, name))
    ensures item.svc.name == name || (item.Irb() && item.itf.bridge.value == name)
    ensures !loc.cell.InstanceItf? ==> item.svc.name == name
  {
    if Own(x, item) == NiName(x, name) {
      DottedInjective(x.Ni(), item.svc.name, name);
    } else {
      DottedInjective(x.Ni(), item.itf.bridge.value, name);
    }
  }

  /** An instance's interfaces: the ports of its own static interfaces, and irb entries joining it. */
  lemma InterfacesExact(x: Inputs, sv: Services, n: string, name: string, sub: Sub)
    requires AllOk(x, sv, Items(sv))
    ensures Loc(n, InstanceItf(NiName(x, name), sub)) in OverlayTree(x, sv) <==>
              exists item :: item in Items(sv) && item.Node() == n && sub == ItemSub(x, item) &&
                             (item.svc.name == name || (item.Irb() && item.itf.bridge.value == name))
  {
    var items, loc := Items(sv), Loc(n, InstanceItf(NiName(x, name), sub));
    OverlayExact(x, sv, items, loc);
    if loc in OverlayTree(x, sv) {
      var item :| item in items && Writes(x, sv, item, loc);
      WritesInstance(x, sv, item, loc, name);
    }
    if item :| item in items && item.Node() == n && sub == ItemSub(x, item) &&
               (item.svc.name == name || (item.Irb() && item.itf.bridge.value == name)) {
      assert Writes(x, sv, item, loc);
    }
  }

  /** A name stands for one bridge or one router. */
  ghost predicate NamesDistinct(sv: Services) {
    forall a, b :: a in Items(sv) && b in Items(sv) && a.svc.name == b.svc.name ==>
             a.svc == b.svc && a.routed == b.routed
  }

  /** The service's EVI, route targets and instance type are in the device's tree. */
  predicate Carries(x: Inputs, t: Tree, n: string, item: Item) {
    var ni := Own(x, item);
    && Loc(n, Evpn(ni)) in t && t[Loc(n, Evpn(ni))] == VEvpn(item.Id(), 2, VXLAN_ITF)
    && Loc(n, Vpn(ni)) in t && t[Loc(n, Vpn(ni))] == VVpn(Target(x, item.Id()), Target(x, item.Id()))
    && Loc(n, InstanceType(ni)) in t &&
       t[Loc(n, InstanceType(ni))] == VText(if item.routed then "ip-vrf" else "mac-vrf")
  }

  predicate Lacks(t: Tree, n: string, ni: string) {
    Loc(n, Evpn(ni)) !in t && Loc(n, Vpn(ni)) !in t && Loc(n, InstanceType(ni)) !in t
  }

  /**
   Every device with a static interface of a service carries that service's EVI, route targets and instance
   type, so all of them agree; no other device has any of them.
   */
  lemma DevicesAgree(x: Inputs, sv: Services, n: string, item: Item)
    requires AllOk(x, sv, Items(sv)) && NamesDistinct(sv) && item in Items(sv)
    ensures Attached(Items(sv), n, item.svc.name) ==> Carries(x, OverlayTree(x, sv), n, item)
    ensures !Attached(Items(sv), n, item.svc.name) ==> Lacks(OverlayTree(x, sv), n, Own(x, item))
  {
    hide OverlayTree, Own, Target, Items, Attached, NamesDistinct;
    OwnCell(x, sv, n, item, Evpn(Own(x, item)));
    OwnCell(x, sv, n, item, Vpn(Own(x, item)));
    OwnCell(x, sv, n, item, InstanceType(Own(x, item)));
  }

  lemma OwnCell(x: Inputs, sv: Services, n: string, item: Item, c: Cell)
    requires AllOk(x, sv, Items(sv)) && NamesDistinct(sv) && item in Items(sv)
    requires (c.Evpn? || c.Vpn? || c.InstanceType?) && InstanceOf(c) == Some(Own(x, item))
    ensures Loc(n, c) in OverlayTree(x, sv) <==> Attached(Items(sv), n, item.svc.name)
    ensures Loc(n, c) in OverlayTree(x, sv) ==> Written(x, item, Loc(n, c), OverlayTree(x, sv)[Loc(n, c)])
  {
    hide Merge, ItemsLog, Items;
    var items, loc, t := Items(sv), Loc(n, c), OverlayTree(x, sv);
    OverlayExact(x, sv, items, loc);
    if loc in t {
      var other :| other in items && Writes(x, sv, other, loc) && Written(x, other, loc, t[loc]);
      WritesInstance(x, sv, other, loc, item.svc.name);
    }
    if other :| other in items && other.Node() == n && other.svc.name == item.svc.name {
      assert Writes(x, sv, other, loc);
    }
  }

  /** Every instance of the device trees has been given a type. */
  ghost predicate AllTyped(x: Inputs, sv: Services)
    requires AllOk(x, sv, Items(sv))
  {
    forall n, name :: HasInstance(OverlayTree(x, sv), n, NiName(x, name)) ==>
                        Loc(n, InstanceType(NiName(x, name))) in OverlayTree(x, sv)
  }

  /**
   Exactly when every instance has a type: the bridge that an irb joins has a static interface on that very
   device. Otherwise the irb leaves a bridge instance without type, EVI and route targets.
   */
  lemma TypedExactly(x: Inputs, sv: Services)
    requires AllOk(x, sv, Items(sv))
    ensures AllTyped(x, sv) <==>
              forall item :: item in Items(sv) && item.Irb() ==> Attached(Items(sv), item.Node(), item.itf.bridge.value)
  {
    var items, t := Items(sv), OverlayTree(x, sv);
    forall item | item in items && item.Irb() && AllTyped(x, sv)
      ensures Attached(items, item.Node(), item.itf.bridge.value)
    {
      var n, name := item.Node(), item.itf.bridge.value;
      assert IrbInto(items, n, name);
      InstancesExact(x, sv, n, name);
      TypeNeedsAttachment(x, sv, n, name);
    }
    if forall item :: item in items && item.Irb() ==> Attached(items, item.Node(), item.itf.bridge.value) {
      forall n, name | HasInstance(t, n, NiName(x, name))
        ensures Loc(n, InstanceType(NiName(x, name))) in t
      {
        InstancesExact(x, sv, n, name);
        TypeNeedsAttachment(x, sv, n, name);
      }
    }
  }

  lemma TypeNeedsAttachment(x: Inputs, sv: Services, n: string, name: string)
    requires AllOk(x, sv, Items(sv))
    ensures Loc(n, InstanceType(NiName(x, name))) in OverlayTree(x, sv) <==> Attached(Items(sv), n, name)
  {
    var items, loc := Items(sv), Loc(n, InstanceType(NiName(x, name)));
    OverlayExact(x, sv, items, loc);
    if loc in OverlayTree(x, sv) {
      var item :| item in items && Writes(x, sv, item, loc);
      WritesInstance(x, sv, item, loc, name);
    }
    if item :| item in items && item.Node() == n && item.svc.name == name {
      assert Writes(x, sv, item, loc);
    }
  }

  // ---------------------------------------------------------------- ports

  /** Static interfaces that share a sub-interface of a device give it the same values. */
  ghost predicate PortsAgree(x: Inputs, sv: Services)
    requires AllOk(x, sv, Items(sv))
  {
    forall a, b :: (a in Items(sv) && b in Items(sv) && a.Node() == b.Node() && ItemSub(x, a) == ItemSub(x, b)) ==>
                     PortValue(x, a) == PortValue(x, b)
  }

  lemma {:induction false} AddressesExact(x: Inputs, addresses: seq<string>, v4: bool, a: string)
    ensures a in AddressesOf(x, addresses, v4) <==> a in addresses && x.api.parses(a) && x.api.isV4(a) == v4
  {
    if addresses != [] {
      var k := |addresses| - 1;
      AddressesExact(x, addresses[..k], v4, a);
      assert addresses == addresses[..k] + [addresses[k]];
    }
  }

  /** A port has its own VLAN and exactly the parsable addresses of its interface, split by family. */
  predicate PortOf(x: Inputs, item: Item, v: Val) {
    && v.VSub? && v.peerName == "customer"
    && v.vlan == (if item.Irb() then None else Some(item.itf.vlan.GetOr(item.Id())))
    && (item.routed <==> v.ipv4.Some?) && (item.routed <==> v.ipv6.Some?)
  }

  ghost predicate CarriesAddresses(x: Inputs, item: Item, v: Val)
    requires v.VSub?
  {
    item.routed && v.ipv4.Some? && v.ipv6.Some? ==>
      && (forall a :: a in v.ipv4.value <==> a in item.itf.addresses && x.api.parses(a) && x.api.isV4(a))
      && (forall a :: a in v.ipv6.value <==> a in item.itf.addresses && x.api.parses(a) && !x.api.isV4(a))
  }

  /**
   The sub-interfaces of an overlay are exactly the static interfaces' ports, each holding the values of one of
   the interfaces it stands for, and of every one of them if they agree.
   */
  lemma PortsExact(x: Inputs, sv: Services, n: string, sub: Sub)
    requires AllOk(x, sv, Items(sv))
    ensures var t, loc := OverlayTree(x, sv), Loc(n, SubInterface(sub));
            && (loc in t <==> exists item :: item in Items(sv) && item.Node() == n && ItemSub(x, item) == sub)
            && (loc in t ==> exists item :: item in Items(sv) && item.Node() == n && ItemSub(x, item) == sub &&
                                            PortOf(x, item, t[loc]) && CarriesAddresses(x, item, t[loc]))
            && (PortsAgree(x, sv) ==>
                  forall item :: item in Items(sv) && item.Node() == n && ItemSub(x, item) == sub ==>
                    PortOf(x, item, t[loc]) && CarriesAddresses(x, item, t[loc]))
  {
    hide Merge, ItemsLog, Items, PortValue;
    var items, t, loc := Items(sv), OverlayTree(x, sv), Loc(n, SubInterface(sub));
    OverlayExact(x, sv, items, loc);
    if loc in t {
      var last :| last in items && Writes(x, sv, last, loc) && Written(x, last, loc, t[loc]);
      PortHasAddresses(x, last);
    }
    forall item | item in items && item.Node() == n && ItemSub(x, item) == sub
      ensures loc in t && (PortsAgree(x, sv) ==> PortOf(x, item, t[loc]) && CarriesAddresses(x, item, t[loc]))
    {
      assert Writes(x, sv, item, loc);
      PortHasAddresses(x, item);
    }
  }

  lemma PortHasAddresses(x: Inputs, item: Item)
    ensures PortOf(x, item, PortValue(x, item)) && CarriesAddresses(x, item, PortValue(x, item))
  {
    var addresses := item.itf.addresses;
    forall a
      ensures a in AddressesOf(x, addresses, true) <==> a in addresses && x.api.parses(a) && x.api.isV4(a)
      ensures a in AddressesOf(x, addresses, false) <==> a in addresses && x.api.parses(a) && !x.api.isV4(a)
    {
      AddressesExact(x, addresses, true, a);
      AddressesExact(x, addresses, false, a);
    }
  }

  ghost predicate PortKept(x: Inputs, sv: Services, item: Item)
    requires AllOk(x, sv, Items(sv)) && item in Items(sv)
  {
    var loc := Loc(item.Node(), SubInterface(ItemSub(x, item)));
    loc in OverlayTree(x, sv) && OverlayTree(x, sv)[loc] == PortValue(x, item)
  }

  /**
   Every static interface keeps its own VLAN and addresses if and only if those that share a sub-interface of a
   device agree; where two differ, one of them is overwritten.
   */
  lemma PortsKeptExactly(x: Inputs, sv: Services)
    requires AllOk(x, sv, Items(sv))
    ensures (forall item :: item in Items(sv) ==> PortKept(x, sv, item)) <==> PortsAgree(x, sv)
  {
    hide Merge, ItemsLog, Items, PortValue;
    var items, t := Items(sv), OverlayTree(x, sv);
    if PortsAgree(x, sv) {
      forall item | item in items
        ensures PortKept(x, sv, item)
      {
        var loc := Loc(item.Node(), SubInterface(ItemSub(x, item)));
        OverlayExact(x, sv, items, loc);
        assert Writes(x, sv, item, loc);
        var other :| other in items && Writes(x, sv, other, loc) && Written(x, other, loc, t[loc]);
        assert PortValue(x, other) == PortValue(x, item);
      }
    } else {
      var a, b :| a in items && b in items && a.Node() == b.Node() && ItemSub(x, a) == ItemSub(x, b) &&
                  PortValue(x, a) != PortValue(x, b);
      assert !(PortKept(x, sv, a) && PortKept(x, sv, b));
    }
  }

  /** Where PortsAgree can fail: irbs of one router on one device share a sub-interface, whatever their addresses. */
  lemma IrbsShareSub(x: Inputs, a: Item, b: Item)
    requires a.Irb() && b.Irb() && a.svc == b.svc && a.Node() == b.Node()
    ensures ItemSub(x, a) == ItemSub(x, b)
    ensures PortValue(x, a) == PortValue(x, b) <==>
              AddressesOf(x, a.itf.addresses, true) == AddressesOf(x, b.itf.addresses, true) &&
              AddressesOf(x, a.itf.addresses, false) == AddressesOf(x, b.itf.addresses, false)
  {
    hide AddressesOf;
  }

  /** An interface of a device is VLAN-tagged exactly when it carries a port, irb excepted. */
  lemma TaggedExactly(x: Inputs, sv: Services, n: string, f: string)
    requires AllOk(x, sv, Items(sv))
    ensures var t, loc := OverlayTree(x, sv), Loc(n, VlanTagging(f));
            (loc in t && t[loc] == VFlag(true)) <==>
              exists item :: item in Items(sv) && item.Node() == n && !item.Irb() && ItemSub(x, item).ifName == f
  {
    hide Merge, ItemsLog, Items;
    var items, t, loc := Items(sv), OverlayTree(x, sv), Loc(n, VlanTagging(f));
    OverlayExact(x, sv, items, loc);
    if item :| item in items && item.Node() == n && !item.Irb() && ItemSub(x, item).ifName == f {
      assert Writes(x, sv, item, loc);
    }
  }
}
