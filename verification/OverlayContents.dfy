/**
 What BuildOverlay accepts and what it leaves, in terms of the bridges, routers and inventory alone: for every kind of
 entry, on which device, under which name and with which value it is.
 */
module OverlayContents {
  import opened Options
  import opened Names
  import opened ConfigTree
  import opened Design
  import opened Overlay
  import opened OverlayTheorems

  /** A static interface of a bridge or a router of the network. */
  predicate Static(sv: Services, item: Item) {
    !item.itf.dynamic && item.itf in item.svc.itfs && item.svc in if item.routed then sv.routers else sv.bridges
  }

  /** uint32 of the service's network id. */
  function NetworkId(item: Item): nat {
    item.svc.networkId % 4_294_967_296
  }

  predicate OnNode(item: Item, n: string) {
    item.itf.node.Some? && item.itf.node.value.node == n
  }

  /** The inventory's record of the interface's endpoint. */
  predicate HasRecord(x: Inputs, item: Item) {
    item.itf.node.Some? && item.itf.endpoint.Some? &&
    (x.topology + "." + item.itf.node.value.kuid, item.itf.endpoint.value) in x.api.endpoints
  }

  function Record(x: Inputs, item: Item): InventoryEndpoint
    requires HasRecord(x, item)
  {
    x.api.endpoints[(x.topology + "." + item.itf.node.value.kuid, item.itf.endpoint.value)]
  }

  /** A router interface that joins a bridge. */
  predicate Joins(item: Item, bridge: string) {
    item.routed && item.itf.bridge == Some(bridge)
  }

  /** The sub-interface is the interface's port: of the recorded endpoint, of the interface's own, or of irb0. */
  predicate PortIs(x: Inputs, item: Item, sub: Sub) {
    && sub.id == NetworkId(item)
    && (if !item.routed then HasRecord(x, item) && sub.ifName == Record(x, item).endpoint
        else if item.itf.bridge.None? then item.itf.endpoint == Some(sub.ifName)
        else sub.ifName == "irb0")
  }

  // ---------------------------------------------------------------- success

  /** Node and endpoint are given and recorded, or for an irb the node, and its bridge is one of the network's. */
  predicate Placeable(x: Inputs, sv: Services, item: Item) {
    if item.routed && item.itf.bridge.Some? then
      && item.itf.node.Some? && x.topology + "." + item.itf.node.value.kuid in x.api.nodes
      && exists b :: b in sv.bridges && b.name == item.itf.bridge.value
    else HasRecord(x, item)
  }

  lemma PlaceableExactly(x: Inputs, sv: Services, item: Item)
    ensures ItemOk(x, sv, item) <==> Placeable(x, sv, item)
  {
  }

  /** BuildOverlay succeeds if and only if every static interface can be placed. */
  lemma SuccessExactly(x: Inputs, sv: Services)
    ensures AllOk(x, sv, Items(sv)) <==> forall item :: Static(sv, item) ==> Placeable(x, sv, item)
  {
    hide ItemOk, Placeable, Items;
    forall item
      ensures item in Items(sv) <==> Static(sv, item)
      ensures ItemOk(x, sv, item) <==> Placeable(x, sv, item)
    {
      ItemsExact(sv, item);
      PlaceableExactly(x, sv, item);
    }
  }

  // ---------------------------------------------------------------- one static interface

  /** What an entry says is what this interface gives it. */
  ghost predicate Gives(x: Inputs, item: Item, loc: Loc, v: Val) {
    && OnNode(item, loc.node)
    && match loc.cell
       case Provider =>
         v.VText? && if item.routed && item.itf.bridge.Some?
                     then var key := x.topology + "." + item.itf.node.value.kuid;
                          key in x.api.nodes && v.text == x.api.nodes[key].provider
                     else HasRecord(x, item) && v.text == Record(x, item).provider
       case VlanTagging(f) =>
         !(item.routed && item.itf.bridge.Some?) && PortIs(x, item, Sub(f, NetworkId(item))) && v == VFlag(true)
       case SubInterface(s) => PortIs(x, item, s) && PortGives(x, item, v)
       case InstanceType(ni) =>
         ni == x.Ni() + "." + item.svc.name && v == VText(if item.routed then "ip-vrf" else "mac-vrf")
       case InstanceItf(ni, s) =>
         PortIs(x, item, s) && v == VPresent &&
         (ni == x.Ni() + "." + item.svc.name || exists b :: Joins(item, b) && ni == x.Ni() + "." + b)
       case Tunnel(f) => x.design.vxlan && f == "vxlan0" && v == VPresent
       case TunnelSub(s) =>
         x.design.vxlan && s == Sub("vxlan0", NetworkId(item)) &&
           v == VText(if item.routed then "routed" else "bridged")
       case InstanceVxlan(ni) =>
         x.design.vxlan && ni == x.Ni() + "." + item.svc.name && v == VItf(Sub("vxlan0", NetworkId(item)))
       case Evpn(ni) => ni == x.Ni() + "." + item.svc.name && v == VEvpn(NetworkId(item), 2, "vxlan0")
       case Vpn(ni) => ni == x.Ni() + "." + item.svc.name && v == VVpn(RouteTarget(x, item), RouteTarget(x, item))
       case _ => false
  }

  function RouteTarget(x: Inputs, item: Item): string {
    "target:" + Decimal(if x.design.ibgp.Some? &&
                        x.design.ibgp.value.asn.Some? then x.design.ibgp.value.asn.value else 0)
    + ":" + Decimal(NetworkId(item))
  }

  /** The port's fields: its type, its VLAN, and the parsable addresses of a router interface by family, in order. */
  ghost predicate PortGives(x: Inputs, item: Item, v: Val) {
    && v.VSub? && v.peerName == "customer"
    && v.kind == (if !item.routed then "bridged" else if item.itf.bridge.None? then "routed" else "")
    && v.vlan == (if item.routed && item.itf.bridge.Some? then None
                  else if item.itf.vlan.Some? then item.itf.vlan else Some(NetworkId(item)))
    && (if !item.routed then v.ipv4 == None && v.ipv6 == None
        else v.ipv4.Some? && Picked(x, item.itf.addresses, true, v.ipv4.value) &&
             v.ipv6.Some? && Picked(x, item.itf.addresses, false, v.ipv6.value))
  }

  /** The picked addresses are those of the family that parse, in the order and number of the list. */
  ghost predicate Picked(x: Inputs, addresses: seq<string>, v4: bool, picked: seq<string>) {
    exists at :: Ascending(at) && At(addresses, at, picked) && PickedAt(x, addresses, v4, at)
  }

  predicate Ascending(at: seq<nat>) {
    forall i, j :: 0 <= i < j < |at| ==> at[i] < at[j]
  }

  /** The picked addresses stand at these positions. */
  predicate At(addresses: seq<string>, at: seq<nat>, picked: seq<string>) {
    |at| == |picked| && forall i :: 0 <= i < |at| ==> at[i] < |addresses| && picked[i] == addresses[at[i]]
  }

  ghost predicate PickedAt(x: Inputs, addresses: seq<string>, v4: bool, at: seq<nat>) {
    forall k :: 0 <= k < |addresses| ==> (k in at <==> x.api.parses(addresses[k]) && x.api.isV4(addresses[k]) == v4)
  }

  lemma {:induction false} AddressesPicked(x: Inputs, addresses: seq<string>, v4: bool) returns (at: seq<nat>)
    ensures Ascending(at) && At(addresses, at, AddressesOf(x, addresses, v4)) && PickedAt(x, addresses, v4, at)
  {
    hide Ascending, At, PickedAt;
    at := [];
    if addresses == [] {
      NothingPicked(x, v4);
    } else {
      var k := |addresses| - 1;
      var front, a := addresses[..k], addresses[k];
      at := AddressesPicked(x, front, v4);
      assert addresses == front + [a];
      MoreAt(front, a, at, AddressesOf(x, front, v4));
      MorePicked(x, front, a, v4, at);
      if x.api.parses(a) && x.api.isV4(a) == v4 {
        at := at + [k];
      } else {
        assert AddressesOf(x, addresses, v4) == AddressesOf(x, front, v4);
      }
    }
  }

  lemma NothingPicked(x: Inputs, v4: bool)
    ensures Ascending([]) && At([], [], AddressesOf(x, [], v4)) && PickedAt(x, [], v4, [])
  {
  }

  lemma MorePicked(x: Inputs, front: seq<string>, a: string, v4: bool, at: seq<nat>)
    requires PickedAt(x, front, v4, at) && |front| !in at
    ensures PickedAt(x, front + [a], v4, if x.api.parses(a) && x.api.isV4(a) == v4 then at + [|front|] else at)
  {
  }

  lemma MoreAt(front: seq<string>, a: string, at: seq<nat>, picked: seq<string>)
    requires Ascending(at) && At(front, at, picked)
    ensures |front| !in at && At(front + [a], at, picked)
    ensures Ascending(at + [|front|]) && At(front + [a], at + [|front|], picked + [a])
  {
  }

  lemma PortOfItem(x: Inputs, item: Item, sub: Sub)
    requires item.Irb() || EndpointKnown(x, item.itf)
    ensures PortIs(x, item, sub) <==> sub == ItemSub(x, item)
  {
  }

  lemma PortGiven(x: Inputs, item: Item)
    ensures PortGives(x, item, PortValue(x, item))
  {
    var four := AddressesPicked(x, item.itf.addresses, true);
    var six := AddressesPicked(x, item.itf.addresses, false);
  }

  ghost predicate AllGiven(x: Inputs, item: Item, p: Patch) {
    forall loc :: loc in p ==> Gives(x, item, loc, p[loc])
  }

  lemma HeadGives(x: Inputs, sv: Services, item: Item)
    requires ItemOk(x, sv, item)
    ensures item.routed ==> forall p :: p in RouterHead(x, sv, item) ==> AllGiven(x, item, p)
    ensures !item.routed ==> forall p :: p in BridgeHead(x, sv, item) ==> AllGiven(x, item, p)
  {
    hide PortGives, PortValue, RouteTarget;
    PortOfItem(x, item, ItemSub(x, item));
    PortGiven(x, item);
  }

  lemma PartsGive(x: Inputs, sv: Services, item: Item)
    requires ItemOk(x, sv, item)
    ensures forall p :: p in VxlanPart(x, item) ==> AllGiven(x, item, p)
    ensures forall p :: p in EvpnPart(x, item) ==> AllGiven(x, item, p)
  {
    hide PortGives, PortIs;
    SameTarget(x, item);
    hide Target, RouteTarget;
  }

  lemma SameTarget(x: Inputs, item: Item)
    ensures Target(x, item.Id()) == RouteTarget(x, item)
  {
    assert "target:" + Decimal(x.design.IbgpAs()) + ":" + Decimal(item.Id()) ==
           "target:" + Decimal(x.design.IbgpAs()) + (":" + Decimal(item.Id()));
  }

  lemma RouterPortGives(x: Inputs, sv: Services, item: Item)
    requires ItemOk(x, sv, item) && item.routed
    ensures forall p :: p in RouterPort(x, sv, item) ==> AllGiven(x, item, p)
  {
    hide PortGives, PortValue, RouteTarget;
    PortOfItem(x, item, ItemSub(x, item));
    PortGiven(x, item);
    if item.Irb() {
      assert Joins(item, item.itf.bridge.value);
    }
  }

  /** Everything that a static interface writes, it gives. */
  lemma ItemGives(x: Inputs, sv: Services, item: Item, loc: Loc)
    requires ItemOk(x, sv, item) && loc in ItemTree(x, sv, item)
    ensures Gives(x, item, loc, ItemTree(x, sv, item)[loc])
  {
    hide RouterHead, BridgeHead, VxlanPart, EvpnPart, RouterPort, Gives;
    var log := ItemLog(x, sv, item);
    HeadGives(x, sv, item);
    PartsGive(x, sv, item);
    if item.routed {
      RouterPortGives(x, sv, item);
    }
    var i := LastWriter(log, loc);
    assert AllGiven(x, item, log[i]);
  }

  /** Where a static interface gives something, it writes. */
  lemma GivenIsWritten(x: Inputs, sv: Services, item: Item, loc: Loc, v: Val)
    requires ItemOk(x, sv, item) && Gives(x, item, loc, v)
    ensures loc in ItemTree(x, sv, item)
  {
    hide PortGives, RouteTarget, ItemTree;
    ItemTreeExact(x, sv, item, loc);
    match loc.cell {
      case VlanTagging(f) => PortOfItem(x, item, Sub(f, NetworkId(item)));
      case SubInterface(s) => PortOfItem(x, item, s);
      case InstanceItf(ni, s) =>
        PortOfItem(x, item, s);
        JoinedBridge(x, item, ni);
      case _ =>
    }
  }

  lemma JoinedBridge(x: Inputs, item: Item, ni: string)
    ensures (exists b :: Joins(item, b) && ni == x.Ni() + "." + b) <==>
              item.Irb() && ni == NiName(x, item.itf.bridge.value)
  {
    if item.Irb() && ni == NiName(x, item.itf.bridge.value) {
      assert Joins(item, item.itf.bridge.value);
    }
  }

  // ---------------------------------------------------------------- the whole overlay

  lemma {:induction false} ItemsGive(x: Inputs, sv: Services, items: seq<Item>, loc: Loc)
    requires AllOk(x, sv, items)
    ensures loc in Merge(ItemsLog(x, sv, items)) <==> exists item, v :: item in items && Gives(x, item, loc, v)
    ensures loc in Merge(ItemsLog(x, sv, items)) ==>
              exists item :: item in items && Gives(x, item, loc, Merge(ItemsLog(x, sv, items))[loc])
  {
    hide Gives, ItemOk, ItemLog;
    if items != [] {
      var front, last := items[..|items| - 1], items[|items| - 1];
      ItemsGive(x, sv, front, loc);
      MergeAppend(ItemsLog(x, sv, front), ItemLog(x, sv, last));
      assert items == front + [last];
      if loc in ItemTree(x, sv, last) {
        ItemGives(x, sv, last, loc);
      }
      if v :| Gives(x, last, loc, v) {
        GivenIsWritten(x, sv, last, loc, v);
      }
    }
  }

  /**
   A successful overlay holds an entry if and only if some static interface gives one there, and the entry has the value
   that one of them gives it.
   */
  lemma OverlayHolds(x: Inputs, sv: Services, loc: Loc)
    requires AllOk(x, sv, Items(sv))
    ensures loc in OverlayTree(x, sv) <==> exists item, v :: Static(sv, item) && Gives(x, item, loc, v)
    ensures loc in OverlayTree(x, sv) ==> exists item ::
              Static(sv, item) && Gives(x, item, loc, OverlayTree(x, sv)[loc])
  {
    hide Gives, Items, ItemOk, ItemsLog, Merge;
    forall item
      ensures item in Items(sv) <==> Static(sv, item)
    {
      ItemsExact(sv, item);
    }
    ItemsGive(x, sv, Items(sv), loc);
  }

  /**
   Every static interface has its port under its endpoint's or irb0's name and its service's network id, and its
   instance lists exactly that; no other sub-interface is there.
   */
  lemma PortsPlaced(x: Inputs, sv: Services, n: string, sub: Sub)
    requires AllOk(x, sv, Items(sv))
    ensures Loc(n, SubInterface(sub)) in OverlayTree(x, sv) <==>
              exists item :: Static(sv, item) && OnNode(item, n) && PortIs(x, item, sub)
    ensures forall item :: Static(sv, item) && OnNode(item, n) && PortIs(x, item, sub) ==>
                             Loc(n, InstanceItf(x.Ni() + "." + item.svc.name, sub)) in OverlayTree(x, sv)
    ensures Loc(n, SubInterface(sub)) in OverlayTree(x, sv) ==>
              exists item :: Static(sv, item) && OnNode(item, n) && PortIs(x, item, sub) &&
                             PortGives(x, item, OverlayTree(x, sv)[Loc(n, SubInterface(sub))])
  {
    hide PortGives, PortIs, Items, OverlayTree;
    var loc := Loc(n, SubInterface(sub));
    OverlayHolds(x, sv, loc);
    forall item | Static(sv, item) && OnNode(item, n) && PortIs(x, item, sub)
      ensures loc in OverlayTree(x, sv) && Loc(n, InstanceItf(x.Ni() + "." + item.svc.name, sub)) in OverlayTree(x, sv)
    {
      PortGiven(x, item);
      assert Gives(x, item, loc, PortValue(x, item));
      var listed := Loc(n, InstanceItf(x.Ni() + "." + item.svc.name, sub));
      assert Gives(x, item, listed, VPresent);
      OverlayHolds(x, sv, listed);
    }
  }
}
