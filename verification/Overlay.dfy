/** What BuildOverlay does for one bridge or router interface (pkg/devbuilder/builder.go), as logs of patches. */
module Overlay {
  import opened Options
  import opened Names
  import opened ConfigTree
  import opened Design

  /** NetworkInterface; a dynamic one has a selector and is skipped. */
  datatype Itf = Itf(dynamic: bool, bridge: Option<string>, endpoint: Option<string>, node: Option<NodeId>,
                     vlan: Option<nat>, addresses: seq<string>)

  /** NetworkBridge and NetworkRouter; the network id is a Go int. */
  datatype Service = Service(name: string, networkId: int, itfs: seq<Itf>)

  datatype Services = Services(bridges: seq<Service>, routers: seq<Service>)

  /** One interface of a bridge or, when `routed`, of a router. */
  datatype Item = Item(routed: bool, svc: Service, itf: Itf) {
    predicate Irb() {
      routed && itf.bridge.Some?
    }

    /** uint32(networkID). */
    function Id(): nat {
      svc.networkId % 0x1_0000_0000
    }

    function Node(): string {
      if itf.node.Some? then itf.node.value.node else ""
    }
  }

  function EndpointKey(x: Inputs, itf: Itf): (string, string)
    requires itf.node.Some? && itf.endpoint.Some?
  {
    (Dotted(x.topology, itf.node.value.kuid), itf.endpoint.value)
  }

  function NodeKey(x: Inputs, itf: Itf): string
    requires itf.node.Some?
  {
    Dotted(x.topology, itf.node.value.kuid)
  }

  predicate EndpointKnown(x: Inputs, itf: Itf) {
    itf.node.Some? && itf.endpoint.Some? && EndpointKey(x, itf) in x.api.endpoints
  }

  predicate BridgePresent(sv: Services, name: string) {
    exists b :: b in sv.bridges && b.name == name
  }

  /** The interface passes every check; the irb check comes last, after most of its configuration is written. */
  predicate ItemOk(x: Inputs, sv: Services, item: Item) {
    if item.Irb() then
      item.itf.node.Some? && NodeKey(x, item.itf) in x.api.nodes && BridgePresent(sv, item.itf.bridge.value)
    else EndpointKnown(x, item.itf)
  }

  function NiName(x: Inputs, name: string): string {
    Dotted(x.Ni(), name)
  }

  function Own(x: Inputs, item: Item): string {
    NiName(x, item.svc.name)
  }

  /** A bridge port is named as the inventory's endpoint record, a router port as the interface says. */
  function ItemSub(x: Inputs, item: Item): Sub
    requires item.Irb() || EndpointKnown(x, item.itf)
  {
    Sub(if item.Irb() then IRB_ITF
        else if item.routed then item.itf.endpoint.value
        else x.api.endpoints[EndpointKey(x, item.itf)].endpoint,
        item.Id())
  }

  function ItemProvider(x: Inputs, sv: Services, item: Item): string
    requires ItemOk(x, sv, item)
  {
    if item.Irb() then x.api.nodes[NodeKey(x, item.itf)].provider
    else x.api.endpoints[EndpointKey(x, item.itf)].provider
  }

  function ItemVlan(item: Item): nat {
    item.itf.vlan.GetOr(item.Id())
  }

  /** The addresses of one family, in order; addresses that do not parse are dropped. */
  function AddressesOf(x: Inputs, addresses: seq<string>, v4: bool): seq<string> {
    if addresses == [] then []
    else
      var front, a := addresses[..|addresses| - 1], addresses[|addresses| - 1];
      AddressesOf(x, front, v4) + if x.api.parses(a) && x.api.isV4(a) == v4 then [a] else []
  }

  function Target(x: Inputs, id: nat): string {
    "target:" + Decimal(x.design.IbgpAs()) + ":" + Decimal(id)
  }

  function VxlanSub(item: Item): Sub {
    Sub(VXLAN_ITF, item.Id())
  }

  function VxlanPart(x: Inputs, item: Item): Log {
    if x.design.vxlan then
      [AddTunnelSubInterface(item.Node(), VxlanSub(item), if item.routed then "routed" else "bridged"),
       AddInstanceVxlan(item.Node(), Own(x, item), VxlanSub(item))]
    else []
  }

  function EvpnPart(x: Inputs, item: Item): Log {
    [AddEvpn(item.Node(), Own(x, item), item.Id(), VXLAN_ITF),
     AddVpn(item.Node(), Own(x, item), Target(x, item.Id()))]
  }

  function PortValue(x: Inputs, item: Item): (v: Val)
    ensures v.VSub? && (v.vlan.Some? <==> !item.Irb())
  {
    if !item.routed then VSub("customer", "bridged", Some(ItemVlan(item)), None, None)
    else VSub("customer", if item.Irb() then "" else "routed", if item.Irb() then None else Some(ItemVlan(item)),
              Some(AddressesOf(x, item.itf.addresses, true)), Some(AddressesOf(x, item.itf.addresses, false)))
  }

  function BridgeHead(x: Inputs, sv: Services, item: Item): Log
    requires ItemOk(x, sv, item)
  {
    [AddProvider(item.Node(), ItemProvider(x, sv, item)),
     AddSubInterface(item.Node(), ItemSub(x, item), PortValue(x, item)),
     AddNetworkInstance(item.Node(), Own(x, item), "mac-vrf"),
     AddInstanceItf(item.Node(), Own(x, item), ItemSub(x, item))]
  }

  function RouterHead(x: Inputs, sv: Services, item: Item): Log
    requires ItemOk(x, sv, item)
  {
    [AddProvider(item.Node(), ItemProvider(x, sv, item)),
     AddNetworkInstance(item.Node(), Own(x, item), "ip-vrf")]
  }

  function RouterPort(x: Inputs, sv: Services, item: Item): Log
    requires ItemOk(x, sv, item)
  {
    [AddSubInterface(item.Node(), ItemSub(x, item), PortValue(x, item)),
     AddInstanceItf(item.Node(), Own(x, item), ItemSub(x, item))]
    + if item.Irb() then [AddInstanceItf(item.Node(), NiName(x, item.itf.bridge.value), ItemSub(x, item))] else []
  }

  function ItemLog(x: Inputs, sv: Services, item: Item): Log
    requires ItemOk(x, sv, item)
  {
    if item.routed then RouterHead(x, sv, item) + VxlanPart(x, item) + EvpnPart(x, item) + RouterPort(x, sv, item)
    else BridgeHead(x, sv, item) + VxlanPart(x, item) + EvpnPart(x, item)
  }

  // ---------------------------------------------------------------- the loops

  /** The static interfaces of a service, in order. */
  function ItfItems(routed: bool, svc: Service, itfs: seq<Itf>): seq<Item> {
    if itfs == [] then []
    else
      var front, itf := itfs[..|itfs| - 1], itfs[|itfs| - 1];
      ItfItems(routed, svc, front) + if itf.dynamic then [] else [Item(routed, svc, itf)]
  }

  function ServiceItems(routed: bool, ss: seq<Service>): seq<Item> {
    if ss == [] then []
    else
      var svc := ss[|ss| - 1];
      ServiceItems(routed, ss[..|ss| - 1]) + ItfItems(routed, svc, svc.itfs)
  }

  /** The static interfaces in the order they are processed: the bridges' first, then the routers'. */
  function Items(sv: Services): seq<Item> {
    ServiceItems(false, sv.bridges) + ServiceItems(true, sv.routers)
  }

  predicate AllOk(x: Inputs, sv: Services, items: seq<Item>) {
    forall item :: item in items ==> ItemOk(x, sv, item)
  }

  function ItemsLog(x: Inputs, sv: Services, items: seq<Item>): Log
    requires AllOk(x, sv, items)
  {
    if items == [] then []
    else ItemsLog(x, sv, items[..|items| - 1]) + ItemLog(x, sv, items[|items| - 1])
  }

  lemma {:induction false} ItemsLogAppend(x: Inputs, sv: Services, a: seq<Item>, b: seq<Item>)
    requires AllOk(x, sv, a) && AllOk(x, sv, b)
    ensures AllOk(x, sv, a + b) && ItemsLog(x, sv, a + b) == ItemsLog(x, sv, a) + ItemsLog(x, sv, b)
  {
    hide ItemLog, ItemOk;
    if b == [] {
      assert a + b == a;
    } else {
      var front := b[..|b| - 1];
      assert (a + b)[..|a + b| - 1] == a + front;
      ItemsLogAppend(x, sv, a, front);
    }
  }

  /** Every static interface of every bridge and router is an item, and nothing else is. */
  lemma {:induction false} ItfItemsExact(routed: bool, svc: Service, itfs: seq<Itf>, item: Item)
    ensures item in ItfItems(routed, svc, itfs) <==>
              item.routed == routed && item.svc == svc && item.itf in itfs && !item.itf.dynamic
  {
    if itfs != [] {
      var k := |itfs| - 1;
      ItfItemsExact(routed, svc, itfs[..k], item);
      assert itfs == itfs[..k] + [itfs[k]];
    }
  }

  lemma {:induction false} ServiceItemsExact(routed: bool, ss: seq<Service>, item: Item)
    ensures item in ServiceItems(routed, ss) <==>
              item.routed == routed && item.svc in ss && item.itf in item.svc.itfs && !item.itf.dynamic
  {
    if ss != [] {
      var k := |ss| - 1;
      ServiceItemsExact(routed, ss[..k], item);
      ItfItemsExact(routed, ss[k], ss[k].itfs, item);
      assert ss == ss[..k] + [ss[k]];
    }
  }

  lemma ItemsExact(sv: Services, item: Item)
    ensures item in Items(sv) <==>
              item.svc in (if item.routed then sv.routers else sv.bridges) && item.itf in item.svc.itfs &&
                !item.itf.dynamic
  {
    ServiceItemsExact(false, sv.bridges, item);
    ServiceItemsExact(true, sv.routers, item);
  }
}
