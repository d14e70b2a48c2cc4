/**
 The device builder of pkg/devbuilder/builder.go: the loops over links, nodes and reflectors that update the
 device trees, the nodes and reflectors maps, the node set and the design's BFD cells in place.
 */
module Builder {
  import opened Options
  import opened Names
  import opened ConfigTree
  import opened Design
  import opened Underlay
  import opened Overlay
  import Records = Devices
  import Contents = UnderlayContents
  import Placing = OverlayContents

  /** The first link that fails decides what the loop over the links returns. */
  lemma {:induction false} FailureSticks(x: Inputs, links: seq<Link>, k: nat)
    requires k <= |links| && !LinksOutcome(x, links[..k]).Ok?
    ensures LinksOutcome(x, links) == LinksOutcome(x, links[..k])
    decreases |links|
  {
    if k == |links| {
      assert links[..k] == links;
    } else {
      var front := links[..|links| - 1];
      assert front[..k] == links[..k];
      FailureSticks(x, front, k);
    }
  }

  lemma Assoc<T>(a: seq<T>, b: seq<T>, c: seq<T>)
    ensures a + b + c == a + (b + c)
  {
  }

  /** Taking one element out of what is left puts it into what has been seen. */
  lemma OneSeen(all: set<string>, left: set<string>, seen: set<string>, n: string)
    requires left <= all && seen == all - left && n in left
    ensures seen + {n} == all - (left - {n}) && left - {n} <= all && |left - {n}| < |left|
  {
  }

  lemma Regroup<T>(s: seq<T>, c: seq<T>, a: seq<T>, b: seq<T>, d: seq<T>, e: seq<T>)
    ensures s + c + a + (b + d) + e == s + (c + (a + b + d + e))
  {
  }

  lemma Append4<T>(s: seq<T>, a: seq<T>, b: seq<T>, c: seq<T>, d: seq<T>)
    ensures s + a + b + c + d == s + (a + b + c + d)
  {
  }

  // ---------------------------------------------------------------- the mesh, pair by pair

  type Pair = (string, string)

  ghost function Pairs(a: set<string>, b: set<string>): set<Pair> {
    set m, r | m in a && r in b :: (m, r)
  }

  lemma PairsOf(a: set<string>, b: set<string>, n: string, r: string)
    ensures Pairs(a, b) + Pairs({n}, b) == Pairs(a + {n}, b)
    ensures Pairs(a, b) + Pairs(a, {r}) == Pairs(a, b + {r})
    ensures Pairs({n}, {r}) == {(n, r)}
    ensures Pairs({}, b) == {} && Pairs(a, {}) == {}
  {
  }

  ghost predicate EdgePair(x: Inputs, ns: Nodes, rrs: map<string, Reflector>, q: Pair, p: Patch) {
    q.0 in ns && ns[q.0].edge && q.1 in rrs &&
    (p == EdgeGroup(x, q.0) || p == EdgeNeighbor(x, q.0, ns[q.0], rrs[q.1]))
  }

  ghost predicate HostPair(x: Inputs, ns: Nodes, rrs: map<string, Reflector>, q: Pair, p: Patch) {
    q.0 in ns && q.1 in rrs && Hosts(x, q.0, q.1) &&
    (p == HostGroup(x, q.0, rrs[q.1]) ||
     exists e :: e in ns && ns[e].edge && p == HostNeighbor(x, q.0, ns[q.0], rrs[q.1], ns[e]))
  }

  /** `ips` lists exactly the addresses from which the edges peer with a reflector. */
  ghost predicate EdgeAddresses(x: Inputs, ns: Nodes, done: set<string>, rr: Reflector, ips: seq<string>) {
    forall a :: a in ips <==> exists n :: n in done && n in ns && ns[n].edge && a == PeeringAddress(x, ns[n], rr.ipv4)
  }

  /** The log holds exactly the patches of the pairs done. */
  ghost predicate EdgeLog(x: Inputs, ns: Nodes, rrs: map<string, Reflector>, done: set<Pair>, e: Log) {
    forall p :: p in e <==> exists q :: q in done && EdgePair(x, ns, rrs, q, p)
  }

  ghost predicate HostLog(x: Inputs, ns: Nodes, rrs: map<string, Reflector>, done: set<Pair>, h: Log) {
    forall p :: p in h <==> exists q :: q in done && HostPair(x, ns, rrs, q, p)
  }

  lemma EdgeLogUnion(x: Inputs, ns: Nodes, rrs: map<string, Reflector>, done: set<Pair>, e: Log,
                     more: set<Pair>, f: Log)
    requires EdgeLog(x, ns, rrs, done, e) && EdgeLog(x, ns, rrs, more, f)
    ensures EdgeLog(x, ns, rrs, done + more, e + f)
  {
    hide EdgePair;
    forall p
      ensures p in e + f <==> exists q :: q in done + more && EdgePair(x, ns, rrs, q, p)
    {
      if p in e {
        var q :| q in done && EdgePair(x, ns, rrs, q, p);
        assert q in done + more;
      } else if p in f {
        var q :| q in more && EdgePair(x, ns, rrs, q, p);
        assert q in done + more;
      }
    }
  }

  lemma HostLogUnion(x: Inputs, ns: Nodes, rrs: map<string, Reflector>, done: set<Pair>, e: Log,
                     more: set<Pair>, f: Log)
    requires HostLog(x, ns, rrs, done, e) && HostLog(x, ns, rrs, more, f)
    ensures HostLog(x, ns, rrs, done + more, e + f)
  {
    hide HostPair;
    forall p
      ensures p in e + f <==> exists q :: q in done + more && HostPair(x, ns, rrs, q, p)
    {
      if p in e {
        var q :| q in done && HostPair(x, ns, rrs, q, p);
        assert q in done + more;
      } else if p in f {
        var q :| q in more && HostPair(x, ns, rrs, q, p);
        assert q in done + more;
      }
    }
  }

  ghost predicate Collected(x: Inputs, ns: Nodes, done: set<string>, rrs: map<string, Reflector>,
                            ips: map<string, seq<string>>) {
    forall r :: r in rrs ==> r in ips && EdgeAddresses(x, ns, done, rrs[r], ips[r])
  }

  /** One node's address is added for every reflector, when the node is an edge. */
  ghost predicate AddressAdded(x: Inputs, ns: Nodes, n: string, rrs: map<string, Reflector>, met: set<string>,
                               ips: map<string, seq<string>>, now: map<string, seq<string>>)
    requires n in ns
  {
    && ips.Keys == now.Keys == rrs.Keys
    && forall r :: r in rrs ==>
         now[r] == if ns[n].edge && r in met then ips[r] + [PeeringAddress(x, ns[n], rrs[r].ipv4)] else ips[r]
  }

  lemma AddressStep(x: Inputs, ns: Nodes, n: string, rrs: map<string, Reflector>, met: set<string>,
                    ips: map<string, seq<string>>, now: map<string, seq<string>>, r: string)
    requires n in ns && r in rrs && r !in met && AddressAdded(x, ns, n, rrs, met, ips, now)
    ensures AddressAdded(x, ns, n, rrs, met + {r}, ips,
                         now[r := if ns[n].edge then now[r] + [PeeringAddress(x, ns[n], rrs[r].ipv4)] else now[r]])
  {
    hide PeeringAddress;
  }

  lemma AddedKeys(x: Inputs, ns: Nodes, n: string, rrs: map<string, Reflector>, met: set<string>,
                  ips: map<string, seq<string>>, now: map<string, seq<string>>)
    requires n in ns && AddressAdded(x, ns, n, rrs, met, ips, now)
    ensures now.Keys == rrs.Keys
  {
  }

  lemma CollectedStep(x: Inputs, ns: Nodes, done: set<string>, rrs: map<string, Reflector>, n: string,
                      ips: map<string, seq<string>>, now: map<string, seq<string>>)
    requires n in ns && Collected(x, ns, done, rrs, ips) && AddressAdded(x, ns, n, rrs, rrs.Keys, ips, now)
    ensures Collected(x, ns, done + {n}, rrs, now)
  {
    hide EdgeAddresses, PeeringAddress;
    forall r | r in rrs
      ensures r in now && EdgeAddresses(x, ns, done + {n}, rrs[r], now[r])
    {
      EdgeAddressesStep(x, ns, done, rrs[r], ips[r], n);
    }
  }

  lemma EdgeAddressesStep(x: Inputs, ns: Nodes, done: set<string>, rr: Reflector, ips: seq<string>, n: string)
    requires EdgeAddresses(x, ns, done, rr, ips) && n in ns
    ensures EdgeAddresses(x, ns, done + {n}, rr, if ns[n].edge then ips + [PeeringAddress(x, ns[n], rr.ipv4)] else ips)
  {
    hide PeeringAddress;
    var now := if ns[n].edge then ips + [PeeringAddress(x, ns[n], rr.ipv4)] else ips;
    forall a
      ensures a in now <==> exists m ::
                m in done + {n} && m in ns && ns[m].edge && a == PeeringAddress(x, ns[m], rr.ipv4)
    {
      if a in ips {
        var m :| m in done && m in ns && ns[m].edge && a == PeeringAddress(x, ns[m], rr.ipv4);
        assert m in done + {n};
      } else if a in now {
        assert n in done + {n};
      }
    }
  }

  /** What one host of one reflector adds, given the list of edge addresses collected before. */
  lemma HostPairPatches(x: Inputs, ns: Nodes, rrs: map<string, Reflector>, q: Pair, ips: seq<string>, p: Patch)
    requires q.0 in ns && q.1 in rrs && Hosts(x, q.0, q.1) && EdgeAddresses(x, ns, ns.Keys, rrs[q.1], ips)
    ensures HostPair(x, ns, rrs, q, p) <==>
              p == HostGroup(x, q.0, rrs[q.1]) ||
              exists a :: a in ips && p == MeshNeighbor(x, q.0, PeeringAddress(x, ns[q.0], rrs[q.1].ipv4), a)
  {
    hide MeshNeighbor, HostGroup;
    var rr := rrs[q.1];
    if e :| e in ns && ns[e].edge && p == HostNeighbor(x, q.0, ns[q.0], rr, ns[e]) {
      assert PeeringAddress(x, ns[e], rr.ipv4) in ips;
    }
    if a :| a in ips && p == MeshNeighbor(x, q.0, PeeringAddress(x, ns[q.0], rr.ipv4), a) {
      var n :| n in ns && ns[n].edge && a == PeeringAddress(x, ns[n], rr.ipv4);
      assert p == HostNeighbor(x, q.0, ns[q.0], rr, ns[n]);
    }
  }

  lemma SingleEdge(x: Inputs, ns: Nodes, rrs: map<string, Reflector>, q: Pair, more: Log)
    requires q.0 in ns && q.1 in rrs
    requires more == if ns[q.0].edge then [EdgeGroup(x, q.0), EdgeNeighbor(x, q.0, ns[q.0], rrs[q.1])] else []
    ensures EdgeLog(x, ns, rrs, {q}, more)
  {
    hide EdgeGroup, EdgeNeighbor;
    assert q in {q};
  }

  lemma AddressesFromEdges(x: Inputs, ns: Nodes, rr: Reflector, ips: seq<string>)
    requires EdgeAddresses(x, ns, ns.Keys, rr, ips)
    ensures ips != [] <==> exists e :: e in ns && ns[e].edge
  {
    hide PeeringAddress;
    if ips != [] {
      assert ips[0] in ips;
    }
    if e :| e in ns && ns[e].edge {
      assert PeeringAddress(x, ns[e], rr.ipv4) in ips;
    }
  }

  lemma SingleHost(x: Inputs, ns: Nodes, rrs: map<string, Reflector>, q: Pair, ips: seq<string>, more: Log)
    requires q.0 in ns && q.1 in rrs && EdgeAddresses(x, ns, ns.Keys, rrs[q.1], ips)
    requires if !Hosts(x, q.0, q.1) then more == []
             else forall p :: p in more <==>
                    p == HostGroup(x, q.0, rrs[q.1]) ||
                    exists a :: a in ips && p == MeshNeighbor(x, q.0, PeeringAddress(x, ns[q.0], rrs[q.1].ipv4), a)
    ensures HostLog(x, ns, rrs, {q}, more)
  {
    hide HostGroup, HostNeighbor, MeshNeighbor, PeeringAddress, EdgeAddresses;
    forall p
      ensures p in more <==> HostPair(x, ns, rrs, q, p)
    {
      if Hosts(x, q.0, q.1) {
        HostPairPatches(x, ns, rrs, q, ips, p);
      }
    }
    assert q in {q};
  }

  lemma AllEdgePairs(x: Inputs, ns: Nodes, rrs: map<string, Reflector>, e: Log)
    requires ReflectorsResolve(x) && rrs == Reflectors(x)
    requires EdgeLog(x, ns, rrs, Pairs(ns.Keys, rrs.Keys), e)
    ensures forall p :: p in e <==> IsEdgePatch(x, ns, p)
  {
    forall p
      ensures p in e <==> IsEdgePatch(x, ns, p)
    {
      if p in e {
        var q :| q in Pairs(ns.Keys, rrs.Keys) && EdgePair(x, ns, rrs, q, p);
      }
      if IsEdgePatch(x, ns, p) {
        var n, r :| n in ns && ns[n].edge && r in Reflectors(x) &&
                    (p == EdgeGroup(x, n) || p == EdgeNeighbor(x, n, ns[n], Reflectors(x)[r]));
        assert (n, r) in Pairs(ns.Keys, rrs.Keys) && EdgePair(x, ns, rrs, (n, r), p);
      }
    }
  }

  lemma AllHostPairs(x: Inputs, ns: Nodes, rrs: map<string, Reflector>, h: Log)
    requires ReflectorsResolve(x) && rrs == Reflectors(x)
    requires HostLog(x, ns, rrs, Pairs(ns.Keys, rrs.Keys), h)
    ensures forall p :: p in h <==> IsHostPatch(x, ns, p)
  {
    forall p
      ensures p in h <==> IsHostPatch(x, ns, p)
    {
      if p in h {
        var q :| q in Pairs(ns.Keys, rrs.Keys) && HostPair(x, ns, rrs, q, p);
        assert IsHostPatchOf(x, ns, q.0, q.1, p);
      }
      if IsHostPatch(x, ns, p) {
        var n, r :| n in ns && r in Reflectors(x) && Hosts(x, n, r) && IsHostPatchOf(x, ns, n, r, p);
        assert (n, r) in Pairs(ns.Keys, rrs.Keys) && HostPair(x, ns, rrs, (n, r), p);
      }
    }
  }

  // ---------------------------------------------------------------- the gathered link and node

  function At(i: bool): (k: nat)
    ensures k < 2
  {
    if i then 1 else 0
  }

  /** The link object of pkg/devbuilder/link.go: AS and addresses of both ends, filled in while gathering. */
  class GatheredLink {
    const l: Link
    const asn: array<nat>
    const ipv4: array<string>
    const ipv6: array<string>

    ghost predicate Valid() {
      asn.Length == 2 && ipv4.Length == 2 && ipv6.Length == 2 && ipv4 != ipv6
    }

    constructor (l: Link)
      ensures Valid() && this.l == l && fresh(asn) && fresh(ipv4) && fresh(ipv6)
      ensures asn[..] == [0, 0] && ipv4[..] == ["", ""] && ipv6[..] == ["", ""]
    {
      this.l := l;
      asn := new nat[2](_ => 0);
      ipv4 := new string[2](_ => "");
      ipv6 := new string[2](_ => "");
    }

    function Ip(i: bool, v4: bool): string
      requires Valid()
      reads ipv4, ipv6
    {
      if v4 then ipv4[At(i)] else ipv6[At(i)]
    }

    /** End i holds what the claims under its names give. */
    ghost predicate Holds(x: Inputs, i: bool)
      requires Valid()
      reads asn, ipv4, ipv6
    {
      asn[At(i)] == AsOf(x, l.Node(i)) && Ip(i, true) == IpOf(x, l.E(i), true) && Ip(i, false) == IpOf(x, l.E(i), false)
    }

    /** getUnderlaySubInterface. */
    method GetUnderlaySubInterface(x: Inputs, i: bool) returns (v: Val)
      requires Valid() && Holds(x, i)
      ensures v == UnderlaySub(x, l, i)
    {
      var d := x.design;
      v := VSub(Dotted(l.Node(!i), l.Ep(!i)), "routed", None, None, None);
      if d.V4Numbered() {
        v := v.(ipv4 := Some([Ip(i, true)]));
      }
      if d.V4Unnumbered() {
        v := v.(ipv4 := Some([]));
      }
      if d.V6Numbered() {
        v := v.(ipv6 := Some([Ip(i, false)]));
      }
      if d.V6Unnumbered() {
        v := v.(ipv6 := Some([]));
      }
    }
  }

  /** Get or create the level's settings where there is something to set. */
  function SetLevel(level: Option<IsisLevel>, disable: bool, metric: nat): Option<IsisLevel> {
    var made := level.GetOr(IsisLevel(false, 0, 0));
    var disabled := if disable then Some(made.(disable := true)) else level;
    if metric == 0 then disabled
    else Some(disabled.GetOr(made).(metric := metric, metricIpv6 := metric))
  }

  function Unnumbered(x: Inputs, v4: bool): bool {
    if v4 then x.design.V4Unnumbered() else x.design.V6Unnumbered()
  }

  /** What one family adds to a link end under EBGP. */
  function FamilyLog(x: Inputs, l: Link, i: bool, v4: bool): Log {
    if Numbered(x, v4) then [EbgpNeighbor(x, l, i, v4)] else if Unnumbered(x, v4) then [EbgpDynamic(x, l, i)] else []
  }

  lemma FamilyLogs(x: Inputs, l: Link, i: bool)
    requires x.design.ebgp.Some?
    ensures ItfEbgp(x, l, i) == FamilyLog(x, l, i, true) + FamilyLog(x, l, i, false) + [EbgpGroup(x, l, i)]
    ensures !x.design.V4Enabled() ==> FamilyLog(x, l, i, true) == []
    ensures !x.design.V6Enabled() ==> FamilyLog(x, l, i, false) == []
  {
    hide EbgpNeighbor, EbgpDynamic, EbgpGroup;
  }

  lemma NoEbgp(x: Inputs, l: Link, i: bool)
    requires x.design.ebgp.None?
    ensures ItfEbgp(x, l, i) == []
  {
  }

  class DeviceBuilder {
    const x: Inputs
    const sv: Services
    const devices: Records.Devices
    var nodes: Nodes
    var nodeSet: set<string>
    var rrs: map<string, Reflector>
    /** The timer cells that the design owns and every link writes through. */
    var bfd: Timers

    constructor (x: Inputs, sv: Services)
      ensures this.x == x && this.sv == sv && nodes == map[] && nodeSet == {} && rrs == map[]
      ensures bfd == x.design.BfdTimers() && fresh(devices) && devices.Valid() && devices.log == []
    {
      this.x, this.sv := x, sv;
      nodes, nodeSet, rrs := map[], {}, map[];
      bfd := x.design.BfdTimers();
      devices := new Records.Devices();
    }

    // -------------------------------------------------------------- gathering

    method GatherNodeInfo(id: NodeId) returns (ok: bool)
      requires id.node !in nodes
      modifies `nodes
      ensures ok <==> Contents.NodeFound(x, id)
      ensures ok <==> !GatherNode(x, id).Missing?
      ensures !ok ==> nodes == old(nodes)
      ensures ok ==> (id.node in nodes <==> x.api.nodes[x.topology + "." + id.kuid].deviceType.Some?)
      ensures ok && id.node in nodes ==> Contents.NodeIs(x, id, nodes[id.node])
      ensures ok ==> nodes == AddEnd(x, old(nodes), id)
    {
      hide Lookup, Contents.NodeFound, Contents.NodeIs, Inputs.LoopbackClaim, Inputs.RouterIdClaim, Inputs.NodeClaim;
      Contents.GatheredExactly(x, id);
      var d, n, key := x.design, id.node, Dotted(x.topology, id.kuid);
      if key !in x.api.nodes {
        return false;
      }
      var inv := x.api.nodes[key];
      if inv.systemId.None? {
        return false;
      }
      var node := Node(id, inv.provider, inv.systemId.value, "", "", "", 0, false);
      if d.LoopbackV4() {
        var ip := x.Ip(x.LoopbackClaim(n, true));
        if ip.None? {
          return false;
        }
        node := node.(ipv4 := ip.value, routerId := x.api.addressOf(ip.value));
      } else {
        var ip := x.Ip(x.RouterIdClaim(n));
        if ip.None? {
          return false;
        }
        node := node.(routerId := x.api.addressOf(ip.value));
      }
      if d.LoopbackV6() {
        var ip := x.Ip(x.LoopbackClaim(n, false));
        if ip.None? {
          return false;
        }
        node := node.(ipv6 := ip.value);
      }
      if d.ebgp.Some? {
        var asn := x.Asn(x.NodeClaim(n));
        if asn.None? {
          return false;
        }
        node := node.(asn := asn.value);
      } else {
        node := node.(asn := d.IbgpAs());
      }
      if inv.deviceType.None? {
        return true;
      }
      if inv.deviceType.value == "edge" || inv.deviceType.value == "pe" {
        node := node.(edge := true);
      }
      nodes := nodes[id.node := node];
      return true;
    }

    /** The AS and addresses of one end, by the claims under its names. */
    method GatherEnd(g: GatheredLink, i: bool) returns (ok: bool)
      requires g.Valid() && g.asn[At(i)] == 0 && g.Ip(i, true) == "" && g.Ip(i, false) == ""
      modifies g.asn, g.ipv4, g.ipv6
      ensures ok <==> EndClaimed(x, g.l.E(i))
      ensures ok ==> g.Holds(x, i)
      ensures g.asn[At(!i)] == old(g.asn[At(!i)])
      ensures g.Ip(!i, true) == old(g.Ip(!i, true)) && g.Ip(!i, false) == old(g.Ip(!i, false))
    {
      hide Dotted, Lookup;
      var n, ep := g.l.Node(i), g.l.Ep(i);
      if x.design.ebgp.Some? {
        var asn := x.Asn(x.NodeClaim(n));
        if asn.None? {
          return false;
        }
        g.asn[At(i)] := asn.value;
      }
      if x.design.V4Numbered() {
        var ip := x.Ip(x.EndpointClaim(n, ep, true));
        if ip.None? {
          return false;
        }
        g.ipv4[At(i)] := ip.value;
      }
      if x.design.V6Numbered() {
        var ip := x.Ip(x.EndpointClaim(n, ep, false));
        if ip.None? {
          return false;
        }
        g.ipv6[At(i)] := ip.value;
      }
      return true;
    }

    method GatherLinkAndNodeInfo(l: Link) returns (ok: bool, g: GatheredLink)
      modifies `nodes
      ensures fresh(g) && g.Valid() && g.l == l
      ensures ok <==> EndGathers(x, old(nodes), l.a) && EndGathers(x, AddEnd(x, old(nodes), l.a.id), l.b)
      ensures ok ==> g.Holds(x, false) && g.Holds(x, true)
      ensures ok ==> nodes == AddEnd(x, AddEnd(x, old(nodes), l.a.id), l.b.id)
    {
      hide GatherNode, EndClaimed, Contents.NodeIs, Contents.NodeFound, AsOf, IpOf;
      g := new GatheredLink(l);
      for i := 0 to 2
        invariant i == 0 ==> nodes == old(nodes)
        invariant i >= 1 ==> EndGathers(x, old(nodes), l.a) && g.Holds(x, false)
        invariant i < 2 ==> g.asn[i] == 0 && g.ipv4[i] == "" && g.ipv6[i] == ""
        invariant i == 0 ==> g.asn[1] == 0 && g.ipv4[1] == "" && g.ipv6[1] == ""
        invariant i == 1 ==> nodes == AddEnd(x, old(nodes), l.a.id)
        invariant i == 2 ==> EndGathers(x, AddEnd(x, old(nodes), l.a.id), l.b) && g.Holds(x, true)
        invariant i == 2 ==> nodes == AddEnd(x, AddEnd(x, old(nodes), l.a.id), l.b.id)
      {
        var end := l.E(i == 1);
        if end.id.node !in nodes {
          ok := GatherNodeInfo(end.id);
          if !ok {
            return;
          }
        }
        ok := GatherEnd(g, i == 1);
        if !ok {
          return;
        }
      }
      ok := true;
    }

    // -------------------------------------------------------------- base configuration

    method UpdateUnderlayNetworkInstance(n: string)
      requires devices.Valid()
      modifies devices
      ensures devices.Valid() && devices.log == old(devices.log) + BaseInstance(x, n)
    {
      hide Merge, Records.Devices.Valid, AddTunnelInterface, AddNetworkInstance, AddInstanceItf;
      if x.design.vxlan {
        devices.AddTunnelInterface(n, VXLAN_ITF);
      }
      devices.AddNetworkInstance(n, x.Ni(), "default");
      devices.AddInstanceItf(n, x.Ni(), SYSTEM_SUB);
    }

    method UpdateUnderlayIgpNode(n: string, v: Node)
      requires devices.Valid()
      modifies devices
      ensures devices.Valid() && devices.log == old(devices.log) + BaseOspf(x, n, v) + BaseIsis(x, n, v)
    {
      hide Merge, Records.Devices.Valid, AddOspfInstance, AddOspfArea, AddOspfItf, AddIsisInstance, AddIsisItf;
      if x.design.ospf.Some? {
        var o := x.design.ospf.value;
        devices.AddOspfInstance(n, x.Ni(), OspfInstance(o), VOspf(o.version, v.routerId, o.maxEcmp.GetOr(1)));
        devices.AddOspfArea(n, x.Ni(), OspfInstance(o), o.area);
        devices.AddOspfItf(n, x.Ni(), OspfInstance(o), o.area, SYSTEM_SUB, VOspfItf("unknown", true, false));
      }
      assert devices.log == old(devices.log) + BaseOspf(x, n, v);
      if x.design.isis.Some? {
        var o := x.design.isis.value;
        devices.AddIsisInstance(n, x.Ni(), IsisInstance(o),
                            VIsis(o.level, o.areas, v.systemId, o.maxEcmp.GetOr(1), x.design.igpFamilies));
        devices.AddIsisItf(n, x.Ni(), IsisInstance(o), SYSTEM_SUB, VIsisItf(None, None, "unknown", true, None, None));
      }
    }

    method UpdateUnderlayBgpNode(n: string, v: Node)
      requires devices.Valid()
      modifies devices
      ensures devices.Valid() && devices.log == old(devices.log) + BaseBgp(x, n, v)
    {
      hide Merge, Records.Devices.Valid, AddBgpAs, AddBgpRouterId, AddRoutingPolicy, AddBgpFamilies, AddSystemVpn;
      if x.design.ibgp.None? && x.design.ebgp.None? {
        return;
      }
      devices.AddBgpAs(n, x.Ni(), v.asn);
      devices.AddBgpRouterId(n, x.Ni(), v.routerId);
      ghost var base := BgpSection(x, n, v);
      assert devices.log == old(devices.log) + base;
      if x.design.ebgp.Some? {
        devices.AddRoutingPolicy(n, UNDERLAY, x.design.prefixes4, x.design.prefixes6);
      }
      assert devices.log == old(devices.log) + base + EbgpSection(x, n);
      ghost var before := devices.log;
      if x.design.ibgp.Some? {
        devices.AddRoutingPolicy(n, OVERLAY, [], []);
        devices.AddBgpFamilies(n, x.Ni(), x.design.allFamilies);
      }
      assert devices.log == before + IbgpSection(x, n);
      if x.design.bgpEvpn {
        devices.AddSystemVpn(n);
      }
      Append4(old(devices.log), base, EbgpSection(x, n), IbgpSection(x, n), VpnSection(x, n));
    }

    method UpdateBaseNode(n: string, v: Node)
      requires devices.Valid()
      modifies devices
      ensures devices.Valid() && devices.log == old(devices.log) + BaseLog(x, n, v)
    {
      hide Merge, Records.Devices.Valid, AddProvider, AddInterface, AddSubInterface, BaseInstance, BaseOspf, BaseIsis,
           BaseBgp;
      devices.AddProvider(n, v.provider);
      devices.AddInterface(n, IRB_ITF);
      devices.AddInterface(n, SYSTEM_ITF);
      devices.AddSubInterface(n, SYSTEM_SUB, VSub("", "", None, Some(OneOrNone(v.ipv4)), Some(OneOrNone(v.ipv6))));
      assert devices.log == old(devices.log) + BaseHead(n, v);
      UpdateUnderlayNetworkInstance(n);
      UpdateUnderlayIgpNode(n, v);
      UpdateUnderlayBgpNode(n, v);
    }

    /** Both ends of a link, each only when its node has not been processed yet. */
    method UpdateBaseDeviceConfig(l: Link) returns (ok: bool)
      requires devices.Valid() && nodeSet <= nodes.Keys
      modifies devices, `nodeSet
      ensures devices.Valid()
      ensures ok <==> l.Node(false) in nodes && l.Node(true) in nodes
      ensures ok ==> nodeSet == old(nodeSet) + {l.Node(false), l.Node(true)}
      ensures ok ==> devices.log == old(devices.log) + BaseOf(x, old(nodeSet), nodes, l)
    {
      hide Merge, Records.Devices.Valid, BaseLog;
      ghost var first := [];
      for i := 0 to 2
        invariant devices.Valid() && nodeSet <= nodes.Keys
        invariant i == 0 ==> devices.log == old(devices.log) && nodeSet == old(nodeSet)
        invariant i >= 1 ==> l.Node(false) in nodes
        invariant i >= 1 ==>
                    first == if l.Node(false) in old(nodeSet) then []
                             else BaseLog(x, l.Node(false), nodes[l.Node(false)])
        invariant i == 1 ==> devices.log == old(devices.log) + first && nodeSet == old(nodeSet) + {l.Node(false)}
        invariant i == 2 ==> l.Node(true) in nodes && nodeSet == old(nodeSet) + {l.Node(false), l.Node(true)}
        invariant i == 2 ==> devices.log == old(devices.log) + BaseOf(x, old(nodeSet), nodes, l)
      {
        var n := l.Node(i == 1);
        if n !in nodeSet {
          if n !in nodes {
            return false;
          }
          UpdateBaseNode(n, nodes[n]);
          nodeSet := nodeSet + {n};
        }
        if i == 0 {
          first := if n in old(nodeSet) then [] else BaseLog(x, n, nodes[n]);
        }
      }
      return true;
    }

    // -------------------------------------------------------------- link ends

    /** The neighbor of a numbered family, the dynamic neighbor of an unnumbered one. */
    method AddSession(g: GatheredLink, i: bool, v4: bool)
      requires devices.Valid() && g.Valid() && g.Holds(x, false) && g.Holds(x, true)
      modifies devices
      ensures devices.Valid() && devices.log == old(devices.log) + FamilyLog(x, g.l, i, v4)
    {
      hide Merge, Records.Devices.Valid, AddNeighbor, AddDynNeighbor, BgpBfd, AsOf, IpOf, Inputs.Ni;
      var n := g.l.Node(i);
      if Numbered(x, v4) {
        var local, peer := x.api.addressOf(g.Ip(i, v4)), x.api.addressOf(g.Ip(!i, v4));
        devices.AddNeighbor(n, x.Ni(), peer, VNeighbor(local, UNDERLAY, g.asn[At(i)], g.asn[At(!i)], BgpBfd(x, g.l)));
      } else if Unnumbered(x, v4) {
        devices.AddDynNeighbor(n, x.Ni(), EpSub(g.l, i), VDynNeighbor(g.asn[At(!i)], UNDERLAY));
      }
    }

    method UpdateUnderlayEbgpInterface(g: GatheredLink, i: bool)
      requires devices.Valid() && x.design.ebgp.Some? && g.Valid() && g.Holds(x, false) && g.Holds(x, true)
      modifies devices
      ensures devices.Valid() && devices.log == old(devices.log) + ItfEbgp(x, g.l, i)
    {
      hide Merge, Records.Devices.Valid, AddPeerGroup, BgpBfd, AsOf, IpOf, FamilyLog, Inputs.Ni;
      if x.design.V4Enabled() {
        AddSession(g, i, true);
      }
      if x.design.V6Enabled() {
        AddSession(g, i, false);
      }
      devices.AddPeerGroup(g.l.Node(i), x.Ni(), UNDERLAY, VPeerGroup(x.design.underlayFamilies, None, BgpBfd(x, g.l)));
      FamilyLogs(x, g.l, i);
    }

    /** getISISInterface: the levels are created where the link has something to set at them. */
    method GetIsisInterface(l: Link, o: IsisDesign) returns (v: Val)
      ensures v == IsisValue(x, o, l)
    {
      var p, one, two := l.protocols, None, None;
      if o.level == "L1" {
        one := SetLevel(one, p.isisLevel == "L2", p.isisMetric);
      } else if o.level == "L2" {
        two := SetLevel(two, p.isisLevel == "L1", p.isisMetric);
      } else if o.level == "L1L2" {
        two := SetLevel(two, p.isisLevel == "L1", 0);
        one := SetLevel(one, p.isisLevel == "L2", 0);
        one := SetLevel(one, false, p.isisMetric);
        two := SetLevel(two, false, p.isisMetric);
      }
      v := VIsisItf(None, None, if p.isisPassive then "unknown" else p.isisType.GetOr("pointToPoint"), p.isisPassive,
                    one, two);
      var bfd := o.bfd && p.isisBfd.GetOr(true);
      if x.design.V4Enabled() {
        v := v.(bfd4 := Some(bfd));
      }
      if x.design.V6Enabled() {
        v := v.(bfd6 := Some(bfd));
      }
    }

    method UpdateUnderlayIgpInterface(l: Link, i: bool)
      requires devices.Valid()
      modifies devices
      ensures devices.Valid() && devices.log == old(devices.log) + (ItfOspf(x, l, i) + ItfIsis(x, l, i))
    {
      hide Merge, Records.Devices.Valid, AddOspfArea, AddOspfItf, AddIsisItf, IsisValue;
      if x.design.ospf.Some? {
        var o, p := x.design.ospf.value, l.protocols;
        var area, passive := p.ospfArea.GetOr(o.area), p.ospfPassive.GetOr(false);
        devices.AddOspfArea(l.Node(i), x.Ni(), OspfInstance(o), area);
        devices.AddOspfItf(l.Node(i), x.Ni(), OspfInstance(o), area, EpSub(l, i),
                       VOspfItf(if passive then "unknown" else p.ospfType.GetOr("pointToPoint"), passive,
                                o.bfd && p.ospfBfd.GetOr(true)));
      }
      assert devices.log == old(devices.log) + ItfOspf(x, l, i);
      if x.design.isis.Some? {
        var itf := GetIsisInterface(l, x.design.isis.value);
        devices.AddIsisItf(l.Node(i), x.Ni(), IsisInstance(x.design.isis.value), EpSub(l, i), itf);
      }
    }

    /** getBFDLinkParameters: overrides the design's cells; a nil cell is dereferenced. */
    method GetBfdLinkParameters(l: Link) returns (ok: bool)
      modifies `bfd
      ensures ok <==> Overridable(old(bfd), LinkTimers(l))
      ensures ok ==> bfd == Overridden(old(bfd), LinkTimers(l))
    {
      if !Overridable(bfd, LinkTimers(l)) {
        return false;
      }
      bfd := Overridden(bfd, LinkTimers(l));
      return true;
    }

    method UpdateUnderlayItf(g: GatheredLink, i: bool)
      requires devices.Valid() && g.Valid() && g.Holds(x, i)
      modifies devices
      ensures devices.Valid() && devices.log == old(devices.log) + ItfCore(x, g.l, i)
    {
      hide Merge, Records.Devices.Valid, AsOf, IpOf, AddInterface, AddSubInterface, AddInstanceItf, UnderlaySub;
      var l := g.l;
      devices.AddInterface(l.Node(i), l.Ep(i));
      var sub := g.GetUnderlaySubInterface(x, i);
      devices.AddSubInterface(l.Node(i), EpSub(l, i), sub);
      devices.AddInstanceItf(l.Node(i), DEFAULT_NETWORK, EpSub(l, i));
    }

    method UpdateUnderlayEnd(g: GatheredLink, i: bool) returns (ok: bool)
      requires devices.Valid() && g.Valid() && g.Holds(x, false) && g.Holds(x, true)
      modifies devices, `bfd
      ensures devices.Valid()
      ensures ok <==> (x.design.BfdEnabled() ==> Overridable(old(bfd), LinkTimers(g.l)))
      ensures ok ==> bfd == TimersAfter(x, old(bfd), g.l) && devices.log == old(devices.log) + ItfLog(x, g.l, i)
    {
      hide Merge, Records.Devices.Valid, AsOf, IpOf, Overridable, Overridden, LinkTimers, AddBfdInterface, ItfCore,
           ItfOspf, ItfIsis, ItfEbgp;
      var l := g.l;
      UpdateUnderlayItf(g, i);
      if x.design.BfdEnabled() {
        ok := GetBfdLinkParameters(l);
        if !ok {
          return;
        }
        if BfdOn(x, l) {
          devices.AddBfdInterface(l.Node(i), EpSub(l, i));
        }
      }
      assert devices.log == old(devices.log) + ItfCore(x, l, i) + ItfBfd(x, l, i);
      UpdateUnderlayIgpInterface(l, i);
      if x.design.ebgp.Some? {
        UpdateUnderlayEbgpInterface(g, i);
      } else {
        NoEbgp(x, l, i);
      }
      Regroup(old(devices.log), ItfCore(x, l, i), ItfBfd(x, l, i), ItfOspf(x, l, i), ItfIsis(x, l, i),
              ItfEbgp(x, l, i));
      ok := true;
    }

    method UpdateUnderlayInterfaceDeviceConfig(g: GatheredLink) returns (ok: bool)
      requires devices.Valid() && g.Valid() && g.Holds(x, false) && g.Holds(x, true)
      modifies devices, `bfd
      ensures devices.Valid()
      ensures ok <==> (x.design.BfdEnabled() ==> Overridable(old(bfd), LinkTimers(g.l)))
      ensures ok ==> bfd == TimersAfter(x, old(bfd), g.l)
      ensures ok ==> devices.log == old(devices.log) + ItfLog(x, g.l, false) + ItfLog(x, g.l, true)
    {
      var l := g.l;
      hide Merge, Records.Devices.Valid, ItfLog, AsOf, IpOf;
      for i := 0 to 2
        invariant devices.Valid()
        invariant i == 0 ==> devices.log == old(devices.log) && bfd == old(bfd)
        invariant i >= 1 ==> (x.design.BfdEnabled() ==> Overridable(old(bfd), LinkTimers(l)))
        invariant i >= 1 ==> bfd == TimersAfter(x, old(bfd), l)
        invariant i == 1 ==> devices.log == old(devices.log) + ItfLog(x, l, false)
        invariant i == 2 ==> devices.log == old(devices.log) + ItfLog(x, l, false) + ItfLog(x, l, true)
      {
        if i == 1 && x.design.BfdEnabled() {
          OverrideAgain(old(bfd), LinkTimers(l));
        }
        ok := UpdateUnderlayEnd(g, i == 1);
        if !ok {
          return;
        }
      }
      ok := true;
    }

    // -------------------------------------------------------------- the route-reflector mesh

    method GatherRRInfo() returns (ok: bool)
      requires rrs == map[]
      modifies `rrs
      ensures ok <==> ReflectorsResolve(x)
      ensures ok ==> rrs == Reflectors(x)
    {
      var names := ReflectorNames(x);
      for k := 0 to |names|
        invariant forall r :: r in names[..k] ==> x.Ip(r).Some?
        invariant rrs == map r | r in names[..k] :: ReflectorOf(x, r)
      {
        assert names[..k + 1] == names[..k] + [names[k]];
        if x.Ip(names[k]).None? {
          return false;
        }
        rrs := rrs[names[k] := ReflectorOf(x, names[k])];
      }
      assert names[..|names|] == names;
      return true;
    }

    /** First phase for one node and one reflector: only edges peer, and their address is collected. */
    method MeetReflector(n: string, r: string, ips: seq<string>) returns (ok: bool, now: seq<string>, ghost e: Log)
      requires devices.Valid() && n in nodes && r in rrs
      modifies devices
      ensures devices.Valid() && (ok <==> !EdgeStuck(nodes, rrs, n, r))
      ensures ok ==> devices.log == old(devices.log) + e && EdgeLog(x, nodes, rrs, {(n, r)}, e)
      ensures ok ==> now == if nodes[n].edge then ips + [PeeringAddress(x, nodes[n], rrs[r].ipv4)] else ips
    {
      hide Merge, Records.Devices.Valid, AddNeighbor, AddPeerGroup, EdgeLog, PeeringAddress;
      now, e := ips, [];
      if nodes[n].edge {
        devices.AddPeerGroup(n, x.Ni(), OVERLAY, VPeerGroup(x.design.overlayFamilies, None, false));
        if LoopbackOf(nodes[n], rrs[r].ipv4) == "" {
          return false, now, e;
        }
        var local := PeeringAddress(x, nodes[n], rrs[r].ipv4);
        now := now + [local];
        devices.AddNeighbor(n, x.Ni(), rrs[r].ip,
                            VNeighbor(local, OVERLAY, x.design.IbgpAs(), x.design.IbgpAs(), false));
        e := [EdgeGroup(x, n), EdgeNeighbor(x, n, nodes[n], rrs[r])];
      }
      SingleEdge(x, nodes, rrs, (n, r), e);
      ok := true;
    }

    /** First phase for one node: an edge meets the reflectors in any order. */
    method ProcessNode(n: string, ips: map<string, seq<string>>)
      returns (ok: bool, now: map<string, seq<string>>, ghost e: Log)
      requires devices.Valid() && n in nodes && ips.Keys == rrs.Keys
      modifies devices
      ensures devices.Valid() && (ok <==> forall r :: r in rrs ==> !EdgeStuck(nodes, rrs, n, r))
      ensures ok ==> devices.log == old(devices.log) + e && EdgeLog(x, nodes, rrs, Pairs({n}, rrs.Keys), e)
      ensures ok ==> AddressAdded(x, nodes, n, rrs, rrs.Keys, ips, now)
    {
      hide Merge, Records.Devices.Valid, EdgePair, EdgeGroup, EdgeNeighbor, PeeringAddress, Pairs;
      now, e := ips, [];
      var rs := rrs.Keys;
      ghost var met: set<string> := {};
      PairsOf({n}, rrs.Keys, n, n);
      while rs != {}
        invariant devices.Valid() && rs <= rrs.Keys && met == rrs.Keys - rs && devices.log == old(devices.log) + e
        invariant EdgeLog(x, nodes, rrs, Pairs({n}, met), e) && forall r :: r in met ==> !EdgeStuck(nodes, rrs, n, r)
        invariant now.Keys == rrs.Keys && AddressAdded(x, nodes, n, rrs, met, ips, now)
        decreases |rs|
      {
        hide EdgeLog, AddressAdded;
        var r :| r in rs;
        AddressStep(x, nodes, n, rrs, met, ips, now, r);
        var collected;
        ghost var more;
        ok, collected, more := MeetReflector(n, r, now[r]);
        if !ok {
          return;
        }
        EdgeLogUnion(x, nodes, rrs, Pairs({n}, met), e, {(n, r)}, more);
        PairsOf({n}, met, n, r);
        Assoc(old(devices.log), e, more);
        OneSeen(rrs.Keys, rs, met, r);
        now, rs, met, e := now[r := collected], rs - {r}, met + {r}, e + more;
      }
      assert met == rrs.Keys;
      ok := true;
    }

    /** First phase: the nodes, in any order; collects the edges' addresses per reflector. */
    method ProcessEdges() returns (ok: bool, ips: map<string, seq<string>>, ghost e: Log)
      requires devices.Valid() && ReflectorsResolve(x) && rrs == Reflectors(x)
      modifies devices
      ensures devices.Valid() && (ok <==> forall n, r :: n in nodes && r in rrs ==> !EdgeStuck(nodes, rrs, n, r))
      ensures ok ==> devices.log == old(devices.log) + e && forall p :: p in e <==> IsEdgePatch(x, nodes, p)
      ensures ok ==> ips.Keys == rrs.Keys && Collected(x, nodes, nodes.Keys, rrs, ips)
    {
      hide Merge, Records.Devices.Valid, EdgePair, PeeringAddress, IsEdgePatch, Pairs, Reflectors;
      ips, e := map r | r in rrs :: [], [];
      var todo := nodes.Keys;
      ghost var seen: set<string> := {};
      PairsOf({}, rrs.Keys, "", "");
      while todo != {}
        invariant devices.Valid() && todo <= nodes.Keys && seen == nodes.Keys - todo &&
                  devices.log == old(devices.log) + e
        invariant EdgeLog(x, nodes, rrs, Pairs(seen, rrs.Keys), e)
        invariant ips.Keys == rrs.Keys && Collected(x, nodes, seen, rrs, ips)
        invariant forall n, r :: n in seen && r in rrs ==> !EdgeStuck(nodes, rrs, n, r)
        decreases |todo|
      {
        hide EdgeLog, Collected, AddressAdded;
        var n :| n in todo;
        var now;
        ghost var more;
        ok, now, more := ProcessNode(n, ips);
        if !ok {
          return;
        }
        EdgeLogUnion(x, nodes, rrs, Pairs(seen, rrs.Keys), e, Pairs({n}, rrs.Keys), more);
        PairsOf(seen, rrs.Keys, n, n);
        CollectedStep(x, nodes, seen, rrs, n, ips, now);
        AddedKeys(x, nodes, n, rrs, rrs.Keys, ips, now);
        Assoc(old(devices.log), e, more);
        OneSeen(nodes.Keys, todo, seen, n);
        ips, todo, seen, e := now, todo - {n}, seen + {n}, e + more;
      }
      assert seen == nodes.Keys;
      AllEdgePairs(x, nodes, rrs, e);
      ok := true;
    }

    /** Second phase for one reflector and the node that hosts it. */
    method AddHost(n: string, r: string, ips: seq<string>) returns (ok: bool, ghost h: Log)
      requires devices.Valid() && n in nodes && r in rrs
      modifies devices
      ensures devices.Valid() && (ok <==> ips == [] || LoopbackOf(nodes[n], rrs[r].ipv4) != "")
      ensures ok ==> devices.log == old(devices.log) + h
      ensures ok ==> forall p :: p in h <==>
                p == HostGroup(x, n, rrs[r]) ||
                exists a :: a in ips && p == MeshNeighbor(x, n, PeeringAddress(x, nodes[n], rrs[r].ipv4), a)
    {
      hide Merge, Records.Devices.Valid, AddNeighbor, AddPeerGroup, PeeringAddress;
      devices.AddPeerGroup(n, x.Ni(), OVERLAY, VPeerGroup(x.design.overlayFamilies, Some(rrs[r].ip), false));
      h := [HostGroup(x, n, rrs[r])];
      var local := PeeringAddress(x, nodes[n], rrs[r].ipv4);
      for k := 0 to |ips|
        invariant k > 0 ==> LoopbackOf(nodes[n], rrs[r].ipv4) != ""
        invariant devices.Valid() && devices.log == old(devices.log) + h
        invariant forall p :: p in h <==>
                    p == HostGroup(x, n, rrs[r]) || exists a :: a in ips[..k] && p == MeshNeighbor(x, n, local, a)
      {
        if LoopbackOf(nodes[n], rrs[r].ipv4) == "" {
          return false, h;
        }
        devices.AddNeighbor(n, x.Ni(), ips[k], VNeighbor(local, OVERLAY, x.design.IbgpAs(), x.design.IbgpAs(), false));
        h := h + [MeshNeighbor(x, n, local, ips[k])];
        assert ips[..k + 1] == ips[..k] + [ips[k]];
      }
      assert ips[..|ips|] == ips;
      ok := true;
    }

    /** Second phase for one node and one reflector: only a host writes anything. */
    method MeetHost(n: string, r: string, ips: seq<string>) returns (ok: bool, ghost h: Log)
      requires devices.Valid() && n in nodes && r in rrs && EdgeAddresses(x, nodes, nodes.Keys, rrs[r], ips)
      modifies devices
      ensures devices.Valid() && (ok <==> !HostStuck(x, nodes, rrs, n, r))
      ensures ok ==> devices.log == old(devices.log) + h && HostLog(x, nodes, rrs, {(n, r)}, h)
    {
      hide Merge, Records.Devices.Valid, HostLog, HostGroup, MeshNeighbor, EdgeAddresses, PeeringAddress;
      ok, h := true, [];
      if Hosts(x, n, r) {
        AddressesFromEdges(x, nodes, rrs[r], ips);
        ok, h := AddHost(n, r, ips);
        if !ok {
          return;
        }
      }
      SingleHost(x, nodes, rrs, (n, r), ips, h);
    }

    /** Second phase for one reflector: the nodes, in any order. */
    method ProcessReflector(r: string, ips: seq<string>) returns (ok: bool, ghost h: Log)
      requires devices.Valid() && r in rrs && EdgeAddresses(x, nodes, nodes.Keys, rrs[r], ips)
      modifies devices
      ensures devices.Valid() && (ok <==> forall n :: n in nodes ==> !HostStuck(x, nodes, rrs, n, r))
      ensures ok ==> devices.log == old(devices.log) + h && HostLog(x, nodes, rrs, Pairs(nodes.Keys, {r}), h)
    {
      hide Merge, Records.Devices.Valid, HostPair, HostGroup, HostNeighbor, MeshNeighbor, PeeringAddress, Pairs;
      h := [];
      var todo := nodes.Keys;
      ghost var seen: set<string> := {};
      PairsOf({}, {r}, r, r);
      while todo != {}
        invariant devices.Valid() && todo <= nodes.Keys && seen == nodes.Keys - todo &&
                  devices.log == old(devices.log) + h
        invariant HostLog(x, nodes, rrs, Pairs(seen, {r}), h)
        invariant forall n :: n in seen ==> !HostStuck(x, nodes, rrs, n, r)
        decreases |todo|
      {
        hide HostLog, HostStuck, EdgeAddresses;
        var n :| n in todo;
        ghost var more;
        ok, more := MeetHost(n, r, ips);
        if !ok {
          return;
        }
        HostLogUnion(x, nodes, rrs, Pairs(seen, {r}), h, {(n, r)}, more);
        PairsOf(seen, {r}, n, r);
        Assoc(old(devices.log), h, more);
        OneSeen(nodes.Keys, todo, seen, n);
        todo, seen, h := todo - {n}, seen + {n}, h + more;
      }
      assert seen == nodes.Keys;
      ok := true;
    }

    /** Second phase: the reflectors, in any order. */
    method ProcessHosts(ips: map<string, seq<string>>) returns (ok: bool, ghost h: Log)
      requires devices.Valid() && ReflectorsResolve(x) && rrs == Reflectors(x)
      requires Collected(x, nodes, nodes.Keys, rrs, ips)
      modifies devices
      ensures devices.Valid() && (ok <==> forall n, r :: n in nodes && r in rrs ==> !HostStuck(x, nodes, rrs, n, r))
      ensures ok ==> devices.log == old(devices.log) + h && forall p :: p in h <==> IsHostPatch(x, nodes, p)
    {
      hide Merge, Records.Devices.Valid, HostPair, IsHostPatch, Pairs, Reflectors;
      h := [];
      var rs := rrs.Keys;
      ghost var met: set<string> := {};
      PairsOf(nodes.Keys, {}, "", "");
      while rs != {}
        invariant devices.Valid() && rs <= rrs.Keys && met == rrs.Keys - rs && devices.log == old(devices.log) + h
        invariant HostLog(x, nodes, rrs, Pairs(nodes.Keys, met), h)
        invariant forall n, r :: n in nodes && r in met ==> !HostStuck(x, nodes, rrs, n, r)
        decreases |rs|
      {
        hide HostLog, EdgeAddresses;
        var r :| r in rs;
        ghost var more;
        ok, more := ProcessReflector(r, ips[r]);
        if !ok {
          return;
        }
        HostLogUnion(x, nodes, rrs, Pairs(nodes.Keys, met), h, Pairs(nodes.Keys, {r}), more);
        PairsOf(nodes.Keys, met, r, r);
        Assoc(old(devices.log), h, more);
        OneSeen(rrs.Keys, rs, met, r);
        rs, met, h := rs - {r}, met + {r}, h + more;
      }
      assert met == rrs.Keys;
      AllHostPairs(x, nodes, rrs, h);
      ok := true;
    }

    method UpdateUnderlayRRConfig() returns (outcome: Outcome, ghost e: Log, ghost h: Log)
      requires devices.Valid() && rrs == map[]
      modifies devices, `rrs
      ensures devices.Valid()
      ensures outcome == if !ReflectorsResolve(x) then Err else if MeshPanics(x, nodes) then Panic else Ok
      ensures outcome.Ok? ==> devices.log == old(devices.log) + e + h
      ensures outcome.Ok? ==> forall p :: p in e <==> IsEdgePatch(x, nodes, p)
      ensures outcome.Ok? ==> forall p :: p in h <==> IsHostPatch(x, nodes, p)
    {
      hide Merge, Records.Devices.Valid, EdgeStuck, HostStuck, Collected, Reflectors, IsEdgePatch, IsHostPatch;
      e, h := [], [];
      var ok := GatherRRInfo();
      if !ok {
        return Err, e, h;
      }
      var ips;
      ok, ips, e := ProcessEdges();
      if !ok {
        return Panic, e, h;
      }
      ok, h := ProcessHosts(ips);
      outcome := if ok then Ok else Panic;
    }

    // -------------------------------------------------------------- the build

    /** The builder after the links of `front` have succeeded. */
    ghost predicate After(front: seq<Link>)
      reads this, devices
    {
      && devices.Valid() && LinksOutcome(x, front).Ok? && devices.log == LinkLog(x, front)
      && nodes == NodesOf(x, front) && nodeSet == EndNodes(front) && bfd == TimersOf(x, front)
    }

    method ProcessLink(l: Link, ghost front: seq<Link>) returns (outcome: Outcome)
      requires After(front)
      modifies devices, `nodes, `nodeSet, `bfd
      ensures devices.Valid() && outcome == LinksOutcome(x, front + [l])
      ensures outcome.Ok? ==> After(front + [l])
    {
      hide Merge, Records.Devices.Valid, BaseOf, ItfLog, TimersAfter;
      assert (front + [l])[..|front|] == front;
      EndNodesGathered(x, front);
      var gathered, g := GatherLinkAndNodeInfo(l);
      if !gathered {
        return Err;
      }
      var based := UpdateBaseDeviceConfig(l);
      if !based {
        return Panic;
      }
      var updated := UpdateUnderlayInterfaceDeviceConfig(g);
      outcome := if updated then Ok else Panic;
    }

    /**
     The devices.log of a successful build is one of those UnderlayLog describes, so every theorem about such logs
     holds of the trees this method leaves; a failing build fails exactly as BuildOutcome says.
     */
    method BuildUnderlay(links: seq<Link>) returns (outcome: Outcome, ghost e: Log, ghost h: Log)
      requires devices.Valid() && devices.log == [] && nodes == map[] && nodeSet == {} && rrs == map[] &&
               bfd == x.design.BfdTimers()
      modifies this, devices
      ensures devices.Valid() && outcome == BuildOutcome(x, links)
      ensures outcome.Ok? ==>
                UnderlayLog(x, links, devices.log, e, h) &&
                nodes == NodesOf(x, links) && nodeSet == EndNodes(links) && bfd == TimersOf(x, links)
    {
      hide Merge, Records.Devices.Valid, IsEdgePatch, IsHostPatch, MeshPanics, LinkLog, LinkOutcome;
      e, h := [], [];
      assert After([]) by {
        StartOfLoop(x);
      }
      for k := 0 to |links|
        invariant rrs == map[] && After(links[..k])
      {
        outcome := ProcessLink(links[k], links[..k]);
        assert links[..k + 1] == links[..k] + [links[k]];
        if !outcome.Ok? {
          FailureSticks(x, links, k + 1);
          return;
        }
      }
      assert links[..|links|] == links;
      outcome := Ok;
      if x.design.ibgp.Some? {
        outcome, e, h := UpdateUnderlayRRConfig();
      } else {
        NoMeshWithoutIbgp(x, nodes);
      }
    }

    // -------------------------------------------------------------- the overlay

    method IsBridgePresent(name: string) returns (present: bool)
      ensures present <==> BridgePresent(sv, name)
    {
      for k := 0 to |sv.bridges|
        invariant forall b :: b in sv.bridges[..k] ==> b.name != name
      {
        if sv.bridges[k].name == name {
          return true;
        }
      }
      return false;
    }

    method SplitAddresses(addresses: seq<string>) returns (v4: seq<string>, v6: seq<string>)
      ensures v4 == AddressesOf(x, addresses, true) && v6 == AddressesOf(x, addresses, false)
    {
      v4, v6 := [], [];
      for k := 0 to |addresses|
        invariant v4 == AddressesOf(x, addresses[..k], true) && v6 == AddressesOf(x, addresses[..k], false)
      {
        var a := addresses[k];
        assert addresses[..k + 1][..k] == addresses[..k];
        if !x.api.parses(a) {
          continue;
        }
        if x.api.isV4(a) {
          v4 := v4 + [a];
        } else {
          v6 := v6 + [a];
        }
      }
      assert addresses[..|addresses|] == addresses;
    }

    method AddVxlanAndEvpn(item: Item)
      requires devices.Valid()
      modifies devices
      ensures devices.Valid() && devices.log == old(devices.log) + VxlanPart(x, item) + EvpnPart(x, item)
    {
      hide Merge, Records.Devices.Valid, AddTunnelSubInterface, AddInstanceVxlan, AddEvpn, AddVpn, Target;
      var n, ni, id := item.Node(), Own(x, item), item.Id();
      if x.design.vxlan {
        devices.AddTunnelSubInterface(n, Sub(VXLAN_ITF, id), if item.routed then "routed" else "bridged");
        devices.AddInstanceVxlan(n, ni, Sub(VXLAN_ITF, id));
      }
      assert devices.log == old(devices.log) + VxlanPart(x, item);
      devices.AddEvpn(n, ni, id, VXLAN_ITF);
      devices.AddVpn(n, ni, Target(x, id));
    }

    method AddBridgePort(item: Item) returns (ok: bool)
      requires devices.Valid() && !item.routed
      modifies devices
      ensures devices.Valid()
      ensures ok <==> ItemOk(x, sv, item)
      ensures ok <==> Placing.Placeable(x, sv, item)
      ensures ok ==> devices.log == old(devices.log) + ItemLog(x, sv, item)
    {
      hide Merge, Records.Devices.Valid, AddProvider, AddSubInterface, AddNetworkInstance, AddInstanceItf, VxlanPart,
           EvpnPart, Placing.Placeable;
      Placing.PlaceableExactly(x, sv, item);
      var itf := item.itf;
      if itf.endpoint.None? || itf.node.None? || EndpointKey(x, itf) !in x.api.endpoints {
        return false;
      }
      var ep, n, bd, id := x.api.endpoints[EndpointKey(x, itf)], itf.node.value.node, Own(x, item), item.Id();
      var sub := Sub(ep.endpoint, id);
      devices.AddProvider(n, ep.provider);
      devices.AddSubInterface(n, sub, VSub("customer", "bridged", Some(itf.vlan.GetOr(id)), None, None));
      devices.AddNetworkInstance(n, bd, "mac-vrf");
      devices.AddInstanceItf(n, bd, sub);
      assert devices.log == old(devices.log) + BridgeHead(x, sv, item);
      AddVxlanAndEvpn(item);
      Append3(old(devices.log), BridgeHead(x, sv, item), VxlanPart(x, item), EvpnPart(x, item));
      return true;
    }

    method AddRouterHead(item: Item)
      requires devices.Valid() && item.routed &&
               (item.Irb() ==> item.itf.node.Some? && NodeKey(x, item.itf) in x.api.nodes)
      requires !item.Irb() ==> EndpointKnown(x, item.itf)
      modifies devices
      ensures devices.Valid()
      ensures ItemOk(x, sv, item) ==>
                devices.log == old(devices.log) + RouterHead(x, sv, item) + VxlanPart(x, item) + EvpnPart(x, item)
    {
      hide Merge, Records.Devices.Valid, AddProvider, AddNetworkInstance, VxlanPart, EvpnPart;
      var itf, n := item.itf, item.Node();
      if itf.bridge.None? {
        devices.AddProvider(n, x.api.endpoints[EndpointKey(x, itf)].provider);
      } else {
        devices.AddProvider(n, x.api.nodes[NodeKey(x, itf)].provider);
      }
      devices.AddNetworkInstance(n, Own(x, item), "ip-vrf");
      assert ItemOk(x, sv, item) ==> devices.log == old(devices.log) + RouterHead(x, sv, item);
      AddVxlanAndEvpn(item);
    }

    method AddRouterItf(item: Item) returns (ok: bool)
      requires devices.Valid() && item.routed
      modifies devices
      ensures devices.Valid()
      ensures ok <==> ItemOk(x, sv, item)
      ensures ok <==> Placing.Placeable(x, sv, item)
      ensures ok ==> devices.log == old(devices.log) + ItemLog(x, sv, item)
    {
      hide Merge, Records.Devices.Valid, AddSubInterface, AddInstanceItf, RouterHead, VxlanPart, EvpnPart,
           AddressesOf, Placing.Placeable;
      Placing.PlaceableExactly(x, sv, item);
      var itf := item.itf;
      if (itf.bridge.None? && itf.endpoint.None?) || itf.node.None? {
        return false;
      }
      if itf.bridge.None? {
        if EndpointKey(x, itf) !in x.api.endpoints {
          return false;
        }
      } else if NodeKey(x, itf) !in x.api.nodes {
        return false;
      }
      AddRouterHead(item);
      var v4, v6 := SplitAddresses(itf.addresses);
      var n, id, ni := item.Node(), item.Id(), Own(x, item);
      ghost var before := devices.log;
      if itf.bridge.None? {
        var sub := Sub(itf.endpoint.value, id);
        devices.AddSubInterface(n, sub, VSub("customer", "routed", Some(itf.vlan.GetOr(id)), Some(v4), Some(v6)));
        devices.AddInstanceItf(n, ni, sub);
      } else {
        var present := IsBridgePresent(itf.bridge.value);
        if !present {
          return false;
        }
        devices.AddSubInterface(n, Sub(IRB_ITF, id), VSub("customer", "", None, Some(v4), Some(v6)));
        devices.AddInstanceItf(n, ni, Sub(IRB_ITF, id));
        devices.AddInstanceItf(n, NiName(x, itf.bridge.value), Sub(IRB_ITF, id));
      }
      assert devices.log == before + RouterPort(x, sv, item);
      Append4(old(devices.log), RouterHead(x, sv, item), VxlanPart(x, item), EvpnPart(x, item),
              RouterPort(x, sv, item));
      return true;
    }

    /** The interfaces of one bridge or router; dynamic ones are skipped. */
    method AddService(routed: bool, svc: Service) returns (ok: bool)
      requires devices.Valid()
      modifies devices
      ensures devices.Valid()
      ensures ok <==> AllOk(x, sv, ItfItems(routed, svc, svc.itfs))
      ensures ok ==> devices.log == old(devices.log) + ItemsLog(x, sv, ItfItems(routed, svc, svc.itfs))
    {
      hide Merge, Records.Devices.Valid, ItemOk, ItemLog, ItemsLog;
      NoItems(x, sv);
      for k := 0 to |svc.itfs|
        invariant devices.Valid() && AllOk(x, sv, ItfItems(routed, svc, svc.itfs[..k]))
        invariant devices.log == old(devices.log) + ItemsLog(x, sv, ItfItems(routed, svc, svc.itfs[..k]))
      {
        var itf := svc.itfs[k];
        ghost var items := ItfItems(routed, svc, svc.itfs[..k]);
        ItfItemsStep(routed, svc, k);
        if itf.dynamic {
          continue;
        }
        var item := Item(routed, svc, itf);
        if routed {
          ok := AddRouterItf(item);
        } else {
          ok := AddBridgePort(item);
        }
        if !ok {
          ItfItemsExact(routed, svc, svc.itfs, item);
          return;
        }
        OneMoreItem(x, sv, items, item);
        Assoc(old(devices.log), ItemsLog(x, sv, items), ItemLog(x, sv, item));
      }
      assert svc.itfs[..|svc.itfs|] == svc.itfs;
      return true;
    }

    method AddServices(routed: bool, ss: seq<Service>) returns (ok: bool)
      requires devices.Valid()
      modifies devices
      ensures devices.Valid()
      ensures ok <==> AllOk(x, sv, ServiceItems(routed, ss))
      ensures ok ==> devices.log == old(devices.log) + ItemsLog(x, sv, ServiceItems(routed, ss))
    {
      hide Merge, Records.Devices.Valid, ItemOk, ItemsLog, ItfItems;
      assert ItemsLog(x, sv, []) == [] by {
        NoItems(x, sv);
      }
      for k := 0 to |ss|
        invariant devices.Valid() && AllOk(x, sv, ServiceItems(routed, ss[..k]))
        invariant devices.log == old(devices.log) + ItemsLog(x, sv, ServiceItems(routed, ss[..k]))
      {
        assert ss[..k + 1][..k] == ss[..k];
        ok := AddService(routed, ss[k]);
        if !ok {
          var bad :| bad in ItfItems(routed, ss[k], ss[k].itfs) && !ItemOk(x, sv, bad);
          ItfItemsExact(routed, ss[k], ss[k].itfs, bad);
          ServiceItemsExact(routed, ss, bad);
          return;
        }
        ItemsLogAppend(x, sv, ServiceItems(routed, ss[..k]), ItfItems(routed, ss[k], ss[k].itfs));
      }
      assert ss[..|ss|] == ss;
      return true;
    }

    /** Succeeds exactly when every static interface passes its checks, and then leaves the items' devices.log. */
    method BuildOverlay() returns (ok: bool)
      requires devices.Valid() && devices.log == []
      modifies devices
      ensures devices.Valid()
      ensures ok <==> AllOk(x, sv, Items(sv))
      ensures ok <==> forall item :: Placing.Static(sv, item) ==> Placing.Placeable(x, sv, item)
      ensures ok ==> devices.log == ItemsLog(x, sv, Items(sv))
    {
      hide ItemOk, ItemsLog, ServiceItems, Placing.Placeable, Placing.Static;
      Placing.SuccessExactly(x, sv);
      ok := AddServices(false, sv.bridges);
      if ok {
        ok := AddServices(true, sv.routers);
        if ok {
          ItemsLogAppend(x, sv, ServiceItems(false, sv.bridges), ServiceItems(true, sv.routers));
        }
      }
    }

    /** Build: the underlay for the network whose last name part is "default", the overlay for every other. */
    method Build(links: seq<Link>) returns (outcome: Outcome, ghost e: Log, ghost h: Log)
      requires devices.Valid() && devices.log == [] && nodes == map[] && nodeSet == {} && rrs == map[] &&
               bfd == x.design.BfdTimers()
      modifies this, devices
      ensures devices.Valid()
      ensures x.Ni() == DEFAULT_NETWORK ==> outcome == BuildOutcome(x, links)
      ensures x.Ni() == DEFAULT_NETWORK && outcome.Ok? ==> UnderlayLog(x, links, devices.log, e, h)
      ensures x.Ni() != DEFAULT_NETWORK ==> outcome == if AllOk(x, sv, Items(sv)) then Ok else Err
      ensures x.Ni() != DEFAULT_NETWORK && outcome.Ok? ==> devices.log == ItemsLog(x, sv, Items(sv))
    {
      if x.Ni() == DEFAULT_NETWORK {
        outcome, e, h := BuildUnderlay(links);
      } else {
        e, h := [], [];
        var ok := BuildOverlay();
        outcome := if ok then Ok else Err;
      }
    }
  }

  lemma Append3<T>(s: seq<T>, a: seq<T>, b: seq<T>, c: seq<T>)
    ensures s + a + b + c == s + (a + b + c)
  {
  }

  lemma OneMoreItem(x: Inputs, sv: Services, items: seq<Item>, item: Item)
    requires AllOk(x, sv, items) && ItemOk(x, sv, item)
    ensures AllOk(x, sv, items + [item])
    ensures ItemsLog(x, sv, items + [item]) == ItemsLog(x, sv, items) + ItemLog(x, sv, item)
  {
    hide ItemOk, ItemLog;
    assert (items + [item])[..|items|] == items;
  }

  lemma ItfItemsStep(routed: bool, svc: Service, k: nat)
    requires k < |svc.itfs|
    ensures ItfItems(routed, svc, svc.itfs[..k + 1]) ==
            var items := ItfItems(routed, svc, svc.itfs[..k]);
            if svc.itfs[k].dynamic then items else items + [Item(routed, svc, svc.itfs[k])]
  {
    assert svc.itfs[..k + 1][..k] == svc.itfs[..k];
  }

  lemma NoItems(x: Inputs, sv: Services)
    ensures ItemsLog(x, sv, []) == []
  {
  }

  lemma StartOfLoop(x: Inputs)
    ensures LinkLog(x, []) == [] && NodesOf(x, []) == map[] && EndNodes([]) == {} &&
            TimersOf(x, []) == x.design.BfdTimers()
  {
  }

  lemma NoMeshWithoutIbgp(x: Inputs, ns: Nodes)
    requires x.design.ibgp.None?
    ensures ReflectorsResolve(x) && !MeshPanics(x, ns)
    ensures forall p :: !IsEdgePatch(x, ns, p) && !IsHostPatch(x, ns, p)
  {
  }
}
