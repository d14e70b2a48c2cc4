/** The route-reflector mesh of a finished underlay: every edge with every reflector, and nothing else. */
module UnderlayMesh {
  import opened Names
  import opened ConfigTree
  import opened Design
  import opened Underlay
  import opened UnderlayLayers
  import opened UnderlaySessions

  /** The reflector name is node n's loopback claim in the reflector's own, enabled family. */
  predicate HostedAt(x: Inputs, r: string, n: string) {
    r == x.LoopbackClaim(n, ReflectorOf(x, r).ipv4) && LoopbackEnabled(x, ReflectorOf(x, r).ipv4)
  }

  /** Every reflector is the loopback claim of a gathered non-edge node; loopback addresses are distinct. */
  ghost predicate MeshPlan(x: Inputs, ns: Nodes) {
    && ReflectorsResolve(x)
    && (forall r :: r in ReflectorNames(x) ==> exists n :: n in ns && !ns[n].edge && HostedAt(x, r, n))
    && (forall n, f :: n in ns && LoopbackEnabled(x, f) ==> PeeringAddress(x, ns[n], f) != "")
    && (forall n, f, m, g ::
          (n in ns && m in ns && LoopbackEnabled(x, f) && LoopbackEnabled(x, g) &&
           PeeringAddress(x, ns[n], f) == PeeringAddress(x, ns[m], g)) ==> n == m && f == g)
  }

  lemma LoopbackClaimInjective(x: Inputs, n: string, f: bool, m: string, g: bool)
    requires x.LoopbackClaim(n, f) == x.LoopbackClaim(m, g)
    ensures n == m && f == g
  {
    LastDot(x.NodeClaim(n), if f then "ipv4" else "ipv6", x.NodeClaim(m), if g then "ipv4" else "ipv6");
    assert f == g by {
      assert "ipv4"[3] != "ipv6"[3];
    }
    DottedInjective(x.netName, n, m);
  }

  /** Whoever hosts a reflector hosts it as planned: one non-edge node, at its own loopback address. */
  predicate HostsAsPlanned(x: Inputs, ns: Nodes, n: string, r: string)
    requires n in ns
  {
    && !ns[n].edge && HostedAt(x, r, n)
    && ReflectorOf(x, r).ip == PeeringAddress(x, ns[n], ReflectorOf(x, r).ipv4)
  }

  ghost predicate Planned(x: Inputs, ns: Nodes) {
    && MeshPlan(x, ns)
    && forall n, r :: n in ns && r in ReflectorNames(x) && Hosts(x, n, r) ==> HostsAsPlanned(x, ns, n, r)
  }

  lemma HostIsPlanned(x: Inputs, links: seq<Link>, n: string, r: string)
    requires MeshPlan(x, NodesOf(x, links)) && r in ReflectorNames(x)
    requires n in NodesOf(x, links) && Hosts(x, n, r)
    ensures HostsAsPlanned(x, NodesOf(x, links), n, r)
  {
    var ns, rr := NodesOf(x, links), ReflectorOf(x, r);
    var h :| h in ns && !ns[h].edge && HostedAt(x, r, h);
    var f :| r == x.LoopbackClaim(n, f);
    LoopbackClaimInjective(x, n, f, h, rr.ipv4);
    NodesAreGathered(x, links, n);
  }

  lemma PlanHolds(x: Inputs, links: seq<Link>)
    requires MeshPlan(x, NodesOf(x, links))
    ensures Planned(x, NodesOf(x, links))
  {
    var ns := NodesOf(x, links);
    forall n, r | n in ns && r in ReflectorNames(x) && Hosts(x, n, r)
      ensures HostsAsPlanned(x, ns, n, r)
    {
      HostIsPlanned(x, links, n, r);
    }
  }

  lemma HostOf(x: Inputs, ns: Nodes, r: string) returns (h: string)
    requires Planned(x, ns) && r in ReflectorNames(x)
    ensures h in ns && Hosts(x, h, r) && HostsAsPlanned(x, ns, h, r)
  {
    h :| h in ns && !ns[h].edge && HostedAt(x, r, h);
    assert Hosts(x, h, r);
  }

  function MeshSession(x: Inputs, local: string): Val {
    VNeighbor(local, OVERLAY, x.design.IbgpAs(), x.design.IbgpAs(), false)
  }

  // ---------------------------------------------------------------- the patches of the two phases

  /** A session patch of the first phase: an edge, peering with a reflector. */
  lemma EdgePatchShape(x: Inputs, ns: Nodes, p: Patch, n: string, peer: string) returns (u: string)
    requires IsEdgePatch(x, ns, p) && SessionLoc(x, n, peer) in p
    ensures n in ns && ns[n].edge && u in ReflectorNames(x) && peer == ReflectorOf(x, u).ip
    ensures p[SessionLoc(x, n, peer)] == MeshSession(x, PeeringAddress(x, ns[n], ReflectorOf(x, u).ipv4))
  {
    var m;
    m, u :| m in ns && ns[m].edge && u in Reflectors(x) &&
            (p == EdgeGroup(x, m) || p == EdgeNeighbor(x, m, ns[m], Reflectors(x)[u]));
  }

  /** A session patch of the second phase: the host of a reflector, peering with an edge. */
  lemma HostSessionShape(x: Inputs, ns: Nodes, p: Patch, h: string, peer: string) returns (u: string, k: string)
    requires IsHostPatch(x, ns, p) && SessionLoc(x, h, peer) in p
    ensures h in ns && u in ReflectorNames(x) && Hosts(x, h, u)
    ensures k in ns && ns[k].edge && peer == PeeringAddress(x, ns[k], ReflectorOf(x, u).ipv4)
    ensures p[SessionLoc(x, h, peer)] == MeshSession(x, PeeringAddress(x, ns[h], ReflectorOf(x, u).ipv4))
  {
    var m;
    m, u :| m in ns && u in Reflectors(x) && Hosts(x, m, u) && IsHostPatchOf(x, ns, m, u, p);
    assert p != HostGroup(x, m, Reflectors(x)[u]);
    k :| k in ns && ns[k].edge && p == HostNeighbor(x, m, ns[m], Reflectors(x)[u], ns[k]);
  }

  lemma EdgePatchExists(x: Inputs, ns: Nodes, n: string, s: string)
    requires ReflectorsResolve(x) && n in ns && ns[n].edge && s in ReflectorNames(x) && ReflectorOf(x, s).ip != ""
    ensures IsEdgePatch(x, ns, EdgeNeighbor(x, n, ns[n], ReflectorOf(x, s)))
    ensures SessionLoc(x, n, ReflectorOf(x, s).ip) in EdgeNeighbor(x, n, ns[n], ReflectorOf(x, s))
  {
    assert s in Reflectors(x) && Reflectors(x)[s] == ReflectorOf(x, s);
  }

  lemma HostPatchExists(x: Inputs, ns: Nodes, h: string, s: string, n: string)
    requires ReflectorsResolve(x) && h in ns && s in ReflectorNames(x) && Hosts(x, h, s) && n in ns && ns[n].edge
    requires PeeringAddress(x, ns[n], ReflectorOf(x, s).ipv4) != ""
    ensures IsHostPatch(x, ns, HostNeighbor(x, h, ns[h], ReflectorOf(x, s), ns[n]))
    ensures SessionLoc(x, h, PeeringAddress(x, ns[n], ReflectorOf(x, s).ipv4))
            in HostNeighbor(x, h, ns[h], ReflectorOf(x, s), ns[n])
  {
    var p := HostNeighbor(x, h, ns[h], ReflectorOf(x, s), ns[n]);
    assert s in Reflectors(x) && Reflectors(x)[s] == ReflectorOf(x, s);
    assert IsHostPatchOf(x, ns, h, s, p);
  }

  /** In a planned mesh the first phase gives one value to an edge's session with a reflector. */
  lemma EdgePatchValue(x: Inputs, ns: Nodes, p: Patch, n: string, s: string)
    requires Planned(x, ns) && s in ReflectorNames(x)
    requires IsEdgePatch(x, ns, p) && SessionLoc(x, n, ReflectorOf(x, s).ip) in p
    ensures n in ns
    ensures p[SessionLoc(x, n, ReflectorOf(x, s).ip)] ==
              MeshSession(x, PeeringAddress(x, ns[n], ReflectorOf(x, s).ipv4))
  {
    var u := EdgePatchShape(x, ns, p, n, ReflectorOf(x, s).ip);
    var h := HostOf(x, ns, s);
    var k := HostOf(x, ns, u);
  }

  /** The second phase writes on hosts only, which are no edges. */
  lemma HostPatchOffEdge(x: Inputs, ns: Nodes, p: Patch, n: string, peer: string)
    requires Planned(x, ns) && n in ns && ns[n].edge && IsHostPatch(x, ns, p)
    ensures SessionLoc(x, n, peer) !in p
  {
    if SessionLoc(x, n, peer) in p {
      var u, k := HostSessionShape(x, ns, p, n, peer);
      assert false;
    }
  }

  lemma HostPatchValue(x: Inputs, ns: Nodes, p: Patch, h: string, n: string, f: bool)
    requires Planned(x, ns) && n in ns && LoopbackEnabled(x, f)
    requires IsHostPatch(x, ns, p) && SessionLoc(x, h, PeeringAddress(x, ns[n], f)) in p
    ensures h in ns
    ensures p[SessionLoc(x, h, PeeringAddress(x, ns[n], f))] == MeshSession(x, PeeringAddress(x, ns[h], f))
  {
    var u, k := HostSessionShape(x, ns, p, h, PeeringAddress(x, ns[n], f));
    assert HostsAsPlanned(x, ns, h, u);
  }

  // ---------------------------------------------------------------- the final tree

  /** What a location settles to in the phases is what the final tree holds. */
  lemma PhaseDecides(a: Log, e: Log, r: Log, loc: Loc, v: Val)
    requires Settles(r, loc, v) || (Settles(e, loc, v) && forall p :: p in r ==> loc !in p)
    ensures loc in Merge(a + e + r) && Merge(a + e + r)[loc] == v
  {
    MergeAppend(a, e);
    MergeAppend(a + e, r);
    var i := LastWriter(r, loc);
    if Settles(r, loc, v) {
      SettledValue(r, loc, v);
    } else {
      SettledValue(e, loc, v);
    }
  }

  ghost predicate Phases(x: Inputs, ns: Nodes, e: Log, r: Log) {
    && (forall p :: p in e <==> IsEdgePatch(x, ns, p))
    && (forall p :: p in r <==> IsHostPatch(x, ns, p))
  }

  /** An edge's own end of a session. */
  lemma EdgeEnd(x: Inputs, ns: Nodes, a: Log, e: Log, r: Log, n: string, s: string)
    requires Phases(x, ns, e, r) && Planned(x, ns)
    requires n in ns && ns[n].edge && s in ReflectorNames(x)
    ensures var loc := SessionLoc(x, n, ReflectorOf(x, s).ip);
            loc in Merge(a + e + r) &&
              Merge(a + e + r)[loc] == MeshSession(x, PeeringAddress(x, ns[n], ReflectorOf(x, s).ipv4))
  {
    var rr := ReflectorOf(x, s);
    var loc, v := SessionLoc(x, n, rr.ip), MeshSession(x, PeeringAddress(x, ns[n], rr.ipv4));
    var h := HostOf(x, ns, s);
    EdgePatchExists(x, ns, n, s);
    forall p | p in e && loc in p
      ensures p[loc] == v
    {
      EdgePatchValue(x, ns, p, n, s);
    }
    forall p | p in r
      ensures loc !in p
    {
      HostPatchOffEdge(x, ns, p, n, rr.ip);
    }
    assert Settles(e, loc, v);
    PhaseDecides(a, e, r, loc, v);
  }

  /** The reflector's end of a session. */
  lemma HostEnd(x: Inputs, ns: Nodes, a: Log, e: Log, r: Log, n: string, s: string, h: string)
    requires Phases(x, ns, e, r) && Planned(x, ns)
    requires n in ns && ns[n].edge && s in ReflectorNames(x)
    requires h in ns && Hosts(x, h, s)
    ensures var loc := SessionLoc(x, h, PeeringAddress(x, ns[n], ReflectorOf(x, s).ipv4));
            loc in Merge(a + e + r) && Merge(a + e + r)[loc] == MeshSession(x, ReflectorOf(x, s).ip)
  {
    var rr := ReflectorOf(x, s);
    var loc, v := SessionLoc(x, h, PeeringAddress(x, ns[n], rr.ipv4)), MeshSession(x, rr.ip);
    assert HostsAsPlanned(x, ns, h, s);
    HostPatchExists(x, ns, h, s, n);
    forall p | p in r && loc in p
      ensures p[loc] == v
    {
      HostPatchValue(x, ns, p, h, n, rr.ipv4);
    }
    assert Settles(r, loc, v);
    PhaseDecides(a, e, r, loc, v);
  }

  /**
   Mesh sessions: each edge peers with each reflector at the reflector's address, and the one non-edge node
   hosting that reflector peers back, from exactly that address, with the address the edge peers from.
   */
  lemma MeshSessionsMatch(x: Inputs, links: seq<Link>, log: Log, e: Log, r: Log, n: string, s: string)
    returns (h: string)
    requires UnderlayLog(x, links, log, e, r) && MeshPlan(x, NodesOf(x, links))
    requires n in NodesOf(x, links) && NodesOf(x, links)[n].edge && s in ReflectorNames(x)
    ensures h in NodesOf(x, links) && HostedAt(x, s, h) && !NodesOf(x, links)[h].edge
    ensures var t, rr := Merge(log), ReflectorOf(x, s);
            var a := PeeringAddress(x, NodesOf(x, links)[n], rr.ipv4);
            && SessionLoc(x, n, rr.ip) in t && t[SessionLoc(x, n, rr.ip)] == MeshSession(x, a)
            && SessionLoc(x, h, a) in t && t[SessionLoc(x, h, a)] == MeshSession(x, rr.ip)
  {
    PlanHolds(x, links);
    h := HostOf(x, NodesOf(x, links), s);
    EdgeEnd(x, NodesOf(x, links), LinkLog(x, links), e, r, n, s);
    HostEnd(x, NodesOf(x, links), LinkLog(x, links), e, r, n, s, h);
  }

  ghost predicate EdgeSide(x: Inputs, ns: Nodes, n: string, peer: string) {
    n in ns && ns[n].edge && exists s :: s in ReflectorNames(x) && peer == ReflectorOf(x, s).ip
  }

  ghost predicate HostSide(x: Inputs, ns: Nodes, n: string, peer: string) {
    n in ns && exists s, m :: s in ReflectorNames(x) && Hosts(x, n, s) && m in ns && ns[m].edge &&
                              peer == PeeringAddress(x, ns[m], ReflectorOf(x, s).ipv4)
  }

  predicate OverlaySession(x: Inputs, t: Tree, n: string, peer: string) {
    SessionLoc(x, n, peer) in t && t[SessionLoc(x, n, peer)].VNeighbor? && t[SessionLoc(x, n, peer)].group == OVERLAY
  }

  lemma MeshPatchSides(x: Inputs, ns: Nodes, p: Patch, n: string, peer: string)
    requires (IsEdgePatch(x, ns, p) || IsHostPatch(x, ns, p)) && SessionLoc(x, n, peer) in p
    ensures EdgeSide(x, ns, n, peer) || HostSide(x, ns, n, peer)
  {
    if IsEdgePatch(x, ns, p) {
      var u := EdgePatchShape(x, ns, p, n, peer);
    } else {
      var u, k := HostSessionShape(x, ns, p, n, peer);
    }
  }

  lemma LinksHaveNoOverlay(x: Inputs, links: seq<Link>, n: string, peer: string)
    requires LinksOutcome(x, links).Ok?
    ensures !OverlaySession(x, Merge(LinkLog(x, links)), n, peer)
  {
    if OverlaySession(x, Merge(LinkLog(x, links)), n, peer) {
      var l, i := SessionInLinks(x, links, n, peer);
      var f := SessionInItf(x, l, i, n, peer);
    }
  }

  lemma OverlaySessionHasSide(x: Inputs, ns: Nodes, a: Log, e: Log, r: Log, n: string, peer: string)
    requires Phases(x, ns, e, r) && !OverlaySession(x, Merge(a), n, peer)
    requires OverlaySession(x, Merge(a + e + r), n, peer)
    ensures EdgeSide(x, ns, n, peer) || HostSide(x, ns, n, peer)
  {
    var loc := SessionLoc(x, n, peer);
    MergeAppend(a, e);
    MergeAppend(a + e, r);
    var i := LastWriter(r, loc);
    var j := LastWriter(e, loc);
    var p :| (p in e || p in r) && loc in p;
    MeshPatchSides(x, ns, p, n, peer);
  }

  lemma SideHasOverlaySession(x: Inputs, ns: Nodes, a: Log, e: Log, r: Log, n: string, peer: string)
    requires Phases(x, ns, e, r) && Planned(x, ns)
    requires EdgeSide(x, ns, n, peer) || HostSide(x, ns, n, peer)
    ensures OverlaySession(x, Merge(a + e + r), n, peer)
  {
    if EdgeSide(x, ns, n, peer) {
      var s :| s in ReflectorNames(x) && peer == ReflectorOf(x, s).ip;
      EdgeEnd(x, ns, a, e, r, n, s);
    } else {
      var s, m :| s in ReflectorNames(x) && Hosts(x, n, s) && m in ns && ns[m].edge &&
                  peer == PeeringAddress(x, ns[m], ReflectorOf(x, s).ipv4);
      HostEnd(x, ns, a, e, r, m, s, n);
    }
  }

  /** The mesh is exact: the overlay neighbors are edges times reflectors, in both directions, and no more. */
  lemma MeshIsExact(x: Inputs, links: seq<Link>, log: Log, e: Log, r: Log, n: string, peer: string)
    requires UnderlayLog(x, links, log, e, r) && MeshPlan(x, NodesOf(x, links))
    ensures OverlaySession(x, Merge(log), n, peer) <==>
              EdgeSide(x, NodesOf(x, links), n, peer) || HostSide(x, NodesOf(x, links), n, peer)
  {
    var ns, a := NodesOf(x, links), LinkLog(x, links);
    PlanHolds(x, links);
    LinksHaveNoOverlay(x, links, n, peer);
    if OverlaySession(x, Merge(log), n, peer) {
      OverlaySessionHasSide(x, ns, a, e, r, n, peer);
    }
    if EdgeSide(x, ns, n, peer) || HostSide(x, ns, n, peer) {
      SideHasOverlaySession(x, ns, a, e, r, n, peer);
    }
  }
}
