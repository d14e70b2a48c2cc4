/** The BGP sessions of a finished underlay: both ends of every session agree, and the mesh is complete. */
module UnderlaySessions {
  import opened ConfigTree
  import opened Design
  import opened Underlay
  import opened UnderlayEntries
  import opened UnderlayLayers
  import opened UnderlayOrder

  /** Numbered link ends have distinct, non-empty addresses, none of which the mesh peers with. */
  ghost predicate AddressPlan(x: Inputs, links: seq<Link>) {
    && AddressesDistinct(x, links) && ReflectorsResolve(x)
    && (forall l, i, f :: l in links && Numbered(x, f) ==> FreshAddress(x, NodesOf(x, links), AddressOf(x, l.E(i), f)))
  }

  ghost predicate FreshAddress(x: Inputs, ns: Nodes, a: string) {
    && a != ""
    && (forall r :: r in ReflectorNames(x) ==> ReflectorOf(x, r).ip != a)
    && (forall n, f :: n in ns ==> PeeringAddress(x, ns[n], f) != a)
  }

  /** The mesh phases write only overlay peer groups and overlay neighbors. */
  predicate MeshEntry(loc: Loc, v: Val) {
    || (loc.cell.PeerGroup? && loc.cell.group == OVERLAY)
    || (loc.cell.Neighbor? && v.VNeighbor? && v.group == OVERLAY)
  }

  lemma MeshPatch(x: Inputs, ns: Nodes, p: Patch, loc: Loc)
    requires IsEdgePatch(x, ns, p) || IsHostPatch(x, ns, p)
    requires loc in p
    ensures MeshEntry(loc, p[loc])
    ensures loc.cell.Neighbor? ==>
              || (exists r :: r in ReflectorNames(x) && loc.cell.peer == ReflectorOf(x, r).ip)
              || (exists n, f :: n in ns && loc.cell.peer == PeeringAddress(x, ns[n], f))
  {
    if IsEdgePatch(x, ns, p) {
      var n, r :| n in ns && ns[n].edge && r in Reflectors(x) &&
                  (p == EdgeGroup(x, n) || p == EdgeNeighbor(x, n, ns[n], Reflectors(x)[r]));
      assert r in ReflectorNames(x);
    } else {
      var n, r :| n in ns && r in Reflectors(x) && Hosts(x, n, r) && IsHostPatchOf(x, ns, n, r, p);
    }
  }

  /** Where the mesh has nothing to say, the final tree is the tree of the links. */
  lemma LinksDecide(x: Inputs, links: seq<Link>, log: Log, e: Log, r: Log, loc: Loc)
    requires UnderlayLog(x, links, log, e, r)
    requires forall p :: (p in e || p in r) ==> loc !in p
    ensures loc in Merge(log) <==> loc in Merge(LinkLog(x, links))
    ensures loc in Merge(log) ==> Merge(log)[loc] == Merge(LinkLog(x, links))[loc]
  {
    MergeAppend(LinkLog(x, links), e);
    MergeAppend(LinkLog(x, links) + e, r);
    var i := LastWriter(e, loc);
    var j := LastWriter(r, loc);
  }

  function SessionLoc(x: Inputs, n: string, peer: string): Loc {
    Loc(n, Neighbor(x.Ni(), peer))
  }

  lemma MeshMissesInterfaces(x: Inputs, links: seq<Link>, log: Log, e: Log, r: Log, n: string, a: string)
    requires UnderlayLog(x, links, log, e, r) && FreshAddress(x, NodesOf(x, links), a)
    ensures forall p :: (p in e || p in r) ==> SessionLoc(x, n, a) !in p
  {
    var ns := NodesOf(x, links);
    forall p | p in e || p in r
      ensures SessionLoc(x, n, a) !in p
    {
      if SessionLoc(x, n, a) in p {
        MeshPatch(x, ns, p, SessionLoc(x, n, a));
      }
    }
  }

  lemma EndWritesSession(x: Inputs, l: Link, i: bool, f: bool)
    requires x.design.ebgp.Some? && Numbered(x, f) && AddressOf(x, l.E(!i), f) != ""
    ensures SessionLoc(x, l.Node(i), AddressOf(x, l.E(!i), f)) in ItfTree(x, l, i)
  {
    assert EbgpNeighbor(x, l, i, f) in ItfEbgp(x, l, i);
    assert EbgpNeighbor(x, l, i, f) in ItfLog(x, l, i);
    var k := LastWriter(ItfLog(x, l, i), SessionLoc(x, l.Node(i), AddressOf(x, l.E(!i), f)));
  }

  function Session(x: Inputs, l: Link, i: bool, f: bool): Val {
    VNeighbor(AddressOf(x, l.E(i), f), UNDERLAY, AsOf(x, l.Node(i)), AsOf(x, l.Node(!i)), BgpBfd(x, l))
  }

  /** Every numbered end of every link has its session in the final tree, with exactly its own values. */
  lemma SessionOfEveryEnd(x: Inputs, links: seq<Link>, log: Log, e: Log, r: Log, l: Link, i: bool, f: bool)
    requires UnderlayLog(x, links, log, e, r) && AddressPlan(x, links)
    requires x.design.ebgp.Some? && Numbered(x, f) && l in links
    ensures var loc := SessionLoc(x, l.Node(i), AddressOf(x, l.E(!i), f));
            loc in Merge(log) && Merge(log)[loc] == Session(x, l, i, f)
  {
    var a := AddressOf(x, l.E(!i), f);
    var loc := SessionLoc(x, l.Node(i), a);
    assert FreshAddress(x, NodesOf(x, links), a);
    EndWritesSession(x, l, i, f);
    MeshMissesInterfaces(x, links, log, e, r, l.Node(i), a);
    LinksDecide(x, links, log, e, r, loc);
    LinkTreeLayered(x, links, loc);
    assert Touched(x, links, loc);
    SessionWriter(x, links, loc, Merge(LinkLog(x, links))[loc], l, i, f);
  }

  lemma SessionInItf(x: Inputs, m: Link, j: bool, n: string, b: string) returns (g: bool)
    requires SessionLoc(x, n, b) in ItfTree(x, m, j)
    ensures x.design.ebgp.Some? && Numbered(x, g) && m.Node(j) == n && b == AddressOf(x, m.E(!j), g)
    ensures ItfTree(x, m, j)[SessionLoc(x, n, b)] == Session(x, m, j, g)
  {
    ItfTreeEntries(x, m, j, SessionLoc(x, n, b));
    g := NeighborEntry(x, m, j, true, b, ItfTree(x, m, j)[SessionLoc(x, n, b)]);
  }

  lemma SessionWriter(x: Inputs, links: seq<Link>, loc: Loc, v: Val, l: Link, i: bool, f: bool)
    requires AddressesDistinct(x, links) && l in links && Numbered(x, f)
    requires WrittenBy(x, links, loc, v) && loc == SessionLoc(x, l.Node(i), AddressOf(x, l.E(!i), f))
    ensures v == Session(x, l, i, f)
  {
    var m, j :| m in links && loc in ItfTree(x, m, j) && ItfTree(x, m, j)[loc] == v;
    var g := SessionInItf(x, m, j, l.Node(i), AddressOf(x, l.E(!i), f));
    assert AddressOf(x, m.E(!j), g) == AddressOf(x, l.E(!i), f);
  }

  /** The device has a sub-interface with a prefix of this address. */
  ghost predicate Owns(x: Inputs, t: Tree, n: string, a: string) {
    exists s, prefix :: Loc(n, SubInterface(s)) in t && t[Loc(n, SubInterface(s))].VSub? &&
                        HasPrefix(t[Loc(n, SubInterface(s))], prefix) && x.api.addressOf(prefix) == a
  }

  predicate HasPrefix(v: Val, prefix: string)
    requires v.VSub?
  {
    (v.ipv4.Some? && prefix in v.ipv4.value) || (v.ipv6.Some? && prefix in v.ipv6.value)
  }

  lemma SubWriter(x: Inputs, links: seq<Link>, v: Val, l: Link, i: bool, f: bool)
    requires WrittenBy(x, links, Loc(l.Node(i), SubInterface(EpSub(l, i))), v) && Numbered(x, f)
    ensures v.VSub? && HasPrefix(v, IpOf(x, l.E(i), f))
  {
    var loc := Loc(l.Node(i), SubInterface(EpSub(l, i)));
    var m, j :| m in links && loc in ItfTree(x, m, j) && ItfTree(x, m, j)[loc] == v;
    ItfTreeEntries(x, m, j, loc);
    assert IpOf(x, m.E(j), f) == IpOf(x, l.E(i), f);
  }

  lemma MeshMissesOthers(x: Inputs, links: seq<Link>, log: Log, e: Log, r: Log, loc: Loc)
    requires UnderlayLog(x, links, log, e, r) && !loc.cell.PeerGroup? && !loc.cell.Neighbor?
    ensures forall p :: (p in e || p in r) ==> loc !in p
  {
    forall p | p in e || p in r
      ensures loc !in p
    {
      if loc in p {
        MeshPatch(x, NodesOf(x, links), p, loc);
      }
    }
  }

  lemma EndOwnsAddress(x: Inputs, links: seq<Link>, log: Log, e: Log, r: Log, l: Link, i: bool, f: bool)
    requires UnderlayLog(x, links, log, e, r) && l in links && Numbered(x, f)
    ensures Owns(x, Merge(log), l.Node(i), AddressOf(x, l.E(i), f))
  {
    var loc := Loc(l.Node(i), SubInterface(EpSub(l, i)));
    SubInterfaceOfEnd(x, l, i);
    assert Touched(x, links, loc);
    LinkTreeLayered(x, links, loc);
    MeshMissesOthers(x, links, log, e, r, loc);
    LinksDecide(x, links, log, e, r, loc);
    SubWriter(x, links, Merge(log)[loc], l, i, f);
  }

  lemma MeshTreeEntry(x: Inputs, ns: Nodes, log: Log, loc: Loc)
    requires (forall p :: p in log ==> IsEdgePatch(x, ns, p)) || (forall p :: p in log ==> IsHostPatch(x, ns, p))
    requires loc in Merge(log)
    ensures MeshEntry(loc, Merge(log)[loc])
  {
    var i := LastWriter(log, loc);
    assert log[i] in log;
    MeshPatch(x, ns, log[i], loc);
  }

  lemma UnderlayFromLinks(x: Inputs, links: seq<Link>, log: Log, e: Log, r: Log, loc: Loc)
    requires UnderlayLog(x, links, log, e, r)
    requires loc in Merge(log) && !MeshEntry(loc, Merge(log)[loc])
    ensures loc in Merge(LinkLog(x, links)) && Merge(LinkLog(x, links))[loc] == Merge(log)[loc]
  {
    MergeAppend(LinkLog(x, links), e);
    MergeAppend(LinkLog(x, links) + e, r);
    if loc in Merge(r) {
      MeshTreeEntry(x, NodesOf(x, links), r, loc);
    } else if loc in Merge(e) {
      MeshTreeEntry(x, NodesOf(x, links), e, loc);
    }
  }

  /** An underlay session in the final tree is some link end's. */
  lemma SessionComesFromEnd(x: Inputs, links: seq<Link>, log: Log, e: Log, r: Log, n: string, b: string)
    returns (l: Link, i: bool, f: bool)
    requires UnderlayLog(x, links, log, e, r)
    requires SessionLoc(x, n, b) in Merge(log) && Merge(log)[SessionLoc(x, n, b)].VNeighbor?
    requires Merge(log)[SessionLoc(x, n, b)].group == UNDERLAY
    ensures l in links && x.design.ebgp.Some? && Numbered(x, f) && l.Node(i) == n && b == AddressOf(x, l.E(!i), f)
    ensures Merge(log)[SessionLoc(x, n, b)] == Session(x, l, i, f)
  {
    var loc := SessionLoc(x, n, b);
    UnderlayFromLinks(x, links, log, e, r, loc);
    l, i := SessionInLinks(x, links, n, b);
    f := SessionInItf(x, l, i, n, b);
  }

  lemma SessionInLinks(x: Inputs, links: seq<Link>, n: string, b: string) returns (l: Link, i: bool)
    requires LinksOutcome(x, links).Ok? && SessionLoc(x, n, b) in Merge(LinkLog(x, links))
    ensures l in links && SessionLoc(x, n, b) in ItfTree(x, l, i)
    ensures ItfTree(x, l, i)[SessionLoc(x, n, b)] == Merge(LinkLog(x, links))[SessionLoc(x, n, b)]
  {
    hide Merge, ItfTree, BaseTree, LinkLog, NodesOf, LinksOutcome;
    var loc, ns, v := SessionLoc(x, n, b), NodesOf(x, links), Merge(LinkLog(x, links))[SessionLoc(x, n, b)];
    LinkTreeLayered(x, links, loc);
    if !Touched(x, links, loc) {
      BaseTreeEntries(x, n, ns[n], loc);
    }
    l, i :| l in links && loc in ItfTree(x, l, i) && ItfTree(x, l, i)[loc] == v;
  }

  /**
   EBGP session symmetry: every underlay neighbor (local a, peer b, AS p to q) of a device n has its mirror
   (local b, peer a, AS q to p, same BFD) on the device m that owns b, while n owns a; and since these are
   facts of the final tree, no later upsert has overwritten either.
   */
  lemma EbgpSessionsAreSymmetric(x: Inputs, links: seq<Link>, log: Log, e: Log, r: Log, n: string, b: string)
    returns (m: string)
    requires UnderlayLog(x, links, log, e, r) && AddressPlan(x, links)
    requires SessionLoc(x, n, b) in Merge(log) && Merge(log)[SessionLoc(x, n, b)].VNeighbor?
    requires Merge(log)[SessionLoc(x, n, b)].group == UNDERLAY
    ensures var t := Merge(log);
            var v := t[SessionLoc(x, n, b)];
            && Owns(x, t, n, v.local) && Owns(x, t, m, b)
            && SessionLoc(x, m, v.local) in t
            && t[SessionLoc(x, m, v.local)] == VNeighbor(b, UNDERLAY, v.peerAs, v.localAs, v.bfd)
  {
    var l, i, f := SessionComesFromEnd(x, links, log, e, r, n, b);
    m := l.Node(!i);
    SessionOfEveryEnd(x, links, log, e, r, l, !i, f);
    EndOwnsAddress(x, links, log, e, r, l, i, f);
    EndOwnsAddress(x, links, log, e, r, l, !i, f);
  }
}
