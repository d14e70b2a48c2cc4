/**
 Order independence of BuildUnderlay: exactly when the order of the link list and of the Go maps does not matter,
 and a condition on names and addresses under which it does not.
 */
module UnderlayOrder {
  import opened Options
  import opened ConfigTree
  import opened Design
  import opened Underlay
  import opened UnderlayEntries
  import opened UnderlayLayers
  import Cells = BfdCells

  ghost predicate EndpointsDistinct(links: seq<Link>) {
    forall l, i, m, j :: l in links && m in links && l.Node(i) == m.Node(j) && l.Ep(i) == m.Ep(j) ==> l == m && i == j
  }

  /** Interface addresses of numbered families belong to one link end in one family. */
  ghost predicate AddressesDistinct(x: Inputs, links: seq<Link>) {
    forall l, i, f, m, j, g ::
      (l in links && m in links && Numbered(x, f) && Numbered(x, g) &&
       AddressOf(x, l.E(i), f) == AddressOf(x, m.E(j), g)) ==> l == m && i == j && f == g
  }

  /** Peer-group BFD is written by every link end of a node, so it must be the same for all of them. */
  ghost predicate UniformBgpBfd(x: Inputs, links: seq<Link>) {
    forall l, i, m, j :: l in links && m in links && l.Node(i) == m.Node(j) ==> BgpBfd(x, l) == BgpBfd(x, m)
  }

  /** A node hosts at most one reflector, and reflectors of one address have one family. */
  ghost predicate ReflectorsDistinct(x: Inputs) {
    && (forall n, r, s ::
          r in ReflectorNames(x) && s in ReflectorNames(x) && Hosts(x, n, r) && Hosts(x, n, s) ==> r == s)
    && (forall r, s ::
          r in ReflectorNames(x) && s in ReflectorNames(x) && ReflectorOf(x, r).ip == ReflectorOf(x, s).ip ==>
            ReflectorOf(x, r).ipv4 == ReflectorOf(x, s).ipv4)
  }

  ghost predicate WellPosed(x: Inputs, links: seq<Link>) {
    && NamesDistinct(links) && EndpointsDistinct(links) && ReflectorsDistinct(x)
    && (x.design.ebgp.Some? ==> AddressesDistinct(x, links) && UniformBgpBfd(x, links))
  }

  /** In a well-posed build no two link ends write different values to one location. */
  lemma ItfTreesAgree(x: Inputs, links: seq<Link>, l: Link, i: bool, m: Link, j: bool, loc: Loc)
    requires WellPosed(x, links) && l in links && m in links
    requires loc in ItfTree(x, l, i) && loc in ItfTree(x, m, j)
    ensures ItfTree(x, l, i)[loc] == ItfTree(x, m, j)[loc]
  {
    ItfTreeEntries(x, l, i, loc);
    ItfTreeEntries(x, m, j, loc);
    var v, w := ItfTree(x, l, i)[loc], ItfTree(x, m, j)[loc];
    if loc.cell.Neighbor? {
      forall f, g | NeighborEntry(x, l, i, f, loc.cell.peer, v) && NeighborEntry(x, m, j, g, loc.cell.peer, w)
        ensures v == w
      {
        assert AddressOf(x, l.E(!i), f) == AddressOf(x, m.E(!j), g);
      }
    }
  }

  ghost predicate SameAt(t: Tree, u: Tree, loc: Loc) {
    (loc in t <==> loc in u) && (loc in t ==> t[loc] == u[loc])
  }

  lemma SameEverywhere(t: Tree, u: Tree)
    requires forall loc :: SameAt(t, u, loc)
    ensures t == u
  {
    forall loc
      ensures loc in t <==> loc in u
      ensures loc in t ==> t[loc] == u[loc]
    {
      assert SameAt(t, u, loc);
    }
  }

  lemma EdgePatchesAgree(x: Inputs, ns: Nodes, p: Patch, q: Patch)
    requires ReflectorsDistinct(x) && IsEdgePatch(x, ns, p) && IsEdgePatch(x, ns, q)
    ensures Agree(p, q)
  {
  }

  /** What a host patch writes depends on the host and the reflector alone. */
  lemma HostPatchShape(x: Inputs, ns: Nodes, n: string, r: string, p: Patch, loc: Loc)
    requires ReflectorsResolve(x) && n in ns && r in Reflectors(x) && IsHostPatchOf(x, ns, n, r, p) && loc in p
    ensures loc.node == n && (loc.cell.PeerGroup? || loc.cell.Neighbor?)
    ensures var rr := ReflectorOf(x, r);
            p[loc] == if loc.cell.PeerGroup? then VPeerGroup(x.design.overlayFamilies, Some(rr.ip), false)
                      else VNeighbor(PeeringAddress(x, ns[n], rr.ipv4), OVERLAY, x.design.IbgpAs(),
                                     x.design.IbgpAs(), false)
  {
  }

  lemma HostPatchesAgree(x: Inputs, ns: Nodes, p: Patch, q: Patch)
    requires ReflectorsDistinct(x) && IsHostPatch(x, ns, p) && IsHostPatch(x, ns, q)
    ensures Agree(p, q)
  {
    var n, s :| n in ns && s in Reflectors(x) && Hosts(x, n, s) && IsHostPatchOf(x, ns, n, s, p);
    var m, u :| m in ns && u in Reflectors(x) && Hosts(x, m, u) && IsHostPatchOf(x, ns, m, u, q);
    forall loc | loc in p && loc in q
      ensures p[loc] == q[loc]
    {
      HostPatchShape(x, ns, n, s, p, loc);
      HostPatchShape(x, ns, m, u, q, loc);
    }
  }

  /** Whether a build succeeds does not depend on the order of the links either. */
  lemma SuccessOrderFree(x: Inputs, links: seq<Link>, others: seq<Link>)
    requires NamesDistinct(links) && (forall l :: l in links <==> l in others)
    ensures BuildOutcome(x, links).Ok? <==> BuildOutcome(x, others).Ok?
  {
    hide LinkBuildable, MeshPanics;
    OutcomeByLink(x, links);
    OutcomeByLink(x, others);
    if LinksOutcome(x, links).Ok? && LinksOutcome(x, others).Ok? {
      NodesOrderFree(x, links, others);
    }
  }

  // ---------------------------------------------------------------- what decides a location

  /** What a link leaves when nothing overwrites it. */
  function LinkTree(x: Inputs, l: Link): Tree {
    ItfTree(x, l, false) + ItfTree(x, l, true)
  }

  ghost predicate WrittenByLink(x: Inputs, links: seq<Link>, loc: Loc, v: Val) {
    exists l :: l in links && loc in LinkTree(x, l) && LinkTree(x, l)[loc] == v
  }

  /** A location that link ends write holds what the last such link leaves there. */
  lemma {:induction false} SomeLinkDecides(x: Inputs, links: seq<Link>, loc: Loc)
    requires LinksOutcome(x, links).Ok? && Touched(x, links, loc)
    ensures loc in Merge(LinkLog(x, links)) && WrittenByLink(x, links, loc, Merge(LinkLog(x, links))[loc])
  {
    hide ItfTree, BaseOf, LinkLog;
    var front, l := links[..|links| - 1], links[|links| - 1];
    FrontAndLast(links);
    NodesStep(x, links);
    LinkLogStep(x, links);
    var base := Merge(BaseOf(x, EndNodes(front), NodesOf(x, links), l));
    TreesAssociate(Merge(LinkLog(x, front)) + base, ItfTree(x, l, false), ItfTree(x, l, true));
    if loc !in LinkTree(x, l) {
      var m, i :| m in links && loc in ItfTree(x, m, i);
      assert m in front;
      TouchedNode(x, front, loc);
      BaseOfTree(x, EndNodes(front), NodesOf(x, links), l, loc);
      SomeLinkDecides(x, front, loc);
    }
  }

  /** A link that comes last decides every location it writes. */
  lemma LastLinkDecides(x: Inputs, links: seq<Link>, loc: Loc)
    requires links != [] && LinksOutcome(x, links).Ok? && loc in LinkTree(x, links[|links| - 1])
    ensures loc in Merge(LinkLog(x, links)) && Merge(LinkLog(x, links))[loc] == LinkTree(x, links[|links| - 1])[loc]
  {
    hide ItfTree, BaseOf, LinkLog;
    LinkLogStep(x, links);
  }

  ghost predicate InEdge(x: Inputs, ns: Nodes, loc: Loc) {
    exists p :: IsEdgePatch(x, ns, p) && loc in p
  }

  ghost predicate InHost(x: Inputs, ns: Nodes, loc: Loc) {
    exists p :: IsHostPatch(x, ns, p) && loc in p
  }

  /** What a location holds after a build: the hosts' phase comes last, before it the edges' and the links. */
  ghost predicate DecidedAt(x: Inputs, ns: Nodes, below: Tree, t: Tree, loc: Loc) {
    if InHost(x, ns, loc) then loc in t && exists p :: IsHostPatch(x, ns, p) && loc in p && p[loc] == t[loc]
    else if InEdge(x, ns, loc) then loc in t && exists p :: IsEdgePatch(x, ns, p) && loc in p && p[loc] == t[loc]
    else SameAt(t, below, loc)
  }

  lemma BuildDecides(x: Inputs, links: seq<Link>, log: Log, e: Log, r: Log, loc: Loc)
    requires UnderlayLog(x, links, log, e, r)
    ensures DecidedAt(x, NodesOf(x, links), Merge(LinkLog(x, links)), Merge(log), loc)
  {
    hide IsEdgePatch, IsHostPatch, LinkLog, NodesOf, BuildOutcome, Merge;
    BuiltLinks(x, links, log, e, r);
    MergeAppend(LinkLog(x, links), e);
    MergeAppend(LinkLog(x, links) + e, r);
    WrittenOf(e, loc);
    WrittenOf(r, loc);
  }

  lemma WrittenOf(log: Log, loc: Loc)
    ensures loc in Merge(log) <==> exists p :: p in log && loc in p
    ensures loc in Merge(log) ==> exists p :: p in log && loc in p && p[loc] == Merge(log)[loc]
  {
    var i := LastWriter(log, loc);
  }

  // ---------------------------------------------------------------- exactly

  ghost predicate HostsAgree(x: Inputs, ns: Nodes) {
    forall p, q :: IsHostPatch(x, ns, p) && IsHostPatch(x, ns, q) ==> Agree(p, q)
  }

  /** Edge patches agree wherever the hosts' phase does not write later. */
  ghost predicate EdgesAgree(x: Inputs, ns: Nodes) {
    forall p, q, loc ::
      (IsEdgePatch(x, ns, p) && IsEdgePatch(x, ns, q) && loc in p && loc in q && !InHost(x, ns, loc)) ==>
        p[loc] == q[loc]
  }

  /** Links agree wherever the mesh does not write later. */
  ghost predicate LinksAgree(x: Inputs, ns: Nodes, links: seq<Link>) {
    forall l, m, loc ::
      (l in links && m in links && loc in LinkTree(x, l) && loc in LinkTree(x, m) &&
       !InHost(x, ns, loc) && !InEdge(x, ns, loc)) ==> LinkTree(x, l)[loc] == LinkTree(x, m)[loc]
  }

  ghost predicate Harmonious(x: Inputs, links: seq<Link>) {
    var ns := NodesOf(x, links);
    HostsAgree(x, ns) && EdgesAgree(x, ns) && LinksAgree(x, ns, links)
  }

  /** Every build of these links, in any order of links and map iterations, leaves the tree t. */
  ghost predicate AlwaysLeaves(x: Inputs, links: seq<Link>, t: Tree) {
    forall others, log, e, r ::
      multiset(others) == multiset(links) && UnderlayLog(x, others, log, e, r) ==> Merge(log) == t
  }

  lemma SameMembers(links: seq<Link>, others: seq<Link>)
    requires multiset(links) == multiset(others)
    ensures forall l :: l in links <==> l in others
  {
    forall l
      ensures l in links <==> l in others
    {
      assert l in multiset(links) <==> l in multiset(others);
    }
  }

  lemma LinksLeaveSame(x: Inputs, links: seq<Link>, others: seq<Link>, loc: Loc)
    requires NamesDistinct(links) && (forall l :: l in links <==> l in others)
    requires LinksOutcome(x, links).Ok? && LinksOutcome(x, others).Ok?
    requires LinksAgree(x, NodesOf(x, links), links)
    requires !InHost(x, NodesOf(x, links), loc) && !InEdge(x, NodesOf(x, links), loc)
    ensures SameAt(Merge(LinkLog(x, links)), Merge(LinkLog(x, others)), loc)
  {
    hide ItfTree, BaseTree, LinkTree, LinkLog, InHost, InEdge, NodesOf, LinksOutcome;
    NodesOrderFree(x, links, others);
    if l, i :| l in links && loc in ItfTree(x, l, i) {
      assert l in others && Touched(x, links, loc) && Touched(x, others, loc);
      SomeLinkDecides(x, links, loc);
      SomeLinkDecides(x, others, loc);
    } else {
      assert !Touched(x, others, loc);
      LinkTreeLayered(x, links, loc);
      LinkTreeLayered(x, others, loc);
    }
  }

  lemma HarmonyLeavesSame(x: Inputs, links: seq<Link>, log: Log, e: Log, r: Log,
                          others: seq<Link>, log2: Log, e2: Log, r2: Log)
    requires multiset(links) == multiset(others) && NamesDistinct(links) && Harmonious(x, links)
    requires UnderlayLog(x, links, log, e, r) && UnderlayLog(x, others, log2, e2, r2)
    ensures Merge(log) == Merge(log2)
  {
    hide UnderlayLog, LinkLog, InHost, InEdge, NodesOf, IsEdgePatch, IsHostPatch, LinksAgree;
    SameMembers(links, others);
    BuiltLinks(x, links, log, e, r);
    BuiltLinks(x, others, log2, e2, r2);
    NodesOrderFree(x, links, others);
    forall loc
      ensures SameAt(Merge(log), Merge(log2), loc)
    {
      BuildDecides(x, links, log, e, r, loc);
      BuildDecides(x, others, log2, e2, r2, loc);
      if !InHost(x, NodesOf(x, links), loc) && !InEdge(x, NodesOf(x, links), loc) {
        LinksLeaveSame(x, links, others, loc);
      }
    }
    SameEverywhere(Merge(log), Merge(log2));
  }

  lemma BuiltLinks(x: Inputs, links: seq<Link>, log: Log, e: Log, r: Log)
    requires UnderlayLog(x, links, log, e, r)
    ensures LinksOutcome(x, links).Ok?
  {
  }

  /** The link taken out and put last. */
  lemma MoveLast(links: seq<Link>, l: Link) returns (others: seq<Link>)
    requires l in links
    ensures others != [] && others[|others| - 1] == l && multiset(others) == multiset(links)
  {
    var k :| 0 <= k < |links| && links[k] == l;
    others := links[..k] + links[k + 1..] + [l];
    assert links == links[..k] + [l] + links[k + 1..];
  }

  lemma LinkCanDecide(x: Inputs, links: seq<Link>, log: Log, e: Log, r: Log, t: Tree, l: Link, loc: Loc)
    requires UnderlayLog(x, links, log, e, r) && NamesDistinct(links) && AlwaysLeaves(x, links, t)
    requires l in links && loc in LinkTree(x, l) && !InHost(x, NodesOf(x, links), loc) &&
             !InEdge(x, NodesOf(x, links), loc)
    ensures loc in t && t[loc] == LinkTree(x, l)[loc]
  {
    hide LinkTree, IsEdgePatch, IsHostPatch, LinkLog, NodesOf, MeshPanics, LinksOutcome;
    var others := MoveLast(links, l);
    SameMembers(links, others);
    SuccessOrderFree(x, links, others);
    NodesOrderFree(x, links, others);
    var log2 := LinkLog(x, others) + e + r;
    assert UnderlayLog(x, others, log2, e, r);
    BuildDecides(x, others, log2, e, r, loc);
    LastLinkDecides(x, others, loc);
  }

  lemma EdgeCanDecide(x: Inputs, links: seq<Link>, log: Log, e: Log, r: Log, t: Tree, p: Patch, loc: Loc)
    requires UnderlayLog(x, links, log, e, r) && AlwaysLeaves(x, links, t)
    requires IsEdgePatch(x, NodesOf(x, links), p) && loc in p && !InHost(x, NodesOf(x, links), loc)
    ensures loc in t && t[loc] == p[loc]
  {
    hide IsEdgePatch, IsHostPatch, LinkLog, NodesOf, BuildOutcome;
    BuiltLinks(x, links, log, e, r);
    var log2 := LinkLog(x, links) + (e + [p]) + r;
    assert UnderlayLog(x, links, log2, e + [p], r);
    MergeAppend(LinkLog(x, links) + (e + [p]), r);
    assert LinkLog(x, links) + (e + [p]) == LinkLog(x, links) + e + [p];
    assert (LinkLog(x, links) + e + [p])[..|LinkLog(x, links) + e|] == LinkLog(x, links) + e;
    var j := LastWriter(r, loc);
  }

  lemma HostCanDecide(x: Inputs, links: seq<Link>, log: Log, e: Log, r: Log, t: Tree, p: Patch, loc: Loc)
    requires UnderlayLog(x, links, log, e, r) && AlwaysLeaves(x, links, t)
    requires IsHostPatch(x, NodesOf(x, links), p) && loc in p
    ensures loc in t && t[loc] == p[loc]
  {
    hide IsEdgePatch, IsHostPatch, LinkLog, NodesOf, BuildOutcome;
    BuiltLinks(x, links, log, e, r);
    var log2 := LinkLog(x, links) + e + (r + [p]);
    assert UnderlayLog(x, links, log2, e, r + [p]);
    assert log2[..|log2| - 1] == LinkLog(x, links) + e + r && log2[|log2| - 1] == p;
  }

  /**
   Exactly when the order does not matter, with distinct node names: all builds of the links, in any order of links
   and map iterations, leave one tree if and only if no two links, no two edges and no two hosts of reflectors write
   different values to a location that no later phase overwrites.
   */
  lemma OrderFreeExactly(x: Inputs, links: seq<Link>, log: Log, e: Log, r: Log)
    requires UnderlayLog(x, links, log, e, r) && NamesDistinct(links)
    ensures AlwaysLeaves(x, links, Merge(log)) <==> Harmonious(x, links)
  {
    hide UnderlayLog, LinkTree, IsEdgePatch, IsHostPatch, InEdge, InHost, NodesOf;
    var ns, t := NodesOf(x, links), Merge(log);
    if Harmonious(x, links) {
      forall others, log2, e2, r2 | multiset(others) == multiset(links) && UnderlayLog(x, others, log2, e2, r2)
        ensures Merge(log2) == t
      {
        HarmonyLeavesSame(x, links, log, e, r, others, log2, e2, r2);
      }
    }
    if AlwaysLeaves(x, links, t) {
      hide AlwaysLeaves;
      forall p, loc | IsHostPatch(x, ns, p) && loc in p
        ensures loc in t && t[loc] == p[loc]
      {
        HostCanDecide(x, links, log, e, r, t, p, loc);
      }
      forall p, loc | IsEdgePatch(x, ns, p) && loc in p && !InHost(x, ns, loc)
        ensures loc in t && t[loc] == p[loc]
      {
        EdgeCanDecide(x, links, log, e, r, t, p, loc);
      }
      forall l, loc | l in links && loc in LinkTree(x, l) && !InHost(x, ns, loc) && !InEdge(x, ns, loc)
        ensures loc in t && t[loc] == LinkTree(x, l)[loc]
      {
        LinkCanDecide(x, links, log, e, r, t, l, loc);
      }
    }
  }

  /** A well-posed build is one in which no order matters. */
  lemma WellPosedIsHarmonious(x: Inputs, links: seq<Link>)
    requires WellPosed(x, links)
    ensures Harmonious(x, links)
  {
    hide IsEdgePatch, IsHostPatch, InEdge, InHost, NodesOf, ItfTree;
    var ns := NodesOf(x, links);
    forall p, q | IsHostPatch(x, ns, p) && IsHostPatch(x, ns, q)
      ensures Agree(p, q)
    {
      HostPatchesAgree(x, ns, p, q);
    }
    forall p, q | IsEdgePatch(x, ns, p) && IsEdgePatch(x, ns, q)
      ensures Agree(p, q)
    {
      EdgePatchesAgree(x, ns, p, q);
    }
    forall l, m, i, j, loc | l in links && m in links && loc in ItfTree(x, l, i) && loc in ItfTree(x, m, j)
      ensures ItfTree(x, l, i)[loc] == ItfTree(x, m, j)[loc]
    {
      ItfTreesAgree(x, links, l, i, m, j, loc);
    }
  }

  /**
   Order independence: for any two orders of a well-posed list of links, and any iteration orders of the node
   and reflector maps, two successful builds leave equal device trees; and equal BFD timers if overrides agree.
   */
  lemma OrderIndependence(x: Inputs, links: seq<Link>, log: Log, e: Log, r: Log,
                          others: seq<Link>, log2: Log, e2: Log, r2: Log)
    requires multiset(links) == multiset(others) && WellPosed(x, links)
    requires UnderlayLog(x, links, log, e, r) && UnderlayLog(x, others, log2, e2, r2)
    ensures Merge(log) == Merge(log2) && (OverridesAgree(links) ==> TimersOf(x, links) == TimersOf(x, others))
  {
    hide UnderlayLog, Harmonious, OverridesAgree;
    if OverridesAgree(links) {
      SameTimers(x, links, others);
    }
    WellPosedIsHarmonious(x, links);
    HarmonyLeavesSame(x, links, log, e, r, others, log2, e2, r2);
  }

  // ---------------------------------------------------------------- the BFD timers

  /** Links that override one timer give it one value. */
  ghost predicate OverridesAgree(links: seq<Link>) {
    forall l, m, f: Cells.Which :: l in links && m in links ==> SameOverride(l, m, f)
  }

  ghost predicate SameOverride(l: Link, m: Link, f: Cells.Which) {
    Cells.Overrides(l, f).Some? && Cells.Overrides(m, f).Some? ==> Cells.Overrides(l, f) == Cells.Overrides(m, f)
  }

  ghost predicate TimersOrderFree(x: Inputs, links: seq<Link>) {
    forall others :: multiset(others) == multiset(links) ==> TimersOf(x, others) == TimersOf(x, links)
  }

  /** The timers that the links leave do not depend on their order if and only if overrides agree or are not read. */
  lemma TimersOrderFreeExactly(x: Inputs, links: seq<Link>)
    ensures TimersOrderFree(x, links) <==> !x.design.BfdEnabled() || OverridesAgree(links)
  {
    hide TimersOf, SameOverride;
    if x.design.BfdEnabled() && TimersOrderFree(x, links) {
      forall l, m, f: Cells.Which | l in links && m in links
        ensures SameOverride(l, m, f)
      {
        OrderFreeOverrides(x, links, l, m, f);
      }
    }
    if !x.design.BfdEnabled() || OverridesAgree(links) {
      forall others | multiset(others) == multiset(links)
        ensures TimersOf(x, others) == TimersOf(x, links)
      {
        SameTimers(x, links, others);
      }
    }
  }

  lemma SameTimers(x: Inputs, links: seq<Link>, others: seq<Link>)
    requires multiset(links) == multiset(others) && (!x.design.BfdEnabled() || OverridesAgree(links))
    ensures TimersOf(x, others) == TimersOf(x, links)
  {
    hide TimersOf, Cells.Field, OverridesAgree;
    SameMembers(links, others);
    if x.design.BfdEnabled() {
      forall f: Cells.Which
        ensures Cells.Field(TimersOf(x, others), f) == Cells.Field(TimersOf(x, links), f)
      {
        AgreeingOverrides(x, links, others, f);
      }
      Cells.SameFields(TimersOf(x, others), TimersOf(x, links));
    } else {
      TimersUnread(x, links);
      TimersUnread(x, others);
    }
  }

  lemma {:induction false} TimersUnread(x: Inputs, links: seq<Link>)
    requires !x.design.BfdEnabled()
    ensures TimersOf(x, links) == x.design.BfdTimers()
  {
    if links != [] {
      TimersUnread(x, links[..|links| - 1]);
    }
  }

  lemma OrderFreeOverrides(x: Inputs, links: seq<Link>, l: Link, m: Link, f: Cells.Which)
    requires x.design.BfdEnabled() && TimersOrderFree(x, links) && l in links && m in links
    ensures SameOverride(l, m, f)
  {
    hide TimersOf, Cells.Overrides, Cells.Field;
    var first := MoveLast(links, l);
    var second := MoveLast(links, m);
    if Cells.Overrides(l, f).Some? && Cells.Overrides(m, f).Some? {
      LastOverride(x, first, f);
      LastOverride(x, second, f);
    }
  }

  lemma LastOverride(x: Inputs, links: seq<Link>, f: Cells.Which)
    requires x.design.BfdEnabled() && links != [] && Cells.Overrides(links[|links| - 1], f).Some?
    ensures Cells.Field(TimersOf(x, links), f) == Cells.Overrides(links[|links| - 1], f)
  {
    hide TimersOf;
    assert Cells.SilentFrom(links, |links|, f);
    Cells.TimersAreLastOverrides(x, links, f, Cells.Overrides(links[|links| - 1], f));
  }

  lemma AgreeingOverrides(x: Inputs, links: seq<Link>, others: seq<Link>, f: Cells.Which)
    requires x.design.BfdEnabled() && OverridesAgree(links) && forall l :: l in links <==> l in others
    ensures Cells.Field(TimersOf(x, others), f) == Cells.Field(TimersOf(x, links), f)
  {
    hide TimersOf, Cells.Overrides, Cells.Field;
    Cells.TimersAreLastOverrides(x, links, f, Cells.Field(TimersOf(x, links), f));
    Cells.TimersAreLastOverrides(x, others, f, Cells.Field(TimersOf(x, others), f));
    if l :| l in links && Cells.Overrides(l, f).Some? {
      OverrideSettles(x, links, l, f);
      OverrideSettles(x, others, l, f);
    } else {
      assert forall j :: 0 <= j < |others| ==> others[j] in links;
    }
  }

  lemma OverrideSettles(x: Inputs, links: seq<Link>, l: Link, f: Cells.Which)
    requires x.design.BfdEnabled() && OverridesAgree(links) && l in links && Cells.Overrides(l, f).Some?
    ensures Cells.Field(TimersOf(x, links), f) == Cells.Overrides(l, f)
  {
    hide TimersOf, Cells.Overrides, Cells.Field;
    Cells.TimersAreLastOverrides(x, links, f, Cells.Field(TimersOf(x, links), f));
    var j :| 0 <= j < |links| && links[j] == l;
    assert forall k: nat :: k < |links| ==> SameOverride(links[k], l, f);
  }
}
