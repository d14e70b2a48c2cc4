/**
 How a build fails: with an error, or by dereferencing nil (gatherNodeInfo, updateBaseDeviceConfig,
 getBFDLinkParameters and updateUnderlayRRConfig).
 */
module UnderlayFailures {
  import opened Options
  import opened Names
  import opened Design
  import opened Underlay
  import opened UnderlayLayers

  /** Both ends find their inventory node and every claim they look up. */
  predicate EndsGather(x: Inputs, l: Link) {
    !GatherNode(x, l.a.id).Missing? && EndClaimed(x, l.a) && !GatherNode(x, l.b.id).Missing? && EndClaimed(x, l.b)
  }

  /** What is dereferenced later: the node of an end without device type, or a timer the design leaves nil. */
  predicate Dereferences(x: Inputs, l: Link) {
    || GatherNode(x, l.a.id).Unlabelled? || GatherNode(x, l.b.id).Unlabelled?
    || (x.design.BfdEnabled() && !Overridable(x.design.BfdTimers(), LinkTimers(l)))
  }

  lemma BuildableSplit(x: Inputs, l: Link)
    ensures LinkBuildable(x, l) <==> EndsGather(x, l) && !Dereferences(x, l)
  {
  }

  /** Link k is the first that is not buildable. */
  ghost predicate FirstStuck(x: Inputs, links: seq<Link>, k: nat) {
    k < |links| && !LinkBuildable(x, links[k]) && forall j: nat :: j < k ==> LinkBuildable(x, links[j])
  }

  ghost predicate StuckAtMissing(x: Inputs, links: seq<Link>) {
    exists k: nat :: FirstStuck(x, links, k) && !EndsGather(x, links[k])
  }

  ghost predicate StuckAtNil(x: Inputs, links: seq<Link>) {
    exists k: nat :: FirstStuck(x, links, k) && EndsGather(x, links[k]) && Dereferences(x, links[k])
  }

  /**
   With distinct node names the first link that is not buildable decides how the loop ends: with an error if an
   end lacks its inventory node or a claim, and otherwise at a nil dereference, of an unlabelled end's node or of
   a timer that the link overrides and the design leaves nil.
   */
  lemma {:induction false} OutcomeExactly(x: Inputs, links: seq<Link>)
    requires NamesDistinct(links)
    ensures LinksOutcome(x, links).Err? <==> StuckAtMissing(x, links)
    ensures LinksOutcome(x, links).Panic? <==> StuckAtNil(x, links)
  {
    hide LinkBuildable, EndsGather, Dereferences, LinkOutcome;
    if links != [] {
      var front, l := links[..|links| - 1], links[|links| - 1];
      assert links == front + [l];
      OutcomeExactly(x, front);
      FirstStuckStep(x, front, l);
      if LinksOutcome(x, front).Ok? {
        OutcomeByLink(x, front);
        assert forall j: nat :: j < |front| ==> front[j] in front;
        LastOutcome(x, links);
        BuildableSplit(x, l);
        assert FirstStuck(x, links, |front|) <==> !LinkBuildable(x, l);
      }
    }
  }

  lemma FirstStuckStep(x: Inputs, front: seq<Link>, l: Link)
    ensures forall k: nat :: FirstStuck(x, front, k) ==> FirstStuck(x, front + [l], k) && (front + [l])[k] == front[k]
    ensures forall k: nat :: FirstStuck(x, front + [l], k) && k < |front| ==> FirstStuck(x, front, k)
    ensures forall k, j: nat :: FirstStuck(x, front + [l], k) && FirstStuck(x, front + [l], j) ==> k == j
  {
    hide LinkBuildable;
    var links := front + [l];
    assert forall j: nat :: j < |front| ==> links[j] == front[j];
  }

  lemma LastOutcome(x: Inputs, links: seq<Link>)
    requires NamesDistinct(links) && links != [] && LinksOutcome(x, links[..|links| - 1]).Ok?
    ensures var l := links[|links| - 1];
            LinksOutcome(x, links) == if !EndsGather(x, l) then Err else if Dereferences(x, l) then Panic else Ok
  {
    hide EndClaimed, Overridable;
    var front, l := links[..|links| - 1], links[|links| - 1];
    KnownNodeGathers(x, links, l, false);
    KnownNodeGathers(x, links, l, true);
    if x.design.BfdEnabled() {
      OverridesAreSet(x, front);
    }
    TimersStayOverridable(x, front, LinkTimers(l));
    assert l in links && (l.Node(false) == l.Node(true) ==> l.E(false).id == l.E(true).id);
    OutcomeCases(x, NodesOf(x, front), TimersOf(x, front), l);
  }

  lemma OutcomeCases(x: Inputs, ns: Nodes, t: Timers, l: Link)
    requires l.a.id.node in ns ==> GatherNode(x, l.a.id).Found?
    requires l.b.id.node in ns ==> GatherNode(x, l.b.id).Found?
    requires l.a.id.node == l.b.id.node ==> l.a.id == l.b.id
    requires Overridable(t, LinkTimers(l)) <==> Overridable(x.design.BfdTimers(), LinkTimers(l))
    ensures LinkOutcome(x, ns, t, l) == if !EndsGather(x, l) then Err else if Dereferences(x, l) then Panic else Ok
  {
    hide EndClaimed, Overridable, GatherNode;
  }

  // ---------------------------------------------------------------- the mesh

  /** No claim has the empty address. */
  ghost predicate AddressesGiven(x: Inputs) {
    forall name :: x.Ip(name) != Some("")
  }

  /** Some end node is an edge, and some reflector's address is of a family without loopbacks in the design. */
  ghost predicate EdgeWithoutLoopback(x: Inputs, ns: Nodes) {
    exists n, r :: n in ns && ns[n].edge && r in ReflectorNames(x) && !LoopbackEnabled(x, ReflectorOf(x, r).ipv4)
  }

  lemma GatheredLoopback(x: Inputs, links: seq<Link>, n: string, f: bool)
    requires AddressesGiven(x) && n in NodesOf(x, links)
    ensures LoopbackOf(NodesOf(x, links)[n], f) == "" <==> !LoopbackEnabled(x, f)
  {
    NodesAreGathered(x, links, n);
    var l, i :| l in links && l.Node(i) == n && GatherNode(x, l.E(i).id) == Found(NodesOf(x, links)[n]);
    assert x.Ip(x.LoopbackClaim(n, f)) != Some("");
  }

  /**
   After the links, the mesh dereferences a nil prefix if and only if an edge has to peer with a reflector whose
   address is of a family in which the design gives nodes no loopback. The hosts of reflectors add no other case.
   */
  lemma MeshPanicsExactly(x: Inputs, links: seq<Link>)
    requires AddressesGiven(x) && LinksOutcome(x, links).Ok? && ReflectorsResolve(x)
    ensures BuildOutcome(x, links).Panic? <==> EdgeWithoutLoopback(x, NodesOf(x, links))
  {
    hide NodesOf, LinksOutcome, LoopbackOf, LoopbackEnabled, ReflectorOf;
    var ns, rrs := NodesOf(x, links), Reflectors(x);
    forall n, r | n in ns && r in rrs
      ensures LoopbackOf(ns[n], rrs[r].ipv4) == "" <==> !LoopbackEnabled(x, ReflectorOf(x, r).ipv4)
    {
      GatheredLoopback(x, links, n, rrs[r].ipv4);
    }
    if n, r :| n in ns && ns[n].edge && r in ReflectorNames(x) && !LoopbackEnabled(x, ReflectorOf(x, r).ipv4) {
      assert r in rrs && EdgeStuck(ns, rrs, n, r);
    }
    if MeshPanics(x, ns) {
      var n, r :| n in ns && r in rrs && (EdgeStuck(ns, rrs, n, r) || HostStuck(x, ns, rrs, n, r));
      assert r in ReflectorNames(x);
    }
  }

  /** A reflector named by an IPv4 router id, in a design without IPv4 loopbacks, is such a case for every edge. */
  lemma RouterIdReflectorPanics(x: Inputs, links: seq<Link>, n: string, edge: string)
    requires AddressesGiven(x) && LinksOutcome(x, links).Ok? && ReflectorsResolve(x) && !x.design.LoopbackV4()
    requires x.RouterIdClaim(n) in ReflectorNames(x) && ReflectorOf(x, x.RouterIdClaim(n)).ipv4
    requires edge in NodesOf(x, links) && NodesOf(x, links)[edge].edge
    ensures BuildOutcome(x, links).Panic?
  {
    hide NodesOf, LinksOutcome, BuildOutcome;
    MeshPanicsExactly(x, links);
  }

  // ---------------------------------------------------------------- inputs at which it dereferences nil

  const PLAIN := LinkProtocols(None, None, None, None, None, false, None, None, "", 0, None)

  /** A link between a and b, overriding a timer or not. */
  function SmallLink(minRx: Option<nat>): Link {
    Link(End(NodeId("a", "a"), "e1"), End(NodeId("b", "b"), "e1"),
         PLAIN.(bfd := Some(BfdOverride(None, NO_TIMERS.(minRx := minRx)))))
  }

  /** Two nodes with router ids, an OSPF underlay with BFD, and a design without BFD timers. */
  function SmallInputs(deviceType: Option<string>): Inputs {
    var d := NetworkDesign(None, None, None, Some(OspfDesign(None, "v2", "0.0.0.0", None, true)), None, None, None,
                           false, false, [], [], [], [], [], []);
    var v := InventoryNode("srl", Some("s"), deviceType);
    var net := "t.default";
    var ids := map[Dotted(Dotted(net, "a"), "routerid") := Claim(true, Some("10.0.0.1/32")),
                   Dotted(Dotted(net, "b"), "routerid") := Claim(true, Some("10.0.0.2/32"))];
    Inputs(net, "t", d, Api(map[Dotted("t", "a") := v, Dotted("t", "b") := v], map[], ids, map[], s => true, s => s,
                            s => true))
  }

  lemma SmallLinkGathers(deviceType: Option<string>, minRx: Option<nat>)
    ensures EndsGather(SmallInputs(deviceType), SmallLink(minRx))
    ensures Dereferences(SmallInputs(deviceType), SmallLink(minRx)) <==> deviceType.None? || minRx.Some?
  {
    assert "a"[0] != "b"[0];
  }

  /** The same link builds, or dereferences nil for want of a label or of a timer to override, or both. */
  lemma SmallPanics(deviceType: Option<string>, minRx: Option<nat>)
    ensures LinksOutcome(SmallInputs(deviceType), [SmallLink(minRx)]) ==
            if deviceType.None? || minRx.Some? then Panic else Ok
  {
    hide SmallInputs, SmallLink, EndsGather, Dereferences, LinkOutcome;
    var x, l := SmallInputs(deviceType), SmallLink(minRx);
    SmallLinkGathers(deviceType, minRx);
    OneLinkNames(minRx);
    LastOutcome(x, [l]);
  }

  lemma OneLinkNames(minRx: Option<nat>)
    ensures NamesDistinct([SmallLink(minRx)])
  {
    assert "a"[0] != "b"[0];
  }
}
