/**
 The claims that the first pipeline stage applies for the default network (the claim generators of
 apis/network/v1alpha1/networkdesign_interfaces.go and applyDefaultNetwork), against what the builder looks up.
 */
module Claims {
  import opened Names
  import opened Design
  import opened Underlay
  import opened UnderlayLayers
  import opened UnderlayOrder
  import opened UnderlayContents

  /** What a claim is for: a node's loopback, router id or AS, a link's prefix, or an address out of that prefix. */
  datatype Source =
    | Loopback(node: string, v4: bool)
    | RouterId(node: string)
    | NodeAs(node: string)
    | LinkPrefix(link: Link, v4: bool)
    | EndAddress(link: Link, end: bool, v4: bool)

  /** The claim labels: the shared loopback or underlay pools, or a claim named by its name. */
  datatype Selector = FromPool(purpose: string, v4: bool) | FromClaim(name: string, v4: bool) | FromAsPool(name: string)

  /** Claims of different kinds are different objects even under one name. */
  datatype Key = Key(asClaim: bool, name: string)

  /** A network name followed by dotted parts. */
  function Path(net: string, parts: seq<string>): string {
    if parts == [] then net else Dotted(Path(net, parts[..|parts| - 1]), parts[|parts| - 1])
  }

  function Family(v4: bool): string {
    if v4 then "ipv4" else "ipv6"
  }

  function PartsOf(s: Source): seq<string> {
    match s
    case Loopback(n, v4) => [n, Family(v4)]
    case RouterId(n) => [n, "routerid"]
    case NodeAs(n) => [n]
    case LinkPrefix(l, v4) => [l.Node(false), l.Ep(false), l.Node(true), l.Ep(true), Family(v4)]
    case EndAddress(l, i, v4) => [l.Node(i), l.Ep(i), Family(v4)]
  }

  function NameOf(net: string, s: Source): string {
    Path(net, PartsOf(s))
  }

  function KeyOf(net: string, s: Source): Key {
    Key(s.NodeAs?, NameOf(net, s))
  }

  function SelectorOf(net: string, s: Source): Selector {
    match s
    case Loopback(_, v4) => FromPool("loopback", v4)
    case RouterId(_) => FromPool("loopback", true)
    case NodeAs(_) => FromAsPool(Dotted(net, "aspool"))
    case LinkPrefix(_, v4) => FromPool("underlay", v4)
    case EndAddress(l, _, v4) => FromClaim(NameOf(net, LinkPrefix(l, v4)), v4)
  }

  predicate HasAsPool(d: NetworkDesign) {
    d.ebgp.Some? && d.ebgp.value.asPool.Some?
  }

  /** GetNodeIPClaims followed by GetNodeASClaim. */
  function NodeSources(d: NetworkDesign, n: string): seq<Source> {
    [if d.LoopbackV4() then Loopback(n, true) else RouterId(n)]
    + (if d.LoopbackV6() then [Loopback(n, false)] else [])
    + (if HasAsPool(d) then [NodeAs(n)] else [])
  }

  /** GetLinkIPClaims: per numbered family the link's prefix, then the addresses of its ends. */
  function LinkSources(d: NetworkDesign, l: Link): seq<Source> {
    (if d.V4Numbered() then [LinkPrefix(l, true), EndAddress(l, false, true), EndAddress(l, true, true)] else [])
    + (if d.V6Numbered() then [LinkPrefix(l, false), EndAddress(l, false, false), EndAddress(l, true, false)] else [])
  }

  ghost predicate Created(d: NetworkDesign, nodes: seq<string>, links: seq<Link>, s: Source) {
    (exists n :: n in nodes && s in NodeSources(d, n)) || (exists l :: l in links && s in LinkSources(d, l))
  }

  // ---------------------------------------------------------------- names

  lemma {:induction false} PathInjective(net: string, a: seq<string>, b: seq<string>)
    requires forall p :: p in a + b ==> NoDot(p)
    requires Path(net, a) == Path(net, b)
    ensures a == b
    decreases |a|
  {
    if a == [] || b == [] {
      PathLonger(net, a);
      PathLonger(net, b);
    } else {
      var fa, la, fb, lb := a[..|a| - 1], a[|a| - 1], b[..|b| - 1], b[|b| - 1];
      assert la in a + b && lb in a + b;
      LastDot(Path(net, fa), la, Path(net, fb), lb);
      assert forall p :: p in fa + fb ==> p in a + b;
      PathInjective(net, fa, fb);
      assert a == fa + [la] && b == fb + [lb];
    }
  }

  lemma {:induction false} PathLonger(net: string, parts: seq<string>)
    ensures parts != [] ==> |Path(net, parts)| > |net|
  {
    if |parts| > 1 {
      PathLonger(net, parts[..|parts| - 1]);
    }
  }

  ghost predicate DotFree(nodes: seq<string>, links: seq<Link>) {
    && (forall n :: n in nodes ==> NoDot(n))
    && (forall l, i :: l in links ==> NoDot(l.Node(i)) && NoDot(l.Ep(i)))
  }

  lemma PartsDotFree(d: NetworkDesign, nodes: seq<string>, links: seq<Link>, s: Source)
    requires DotFree(nodes, links) && Created(d, nodes, links, s)
    ensures forall p :: p in PartsOf(s) ==> NoDot(p)
  {
    if s.LinkPrefix? || s.EndAddress? {
      assert s.link in links;
      assert forall i :: NoDot(s.link.Node(i)) && NoDot(s.link.Ep(i));
    } else {
      assert s.node in nodes;
    }
  }

  lemma FamilyInjective(f: bool, g: bool)
    requires Family(f) == Family(g)
    ensures f == g
  {
    assert "ipv4"[3] != "ipv6"[3];
  }

  /** Sources with equal parts are equal, when each endpoint is on one link end. */
  lemma PartsInjective(d: NetworkDesign, nodes: seq<string>, links: seq<Link>, s: Source, t: Source)
    requires EndpointsDistinct(links) && Created(d, nodes, links, s) && Created(d, nodes, links, t)
    requires s.NodeAs? == t.NodeAs? && PartsOf(s) == PartsOf(t)
    ensures s == t
  {
    var a, b := PartsOf(s), PartsOf(t);
    assert |a| == |b|;
    if s.LinkPrefix? {
      assert a[0] == b[0] && a[1] == b[1] && a[4] == b[4];
      assert s.link.Node(false) == t.link.Node(false) && s.link.Ep(false) == t.link.Ep(false);
      FamilyInjective(s.v4, t.v4);
    } else if s.EndAddress? {
      assert a[0] == b[0] && a[1] == b[1] && a[2] == b[2];
      assert s.link.Node(s.end) == t.link.Node(t.end) && s.link.Ep(s.end) == t.link.Ep(t.end);
      FamilyInjective(s.v4, t.v4);
    } else {
      assert a[0] == b[0];
      if |a| == 2 {
        assert a[1] == b[1] && |"routerid"| != |Family(true)| && |"routerid"| != |Family(false)|;
        if s.Loopback? && t.Loopback? {
          FamilyInjective(s.v4, t.v4);
        }
      }
    }
  }

  /**
   Claim names do not collide: for dot-free node and endpoint names and each endpoint on one link, two claims
   of one kind that a network creates have the same name only if they are the same claim.
   */
  lemma ClaimNamesDistinct(d: NetworkDesign, net: string, nodes: seq<string>, links: seq<Link>, s: Source, t: Source)
    requires DotFree(nodes, links) && EndpointsDistinct(links)
    requires Created(d, nodes, links, s) && Created(d, nodes, links, t)
    requires KeyOf(net, s) == KeyOf(net, t)
    ensures s == t
  {
    PartsDotFree(d, nodes, links, s);
    PartsDotFree(d, nodes, links, t);
    PathInjective(net, PartsOf(s), PartsOf(t));
    PartsInjective(d, nodes, links, s, t);
  }

  /** An endpoint's address is taken out of a link prefix that is claimed in the same set. */
  lemma SelectorNamesCreatedClaim(d: NetworkDesign, net: string, nodes: seq<string>, links: seq<Link>, s: Source)
    returns (prefix: Source)
    requires Created(d, nodes, links, s) && s.EndAddress?
    ensures prefix.LinkPrefix? && prefix.link == s.link && Created(d, nodes, links, prefix)
    ensures SelectorOf(net, s) == FromClaim(NameOf(net, prefix), s.v4)
  {
    prefix := LinkPrefix(s.link, s.v4);
    assert s.link in links && prefix in LinkSources(d, s.link);
  }

  // ---------------------------------------------------------------- the resource set

  function AllNodeSources(d: NetworkDesign, nodes: seq<string>): seq<Source> {
    if nodes == [] then []
    else AllNodeSources(d, nodes[..|nodes| - 1]) + NodeSources(d, nodes[|nodes| - 1])
  }

  function AllLinkSources(d: NetworkDesign, links: seq<Link>): seq<Source> {
    if links == [] then []
    else AllLinkSources(d, links[..|links| - 1]) + LinkSources(d, links[|links| - 1])
  }

  function AllSources(d: NetworkDesign, nodes: seq<string>, links: seq<Link>): seq<Source> {
    AllNodeSources(d, nodes) + AllLinkSources(d, links)
  }

  /** The resource set after adding the claims in turn; a claim replaces one of its kind and name. */
  function ResourceSet(net: string, sources: seq<Source>): map<Key, Selector> {
    if sources == [] then map[]
    else
      var s := sources[|sources| - 1];
      ResourceSet(net, sources[..|sources| - 1])[KeyOf(net, s) := SelectorOf(net, s)]
  }

  lemma {:induction false} ResourceSetExact(net: string, sources: seq<Source>, k: Key)
    ensures k in ResourceSet(net, sources) <==> exists s :: s in sources && KeyOf(net, s) == k
    ensures k in ResourceSet(net, sources) ==>
              exists s :: s in sources && KeyOf(net, s) == k && ResourceSet(net, sources)[k] == SelectorOf(net, s)
  {
    hide KeyOf, SelectorOf;
    if sources != [] {
      var front := sources[..|sources| - 1];
      assert sources == front + [sources[|sources| - 1]];
      ResourceSetExact(net, front, k);
    }
  }

  lemma {:induction false} NodeSourcesExact(d: NetworkDesign, nodes: seq<string>, s: Source)
    ensures s in AllNodeSources(d, nodes) <==> exists n :: n in nodes && s in NodeSources(d, n)
  {
    hide NodeSources;
    if nodes != [] {
      var front := nodes[..|nodes| - 1];
      assert nodes == front + [nodes[|nodes| - 1]];
      NodeSourcesExact(d, front, s);
    }
  }

  lemma {:induction false} LinkSourcesExact(d: NetworkDesign, links: seq<Link>, s: Source)
    ensures s in AllLinkSources(d, links) <==> exists l :: l in links && s in LinkSources(d, l)
  {
    hide LinkSources;
    if links != [] {
      var front := links[..|links| - 1];
      assert links == front + [links[|links| - 1]];
      LinkSourcesExact(d, front, s);
    }
  }

  lemma AllSourcesExact(d: NetworkDesign, nodes: seq<string>, links: seq<Link>, s: Source)
    ensures s in AllSources(d, nodes, links) <==> Created(d, nodes, links, s)
  {
    NodeSourcesExact(d, nodes, s);
    LinkSourcesExact(d, links, s);
  }

  function Applied(d: NetworkDesign, net: string, nodes: seq<string>, links: seq<Link>): map<Key, Selector> {
    ResourceSet(net, AllSources(d, nodes, links))
  }

  /** With names that do not collide, the applied set is exactly the created claims, each with its own labels. */
  lemma AppliedExactly(d: NetworkDesign, net: string, nodes: seq<string>, links: seq<Link>, s: Source)
    requires DotFree(nodes, links) && EndpointsDistinct(links) && Created(d, nodes, links, s)
    ensures KeyOf(net, s) in Applied(d, net, nodes, links)
    ensures Applied(d, net, nodes, links)[KeyOf(net, s)] == SelectorOf(net, s)
  {
    AllSourcesExact(d, nodes, links, s);
    ResourceSetExact(net, AllSources(d, nodes, links), KeyOf(net, s));
    var t :| t in AllSources(d, nodes, links) && KeyOf(net, t) == KeyOf(net, s) &&
             Applied(d, net, nodes, links)[KeyOf(net, s)] == SelectorOf(net, t);
    AllSourcesExact(d, nodes, links, t);
    ClaimNamesDistinct(d, net, nodes, links, s, t);
  }

  lemma {:induction false} ResourceSetAppend(net: string, a: seq<Source>, s: Source)
    ensures ResourceSet(net, a + [s]) == ResourceSet(net, a)[KeyOf(net, s) := SelectorOf(net, s)]
  {
    assert (a + [s])[..|a|] == a;
  }

  method AddResources(net: string, have: map<Key, Selector>, ghost before: seq<Source>, sources: seq<Source>)
    returns (res: map<Key, Selector>)
    requires have == ResourceSet(net, before)
    ensures res == ResourceSet(net, before + sources)
  {
    hide KeyOf, SelectorOf, ResourceSet;
    res := have;
    assert before + sources[..0] == before;
    for k := 0 to |sources|
      invariant res == ResourceSet(net, before + sources[..k])
    {
      res := res[KeyOf(net, sources[k]) := SelectorOf(net, sources[k])];
      ResourceSetAppend(net, before + sources[..k], sources[k]);
      assert before + sources[..k] + [sources[k]] == before + sources[..k + 1];
    }
    assert sources[..|sources|] == sources;
  }

  /** applyDefaultNetwork: the nodes of the topology, then the infra links. */
  method ApplyDefaultNetwork(d: NetworkDesign, net: string, nodes: seq<string>, links: seq<Link>)
    returns (res: map<Key, Selector>)
    ensures res == Applied(d, net, nodes, links)
  {
    hide NodeSources, LinkSources, KeyOf, SelectorOf;
    res := map[];
    for k := 0 to |nodes|
      invariant res == ResourceSet(net, AllNodeSources(d, nodes[..k]))
    {
      res := AddResources(net, res, AllNodeSources(d, nodes[..k]), NodeSources(d, nodes[k]));
      assert nodes[..k + 1][..k] == nodes[..k];
    }
    assert nodes[..|nodes|] == nodes;
    ghost var first := AllNodeSources(d, nodes);
    assert first + [] == first;
    for k := 0 to |links|
      invariant res == ResourceSet(net, first + AllLinkSources(d, links[..k]))
    {
      ghost var before := first + AllLinkSources(d, links[..k]);
      res := AddResources(net, res, before, LinkSources(d, links[k]));
      assert links[..k + 1][..k] == links[..k];
      assert before + LinkSources(d, links[k]) == first + AllLinkSources(d, links[..k + 1]);
    }
    assert links[..|links|] == links;
  }

  // ---------------------------------------------------------------- the applied claims, by name

  function Claimed(asClaim: bool, net: string, rest: string): Key {
    Key(asClaim, net + "." + rest)
  }

  /** A node is given its loopbacks or a router id, out of the loopback pools, and an AS out of the AS pool. */
  predicate NodeGiven(d: NetworkDesign, net: string, n: string, k: Key, sel: Selector) {
    || (Loops(d, true) && k == Claimed(false, net, n + ".ipv4") && sel == FromPool("loopback", true))
    || (!Loops(d, true) && k == Claimed(false, net, n + ".routerid") && sel == FromPool("loopback", true))
    || (Loops(d, false) && k == Claimed(false, net, n + ".ipv6") && sel == FromPool("loopback", false))
    || (d.ebgp.Some? && d.ebgp.value.asPool.Some? && k == Claimed(true, net, n) && sel == FromAsPool(net + ".aspool"))
  }

  function LinkName(l: Link): string {
    l.Node(false) + "." + l.Ep(false) + "." + l.Node(true) + "." + l.Ep(true)
  }

  function FamilyName(v4: bool): string {
    if v4 then ".ipv4" else ".ipv6"
  }

  /** A link is given a prefix per numbered family, out of the underlay pool, and its ends addresses out of that. */
  predicate LinkGiven(d: NetworkDesign, net: string, l: Link, v4: bool, k: Key, sel: Selector) {
    Numbers(d, v4) &&
    (|| (k == Claimed(false, net, LinkName(l) + FamilyName(v4)) && sel == FromPool("underlay", v4))
     || (k == Claimed(false, net, l.Node(false) + "." + l.Ep(false) + FamilyName(v4)) &&
         sel == FromClaim(net + "." + LinkName(l) + FamilyName(v4), v4))
     || (k == Claimed(false, net, l.Node(true) + "." + l.Ep(true) + FamilyName(v4)) &&
         sel == FromClaim(net + "." + LinkName(l) + FamilyName(v4), v4)))
  }

  ghost predicate ClaimGiven(d: NetworkDesign, net: string, nodes: seq<string>, links: seq<Link>, k: Key,
                             sel: Selector) {
    (exists n :: n in nodes && NodeGiven(d, net, n, k, sel)) ||
    (exists l, v4 :: l in links && LinkGiven(d, net, l, v4, k, sel))
  }

  lemma FamiliesGiven(d: NetworkDesign)
    ensures (d.LoopbackV4() <==> Loops(d, true)) && (d.LoopbackV6() <==> Loops(d, false))
    ensures (d.V4Numbered() <==> Numbers(d, true)) && (d.V6Numbered() <==> Numbers(d, false))
  {
  }

  lemma Joined(net: string, parts: seq<string>, last: string)
    ensures Path(net, parts + [last]) == Path(net, parts) + "." + last
  {
    assert (parts + [last])[..|parts|] == parts;
  }

  lemma NodeKeys(net: string, n: string, last: string)
    ensures Path(net, [n]) == net + "." + n && Path(net, [n, last]) == net + "." + (n + "." + last)
  {
    PathTwo(net, n, last);
    assert net + "." + n + "." + last == net + "." + (n + "." + last);
  }

  lemma EndKeys(net: string, n: string, ep: string, family: string)
    ensures Path(net, [n, ep, family]) == net + "." + (n + "." + ep + "." + family)
  {
    NodeKeys(net, n, ep);
    Joined(net, [n, ep], family);
    assert [n, ep] + [family] == [n, ep, family];
    assert net + "." + (n + "." + ep) + "." + family == net + "." + (n + "." + ep + "." + family);
  }

  lemma LinkKeys(net: string, n: string, ep: string, m: string, fp: string, family: string)
    ensures Path(net, [n, ep, m, fp, family]) == net + "." + (n + "." + ep + "." + m + "." + fp + "." + family)
  {
    EndKeys(net, n, ep, m);
    Joined(net, [n, ep, m], fp);
    assert [n, ep, m] + [fp] == [n, ep, m, fp];
    Joined(net, [n, ep, m, fp], family);
    assert [n, ep, m, fp] + [family] == [n, ep, m, fp, family];
    var a := n + "." + ep + "." + m;
    assert net + "." + a + "." + fp == net + "." + (a + "." + fp);
    var b := a + "." + fp;
    assert net + "." + b + "." + family == net + "." + (b + "." + family);
  }

  lemma SourceOfNode(d: NetworkDesign, net: string, n: string, k: Key, sel: Selector)
    ensures NodeGiven(d, net, n, k, sel) <==>
              exists s :: s in NodeSources(d, n) && KeyOf(net, s) == k && SelectorOf(net, s) == sel
  {
    hide Path, Loops, NetworkDesign.LoopbackV4, NetworkDesign.LoopbackV6;
    FamiliesGiven(d);
    NodeKeys(net, n, "ipv4");
    NodeKeys(net, n, "ipv6");
    NodeKeys(net, n, "routerid");
    var sources := NodeSources(d, n);
    assert n + ".ipv4" == n + "." + "ipv4" && n + ".ipv6" == n + "." + "ipv6" &&
           n + ".routerid" == n + "." + "routerid";
    assert net + ".aspool" == Dotted(net, "aspool");
    if NodeGiven(d, net, n, k, sel) {
      var s :=
        if k.asClaim then NodeAs(n)
        else if Loops(d, true) && k == Claimed(false, net, n + ".ipv4") && sel == FromPool("loopback", true)
        then Loopback(n, true)
        else if !Loops(d, true) && k == Claimed(false, net, n + ".routerid") && sel == FromPool("loopback", true)
        then RouterId(n)
        else Loopback(n, false);
      assert s in sources && KeyOf(net, s) == k && SelectorOf(net, s) == sel;
    }
  }

  lemma SourceKeys(net: string, l: Link, v4: bool)
    ensures KeyOf(net, LinkPrefix(l, v4)) == Claimed(false, net, LinkName(l) + FamilyName(v4))
    ensures forall i :: KeyOf(net, EndAddress(l, i, v4)) ==
              Claimed(false, net, l.Node(i) + "." + l.Ep(i) + FamilyName(v4))
  {
    hide Path;
    LinkKeys(net, l.Node(false), l.Ep(false), l.Node(true), l.Ep(true), Family(v4));
    assert LinkName(l) + "." + Family(v4) == LinkName(l) + FamilyName(v4);
    forall i
      ensures KeyOf(net, EndAddress(l, i, v4)) == Claimed(false, net, l.Node(i) + "." + l.Ep(i) + FamilyName(v4))
    {
      EndKeys(net, l.Node(i), l.Ep(i), Family(v4));
      assert l.Node(i) + "." + l.Ep(i) + "." + Family(v4) == l.Node(i) + "." + l.Ep(i) + FamilyName(v4);
    }
  }

  lemma GivenToLink(d: NetworkDesign, net: string, l: Link, v4: bool, k: Key, sel: Selector) returns (s: Source)
    requires LinkGiven(d, net, l, v4, k, sel)
    ensures s in LinkSources(d, l) && KeyOf(net, s) == k && SelectorOf(net, s) == sel
  {
    hide KeyOf, LinkName, FamilyName, Numbers, NetworkDesign.V4Numbered, NetworkDesign.V6Numbered;
    FamiliesGiven(d);
    SourceKeys(net, l, v4);
    NameOfPrefix(net, l, v4);
    s := if sel.FromPool? then LinkPrefix(l, v4)
         else if k == Claimed(false, net, l.Node(false) + "." + l.Ep(false) + FamilyName(v4)) then
           EndAddress(l, false, v4)
         else EndAddress(l, true, v4);
  }

  lemma SourceOfLink(d: NetworkDesign, net: string, l: Link, k: Key, sel: Selector)
    ensures (exists v4 :: LinkGiven(d, net, l, v4, k, sel)) <==>
              exists s :: s in LinkSources(d, l) && KeyOf(net, s) == k && SelectorOf(net, s) == sel
  {
    if v4 :| LinkGiven(d, net, l, v4, k, sel) {
      var s := GivenToLink(d, net, l, v4, k, sel);
    }
    if s :| s in LinkSources(d, l) && KeyOf(net, s) == k && SelectorOf(net, s) == sel {
      SourceGiven(d, net, l, s);
    }
  }

  lemma SourceGiven(d: NetworkDesign, net: string, l: Link, s: Source)
    requires s in LinkSources(d, l)
    ensures LinkGiven(d, net, l, s.v4, KeyOf(net, s), SelectorOf(net, s))
  {
    hide KeyOf, LinkName, FamilyName, Numbers, NetworkDesign.V4Numbered, NetworkDesign.V6Numbered;
    FamiliesGiven(d);
    SourceKeys(net, l, s.v4);
    NameOfPrefix(net, l, s.v4);
  }

  lemma NameOfPrefix(net: string, l: Link, v4: bool)
    ensures NameOf(net, LinkPrefix(l, v4)) == net + "." + LinkName(l) + FamilyName(v4)
  {
    SourceKeys(net, l, v4);
    assert KeyOf(net, LinkPrefix(l, v4)).name == net + "." + (LinkName(l) + FamilyName(v4));
    assert net + "." + (LinkName(l) + FamilyName(v4)) == net + "." + LinkName(l) + FamilyName(v4);
  }

  /** Where names do not collide, a claim with its labels is applied exactly if a node or link is given it. */
  lemma AppliedHolds(d: NetworkDesign, net: string, nodes: seq<string>, links: seq<Link>, k: Key, sel: Selector)
    requires DotFree(nodes, links) && EndpointsDistinct(links)
    ensures (k in Applied(d, net, nodes, links) && Applied(d, net, nodes, links)[k] == sel) <==>
              ClaimGiven(d, net, nodes, links, k, sel)
  {
    hide Applied, Created, ClaimGiven, KeyOf, SelectorOf;
    if k in Applied(d, net, nodes, links) && Applied(d, net, nodes, links)[k] == sel {
      AppliedComesFrom(d, net, nodes, links, k);
      var s :| Created(d, nodes, links, s) && KeyOf(net, s) == k && SelectorOf(net, s) == sel;
      CreatedIsGiven(d, net, nodes, links, k, sel, s);
    }
    if ClaimGiven(d, net, nodes, links, k, sel) {
      var s := GivenIsCreated(d, net, nodes, links, k, sel);
      AppliedExactly(d, net, nodes, links, s);
    }
  }

  lemma AppliedComesFrom(d: NetworkDesign, net: string, nodes: seq<string>, links: seq<Link>, k: Key)
    requires k in Applied(d, net, nodes, links)
    ensures exists s :: Created(d, nodes, links, s) && KeyOf(net, s) == k &&
                        SelectorOf(net, s) == Applied(d, net, nodes, links)[k]
  {
    hide KeyOf, SelectorOf, Created, AllSources, ResourceSet;
    var sources := AllSources(d, nodes, links);
    ResourceSetExact(net, sources, k);
    var s :| s in sources && KeyOf(net, s) == k && ResourceSet(net, sources)[k] == SelectorOf(net, s);
    AllSourcesExact(d, nodes, links, s);
  }

  lemma GivenIsCreated(d: NetworkDesign, net: string, nodes: seq<string>, links: seq<Link>, k: Key, sel: Selector)
    returns (s: Source)
    requires ClaimGiven(d, net, nodes, links, k, sel)
    ensures Created(d, nodes, links, s) && KeyOf(net, s) == k && SelectorOf(net, s) == sel
  {
    hide NodeSources, LinkSources, KeyOf, SelectorOf, NodeGiven, LinkGiven;
    if n :| n in nodes && NodeGiven(d, net, n, k, sel) {
      SourceOfNode(d, net, n, k, sel);
      s :| s in NodeSources(d, n) && KeyOf(net, s) == k && SelectorOf(net, s) == sel;
    } else {
      var l, v4 :| l in links && LinkGiven(d, net, l, v4, k, sel);
      SourceOfLink(d, net, l, k, sel);
      s :| s in LinkSources(d, l) && KeyOf(net, s) == k && SelectorOf(net, s) == sel;
    }
  }

  lemma CreatedIsGiven(d: NetworkDesign, net: string, nodes: seq<string>, links: seq<Link>, k: Key, sel: Selector,
                       s: Source)
    requires Created(d, nodes, links, s) && KeyOf(net, s) == k && SelectorOf(net, s) == sel
    ensures ClaimGiven(d, net, nodes, links, k, sel)
  {
    hide NodeSources, LinkSources, KeyOf, SelectorOf, NodeGiven, LinkGiven;
    if n :| n in nodes && s in NodeSources(d, n) {
      SourceOfNode(d, net, n, k, sel);
    } else {
      var l :| l in links && s in LinkSources(d, l);
      SourceOfLink(d, net, l, k, sel);
    }
  }

  // ---------------------------------------------------------------- the design's own AS claims

  predicate HasIbgpAs(d: NetworkDesign) {
    d.ibgp.Some? && d.ibgp.value.asn.Some?
  }

  /** GetASClaims: named after the design, which has the name of its default network. */
  function DesignAsClaims(d: NetworkDesign, net: string): set<string> {
    (if HasIbgpAs(d) then {Dotted(net, "ibgp")} else {}) + (if HasAsPool(d) then {Dotted(net, "aspool")} else {})
  }

  /** A design's AS claim and a claim of the network are one object exactly for a node of that name. */
  lemma DesignClaimOfNode(net: string, last: string, s: Source)
    ensures KeyOf(net, s) == Key(true, Dotted(net, last)) <==> s == NodeAs(last)
  {
    if s.NodeAs? {
      PathTwo(net, s.node, "");
      DottedSame(net, s.node, last);
    }
  }

  lemma DottedSame(net: string, n: string, m: string)
    ensures Dotted(net, n) == Dotted(net, m) <==> n == m
  {
    assert n == Dotted(net, n)[|net| + 1..] && m == Dotted(net, m)[|net| + 1..];
  }

  /**
   The design and its network claim an AS under one name exactly when AS numbers come from a pool and a node is
   called aspool, or ibgp beside an IBGP AS; and node AS claims select the design's own pool claim.
   */
  lemma DesignClaimsApart(d: NetworkDesign, net: string, nodes: seq<string>, links: seq<Link>)
    ensures (forall name :: name in DesignAsClaims(d, net) ==> Key(true, name) !in Applied(d, net, nodes, links)) <==>
              !(HasAsPool(d) && ("aspool" in nodes || ("ibgp" in nodes && HasIbgpAs(d))))
    ensures HasAsPool(d) ==>
              forall n :: SelectorOf(net, NodeAs(n)).FromAsPool? &&
                          SelectorOf(net, NodeAs(n)).name in DesignAsClaims(d, net)
  {
    NodeAsApplied(d, net, nodes, links, "ibgp");
    NodeAsApplied(d, net, nodes, links, "aspool");
  }

  lemma NodeAsApplied(d: NetworkDesign, net: string, nodes: seq<string>, links: seq<Link>, last: string)
    ensures Key(true, Dotted(net, last)) in Applied(d, net, nodes, links) <==> HasAsPool(d) && last in nodes
  {
    hide KeyOf, AllSources, ResourceSet;
    var k := Key(true, Dotted(net, last));
    ResourceSetExact(net, AllSources(d, nodes, links), k);
    forall s
      ensures s in AllSources(d, nodes, links) && KeyOf(net, s) == k <==>
                s == NodeAs(last) && HasAsPool(d) && last in nodes
    {
      AllSourcesExact(d, nodes, links, s);
      DesignClaimOfNode(net, last, s);
    }
    if HasAsPool(d) && last in nodes {
      assert NodeAs(last) in AllSources(d, nodes, links);
    }
  }

  // ---------------------------------------------------------------- completeness

  lemma PathTwo(net: string, a: string, b: string)
    ensures Path(net, [a]) == Dotted(net, a) && Path(net, [a, b]) == Dotted(Dotted(net, a), b)
  {
    assert [a][..0] == [] && [a, b][..1] == [a];
  }

  /** The names the builder looks up are the names the claims were created under. */
  lemma NodeNames(x: Inputs, n: string)
    ensures x.LoopbackClaim(n, true) == NameOf(x.netName, Loopback(n, true))
    ensures x.LoopbackClaim(n, false) == NameOf(x.netName, Loopback(n, false))
    ensures x.RouterIdClaim(n) == NameOf(x.netName, RouterId(n))
    ensures x.NodeClaim(n) == NameOf(x.netName, NodeAs(n))
  {
    hide Path, Dotted;
    PathTwo(x.netName, n, "ipv4");
    PathTwo(x.netName, n, "ipv6");
    PathTwo(x.netName, n, "routerid");
  }

  lemma EndNames(x: Inputs, l: Link, i: bool, v4: bool)
    ensures x.EndpointClaim(l.Node(i), l.Ep(i), v4) == NameOf(x.netName, EndAddress(l, i, v4))
  {
    var n, e, f := l.Node(i), l.Ep(i), Family(v4);
    PathTwo(x.netName, n, e);
    assert [n, e, f][..2] == [n, e];
  }

  /** Every claim of the applied set is ready and has a value. */
  ghost predicate Served(x: Inputs, res: map<Key, Selector>) {
    forall k :: k in res ==> if k.asClaim then x.Asn(k.name).Some? else x.Ip(k.name).Some?
  }

  /** The end's node is in the topology's node list, and the inventory describes it fully. */
  predicate EndDescribed(x: Inputs, nodes: seq<string>, l: Link, i: bool) {
    var key := Dotted(x.topology, l.E(i).id.kuid);
    l.Node(i) in nodes && key in x.api.nodes && x.api.nodes[key].systemId.Some? && x.api.nodes[key].deviceType.Some?
  }

  ghost predicate InventoryComplete(x: Inputs, nodes: seq<string>, links: seq<Link>) {
    forall l, i :: l in links ==> EndDescribed(x, nodes, l, i)
  }

  lemma IpServed(x: Inputs, nodes: seq<string>, links: seq<Link>, s: Source)
    requires Served(x, Applied(x.design, x.netName, nodes, links)) && Created(x.design, nodes, links, s)
    ensures if s.NodeAs? then x.Asn(NameOf(x.netName, s)).Some? else x.Ip(NameOf(x.netName, s)).Some?
  {
    AllSourcesExact(x.design, nodes, links, s);
    ResourceSetExact(x.netName, AllSources(x.design, nodes, links), KeyOf(x.netName, s));
  }

  lemma NodeServed(x: Inputs, nodes: seq<string>, links: seq<Link>, n: string)
    requires Served(x, Applied(x.design, x.netName, nodes, links)) && n in nodes
    ensures if x.design.LoopbackV4() then x.Ip(x.LoopbackClaim(n, true)).Some? else x.Ip(x.RouterIdClaim(n)).Some?
    ensures x.design.LoopbackV6() ==> x.Ip(x.LoopbackClaim(n, false)).Some?
    ensures HasAsPool(x.design) ==> x.Asn(x.NodeClaim(n)).Some?
  {
    forall s | s in NodeSources(x.design, n)
      ensures if s.NodeAs? then x.Asn(NameOf(x.netName, s)).Some? else x.Ip(NameOf(x.netName, s)).Some?
    {
      IpServed(x, nodes, links, s);
    }
    NodeNames(x, n);
  }

  lemma EndServed(x: Inputs, nodes: seq<string>, links: seq<Link>, l: Link, i: bool, v4: bool)
    requires Served(x, Applied(x.design, x.netName, nodes, links)) && l in links && Numbered(x, v4)
    ensures x.Ip(x.EndpointClaim(l.Node(i), l.Ep(i), v4)).Some?
  {
    assert EndAddress(l, i, v4) in LinkSources(x.design, l);
    IpServed(x, nodes, links, EndAddress(l, i, v4));
    EndNames(x, l, i, v4);
  }

  /** A link end finds every claim it looks up, when EBGP has an AS pool or the node's AS claim is there anyway. */
  lemma EndComplete(x: Inputs, nodes: seq<string>, links: seq<Link>, l: Link, i: bool)
    requires Served(x, Applied(x.design, x.netName, nodes, links)) && EndDescribed(x, nodes, l, i) && l in links
    requires x.design.ebgp.Some? ==> HasAsPool(x.design) || x.Asn(x.NodeClaim(l.Node(i))).Some?
    ensures GatherNode(x, l.E(i).id).Found? && EndClaimed(x, l.E(i))
  {
    hide Applied, Served, Lookup;
    NodeServed(x, nodes, links, l.Node(i));
    if Numbered(x, true) {
      EndServed(x, nodes, links, l, i, true);
    }
    if Numbered(x, false) {
      EndServed(x, nodes, links, l, i, false);
    }
  }

  /** The timers that links override are set in the design. */
  ghost predicate TimersSet(x: Inputs, links: seq<Link>) {
    x.design.BfdEnabled() ==> forall l :: l in links ==> Overridable(x.design.BfdTimers(), LinkTimers(l))
  }

  /** There is an AS claim with a value under the name of every end node. */
  ghost predicate AsClaimsElsewhere(x: Inputs, links: seq<Link>) {
    forall l, i :: l in links ==> x.Asn(x.NodeClaim(l.Node(i))).Some?
  }

  /**
   Claim completeness: once the claims that applyDefaultNetwork creates are served, the builder gets through all
   links of a fully described topology; except that without an AS pool, from which alone node AS claims are
   created, an EBGP section needs an AS claim from elsewhere under the name of every end node.
   */
  lemma ServedExactly(x: Inputs, nodes: seq<string>, links: seq<Link>)
    requires Served(x, Applied(x.design, x.netName, nodes, links)) && InventoryComplete(x, nodes, links)
    requires UnderlayLayers.NamesDistinct(links) && TimersSet(x, links)
    ensures LinksOutcome(x, links).Ok? <==>
              (x.design.ebgp.Some? && !HasAsPool(x.design) ==> AsClaimsElsewhere(x, links))
  {
    hide Served, Applied, LinksOutcome, Lookup;
    OutcomeByLink(x, links);
    if forall l :: l in links ==> LinkBuildable(x, l) {
      forall l, i | l in links && x.design.ebgp.Some?
        ensures x.Asn(x.NodeClaim(l.Node(i))).Some?
      {
        assert EndClaimed(x, if i then l.b else l.a);
      }
    }
    if x.design.ebgp.Some? && !HasAsPool(x.design) ==> AsClaimsElsewhere(x, links) {
      forall l | l in links
        ensures LinkBuildable(x, l)
      {
        EndComplete(x, nodes, links, l, false);
        EndComplete(x, nodes, links, l, true);
      }
    }
  }

  /** The design's IBGP AS claim, which asks for that AS, has it. */
  predicate DesignServed(x: Inputs) {
    HasIbgpAs(x.design) ==> x.Asn(Dotted(x.netName, "ibgp")) == x.design.ibgp.value.asn
  }

  /** Where an AS claim under an end node's name has a value, the network or the design created it. */
  ghost predicate AsAccounted(x: Inputs, nodes: seq<string>, links: seq<Link>) {
    forall l, i :: l in links && x.Asn(x.NodeClaim(l.Node(i))).Some? ==>
                     || Key(true, x.NodeClaim(l.Node(i))) in Applied(x.design, x.netName, nodes, links)
                     || x.NodeClaim(l.Node(i)) in DesignAsClaims(x.design, x.netName)
  }

  /**
   With no AS claims from elsewhere under the end nodes' names, the builder gets through exactly when the EBGP
   section, if there is one, has an AS pool, or every end node is called ibgp and finds the design's IBGP AS.
   */
  lemma ClaimsSufficeExactly(x: Inputs, nodes: seq<string>, links: seq<Link>)
    requires Served(x, Applied(x.design, x.netName, nodes, links)) && InventoryComplete(x, nodes, links)
    requires UnderlayLayers.NamesDistinct(links) && TimersSet(x, links)
    requires DesignServed(x) && AsAccounted(x, nodes, links)
    ensures LinksOutcome(x, links).Ok? <==>
              (x.design.ebgp.Some? ==>
                 HasAsPool(x.design) || forall l, i :: l in links ==> l.Node(i) == "ibgp" && HasIbgpAs(x.design))
  {
    hide Served, Applied, LinksOutcome, InventoryComplete, TimersSet, Lookup, Dotted;
    ServedExactly(x, nodes, links);
    if !HasAsPool(x.design) {
      forall l, i | l in links
        ensures x.Asn(x.NodeClaim(l.Node(i))).Some? <==> l.Node(i) == "ibgp" && HasIbgpAs(x.design)
      {
        NodeAsApplied(x.design, x.netName, nodes, links, l.Node(i));
        DottedSame(x.netName, l.Node(i), "ibgp");
      }
    }
  }

  /** What ClaimsSufficeExactly means for a node called ibgp: it runs BGP in the design's IBGP AS, under EBGP too. */
  lemma NodeCalledIbgp(x: Inputs, id: NodeId)
    requires HasIbgpAs(x.design) && DesignServed(x) && id.node == "ibgp"
    ensures GatherNode(x, id).Found? ==> GatherNode(x, id).node.asn == x.design.IbgpAs()
    ensures x.design.ebgp.Some? ==> AsOf(x, id.node) == x.design.IbgpAs()
  {
  }

  // ---------------------------------------------------------------- device names

  /** NewDevice names a node's device after the network and the node. */
  function DeviceName(net: string, node: string): string {
    Dotted(net, node)
  }

  /** getNodeName undoes the device name of exactly the dot-free node names. */
  lemma DeviceNameRoundTrip(net: string, node: string)
    ensures LastPart(DeviceName(net, node)) == node <==> NoDot(node)
  {
    if NoDot(node) {
      LastPartOfDotted(net, node);
    }
  }
}
