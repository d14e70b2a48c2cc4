/**
 The tree after the loop over the links, described without the order of the links: what link ends write, and
 below it the base configuration of every node met. Base configuration always comes before the node's links.
 */
module UnderlayLayers {
  import opened ConfigTree
  import opened Design
  import opened Underlay
  import opened UnderlayEntries

  ghost predicate Touched(x: Inputs, links: seq<Link>, loc: Loc) {
    exists l, i :: l in links && loc in ItfTree(x, l, i)
  }

  ghost predicate WrittenBy(x: Inputs, links: seq<Link>, loc: Loc, v: Val) {
    exists l, i :: l in links && loc in ItfTree(x, l, i) && ItfTree(x, l, i)[loc] == v
  }

  predicate InBase(x: Inputs, ns: Nodes, loc: Loc) {
    loc.node in ns && loc in BaseTree(x, loc.node, ns[loc.node])
  }

  ghost predicate LayeredAt(x: Inputs, links: seq<Link>, ns: Nodes, t: Tree, loc: Loc) {
    if Touched(x, links, loc) then loc in t && WrittenBy(x, links, loc, t[loc])
    else
      && (loc in t <==> InBase(x, ns, loc))
      && (loc in t ==> t[loc] == BaseTree(x, loc.node, ns[loc.node])[loc])
  }

  lemma NodesGrow(x: Inputs, links: seq<Link>, n: string)
    requires links != [] && n in NodesOf(x, links[..|links| - 1])
    ensures n in NodesOf(x, links) && NodesOf(x, links)[n] == NodesOf(x, links[..|links| - 1])[n]
  {
  }

  lemma {:induction false} EndsAreEndNodes(links: seq<Link>, l: Link, i: bool)
    requires l in links
    ensures l.Node(i) in EndNodes(links)
  {
    var front := links[..|links| - 1];
    if l != links[|links| - 1] {
      assert links == front + [links[|links| - 1]];
      EndsAreEndNodes(front, l, i);
    }
  }

  /** The base configuration one link adds: that of its ends not met before. */
  lemma BaseOfTree(x: Inputs, done: set<string>, ns: Nodes, l: Link, loc: Loc)
    requires l.Node(false) in ns && l.Node(true) in ns
    ensures var b := Merge(BaseOf(x, done, ns, l));
            && (loc in b <==>
                  (loc.node == l.Node(false) || loc.node == l.Node(true)) && loc.node !in done && InBase(x, ns, loc))
            && (loc in b ==> b[loc] == BaseTree(x, loc.node, ns[loc.node])[loc])
  {
    var n, m := l.Node(false), l.Node(true);
    var first := if n in done then [] else BaseLog(x, n, ns[n]);
    var second := if m in done + {n} then [] else BaseLog(x, m, ns[m]);
    MergeAppend(first, second);
    if loc in BaseTree(x, n, ns[n]) {
      BaseTreeEntries(x, n, ns[n], loc);
    }
    if loc in BaseTree(x, m, ns[m]) {
      BaseTreeEntries(x, m, ns[m], loc);
    }
  }

  lemma TouchedNode(x: Inputs, links: seq<Link>, loc: Loc)
    requires Touched(x, links, loc)
    ensures loc.node in EndNodes(links)
  {
    var l, i :| l in links && loc in ItfTree(x, l, i);
    ItfTreeEntries(x, l, i, loc);
    EndsAreEndNodes(links, l, i);
  }

  /** The tree after one more link. */
  lemma LinkLogStep(x: Inputs, links: seq<Link>)
    requires links != [] && LinksOutcome(x, links).Ok?
    ensures var front, l := links[..|links| - 1], links[|links| - 1];
            Merge(LinkLog(x, links)) ==
              Merge(LinkLog(x, front)) + Merge(BaseOf(x, EndNodes(front), NodesOf(x, links), l))
              + ItfTree(x, l, false) + ItfTree(x, l, true)
  {
    var front, l := links[..|links| - 1], links[|links| - 1];
    var a, b := LinkLog(x, front), BaseOf(x, EndNodes(front), NodesOf(x, links), l);
    MergeAppend(a, b);
    MergeAppend(a + b, ItfLog(x, l, false));
    MergeAppend(a + b + ItfLog(x, l, false), ItfLog(x, l, true));
  }

  lemma FrontAndLast<T>(s: seq<T>)
    requires s != []
    ensures s == s[..|s| - 1] + [s[|s| - 1]]
  {
  }

  lemma NodesStep(x: Inputs, links: seq<Link>)
    requires links != [] && LinksOutcome(x, links).Ok?
    ensures var front, l := links[..|links| - 1], links[|links| - 1];
            && LinksOutcome(x, front).Ok? && NodesOf(x, front).Keys == EndNodes(front)
            && NodesOf(x, links).Keys == NodesOf(x, front).Keys + {l.Node(false), l.Node(true)}
            && (forall n :: n in NodesOf(x, front) ==> NodesOf(x, links)[n] == NodesOf(x, front)[n])
  {
    EndNodesGathered(x, links[..|links| - 1]);
    EndNodesGathered(x, links);
  }

  lemma {:induction false} LinkTreeLayered(x: Inputs, links: seq<Link>, loc: Loc)
    requires LinksOutcome(x, links).Ok?
    ensures LayeredAt(x, links, NodesOf(x, links), Merge(LinkLog(x, links)), loc)
  {
    if links != [] {
      var front, l := links[..|links| - 1], links[|links| - 1];
      NodesStep(x, links);
      var ns0, ns, t0 := NodesOf(x, front), NodesOf(x, links), Merge(LinkLog(x, front));
      var b := Merge(BaseOf(x, EndNodes(front), ns, l));
      LinkTreeLayered(x, front, loc);
      LinkLogStep(x, links);
      BaseOfTree(x, EndNodes(front), ns, l, loc);
      LayerStep(x, front, l, ns0, ns, t0, b, loc);
      FrontAndLast(links);
    }
  }

  lemma LayerStep(x: Inputs, front: seq<Link>, l: Link, ns0: Nodes, ns: Nodes, t0: Tree, b: Tree, loc: Loc)
    requires LayeredAt(x, front, ns0, t0, loc)
    requires ns0.Keys == EndNodes(front) && ns.Keys == ns0.Keys + {l.Node(false), l.Node(true)}
    requires forall n :: n in ns0 ==> ns[n] == ns0[n]
    requires loc in b <==>
               (loc.node == l.Node(false) || loc.node == l.Node(true)) && loc.node !in ns0 && InBase(x, ns, loc)
    requires loc in b ==> b[loc] == BaseTree(x, loc.node, ns[loc.node])[loc]
    ensures LayeredAt(x, front + [l], ns, t0 + b + ItfTree(x, l, false) + ItfTree(x, l, true), loc)
  {
    hide ItfTree, BaseTree, EndNodes;
    var links := front + [l];
    var t := t0 + b + ItfTree(x, l, false) + ItfTree(x, l, true);
    if loc in ItfTree(x, l, true) {
      assert l in links;
      assert WrittenBy(x, links, loc, t[loc]);
    } else if loc in ItfTree(x, l, false) {
      assert l in links;
      assert WrittenBy(x, links, loc, t[loc]);
    } else if Touched(x, front, loc) {
      TouchedNode(x, front, loc);
      assert t[loc] == t0[loc];
      var k, i :| k in front && loc in ItfTree(x, k, i) && ItfTree(x, k, i)[loc] == t0[loc];
      assert k in links;
    } else {
      assert !Touched(x, links, loc);
    }
  }

  // ---------------------------------------------------------------- success, link by link

  ghost predicate NamesDistinct(links: seq<Link>) {
    forall l, i, m, j :: l in links && m in links && l.Node(i) == m.Node(j) ==> l.E(i).id == m.E(j).id
  }

  predicate LinkBuildable(x: Inputs, l: Link) {
    && GatherNode(x, l.a.id).Found? && EndClaimed(x, l.a)
    && GatherNode(x, l.b.id).Found? && EndClaimed(x, l.b)
    && (x.design.BfdEnabled() ==> Overridable(x.design.BfdTimers(), LinkTimers(l)))
  }

  /** Links that succeeded override only timers that the design sets. */
  lemma {:induction false} OverridesAreSet(x: Inputs, links: seq<Link>)
    requires LinksOutcome(x, links).Ok? && x.design.BfdEnabled()
    ensures forall l :: l in links ==> Overridable(x.design.BfdTimers(), LinkTimers(l))
  {
    hide Overridable;
    if links != [] {
      var front, last := links[..|links| - 1], links[|links| - 1];
      FrontAndLast(links);
      OverridesAreSet(x, front);
      TimersStayOverridable(x, front, LinkTimers(last));
    }
  }

  /** Each node in the map is what its identifier gathers to. */
  lemma {:induction false} NodesAreGathered(x: Inputs, links: seq<Link>, n: string)
    requires n in NodesOf(x, links)
    ensures exists l, i :: l in links && l.Node(i) == n && GatherNode(x, l.E(i).id) == Found(NodesOf(x, links)[n])
  {
    var front, l := links[..|links| - 1], links[|links| - 1];
    assert links == front + [l];
    if n in NodesOf(x, front) {
      NodesAreGathered(x, front, n);
      NodesGrow(x, links, n);
    } else if n == l.Node(false) && GatherNode(x, l.a.id).Found? {
      assert l.E(false).id == l.a.id;
    } else {
      assert l.E(true).id == l.b.id;
    }
  }

  /** With distinct node names, a build's links succeed exactly when each link is buildable on its own. */
  lemma {:induction false} OutcomeByLink(x: Inputs, links: seq<Link>)
    requires NamesDistinct(links)
    ensures LinksOutcome(x, links).Ok? <==> forall l :: l in links ==> LinkBuildable(x, l)
  {
    if links != [] {
      var front, l := links[..|links| - 1], links[|links| - 1];
      assert links == front + [l];
      OutcomeByLink(x, front);
      if LinksOutcome(x, front).Ok? {
        if x.design.BfdEnabled() {
          OverridesAreSet(x, front);
        }
        TimersStayOverridable(x, front, LinkTimers(l));
        assert l.E(false) == l.a && l.E(true) == l.b;
        OneLinkOutcome(x, links);
      }
    }
  }

  /** A node met before gathers, under the identifier any later link gives it. */
  lemma KnownNodeGathers(x: Inputs, links: seq<Link>, l: Link, i: bool)
    requires NamesDistinct(links) && links != [] && l == links[|links| - 1]
    ensures l.Node(i) in NodesOf(x, links[..|links| - 1]) ==> GatherNode(x, l.E(i).id).Found?
  {
    var front := links[..|links| - 1];
    assert links == front + [l];
    if l.Node(i) in NodesOf(x, front) {
      NodesAreGathered(x, front, l.Node(i));
      var k, j :| k in front && k.Node(j) == l.Node(i) && GatherNode(x, k.E(j).id).Found?;
      assert k in links && l in links && k.E(j).id == l.E(i).id;
    }
  }

  lemma OneLinkOutcome(x: Inputs, links: seq<Link>)
    requires NamesDistinct(links) && links != [] && LinksOutcome(x, links[..|links| - 1]).Ok?
    requires var front, l := links[..|links| - 1], links[|links| - 1];
             Overridable(TimersOf(x, front), LinkTimers(l)) <==> Overridable(x.design.BfdTimers(), LinkTimers(l))
    ensures LinksOutcome(x, links).Ok? <==> LinkBuildable(x, links[|links| - 1])
  {
    var front, l := links[..|links| - 1], links[|links| - 1];
    KnownNodeGathers(x, links, l, false);
    KnownNodeGathers(x, links, l, true);
    assert l in links && (l.Node(false) == l.Node(true) ==> l.E(false).id == l.E(true).id);
    OutcomeOfEnds(x, NodesOf(x, front), TimersOf(x, front), l);
  }

  lemma OutcomeOfEnds(x: Inputs, ns: Nodes, t: Timers, l: Link)
    requires l.a.id.node in ns ==> GatherNode(x, l.a.id).Found?
    requires l.b.id.node in ns ==> GatherNode(x, l.b.id).Found?
    requires l.a.id.node == l.b.id.node ==> l.a.id == l.b.id
    ensures LinkOutcome(x, ns, t, l).Ok? <==>
              && GatherNode(x, l.a.id).Found? && EndClaimed(x, l.a)
              && GatherNode(x, l.b.id).Found? && EndClaimed(x, l.b)
              && (x.design.BfdEnabled() ==> Overridable(t, LinkTimers(l)))
  {
  }

  /** With distinct node names the gathered nodes do not depend on the order of the links. */
  lemma NodesOrderFree(x: Inputs, links: seq<Link>, others: seq<Link>)
    requires NamesDistinct(links) && (forall l :: l in links <==> l in others)
    requires LinksOutcome(x, links).Ok? && LinksOutcome(x, others).Ok?
    ensures NodesOf(x, links) == NodesOf(x, others)
  {
    NodesIncluded(x, links, others);
    NodesIncluded(x, others, links);
  }

  lemma NodesIncluded(x: Inputs, links: seq<Link>, others: seq<Link>)
    requires NamesDistinct(links) && (forall l :: l in links <==> l in others)
    requires LinksOutcome(x, links).Ok? && LinksOutcome(x, others).Ok?
    ensures forall n :: n in NodesOf(x, links) ==>
              n in NodesOf(x, others) && NodesOf(x, others)[n] == NodesOf(x, links)[n]
  {
    EndNodesGathered(x, others);
    forall n | n in NodesOf(x, links)
      ensures n in NodesOf(x, others) && NodesOf(x, others)[n] == NodesOf(x, links)[n]
    {
      NodesAreGathered(x, links, n);
      var l, i :| l in links && l.Node(i) == n && GatherNode(x, l.E(i).id) == Found(NodesOf(x, links)[n]);
      EndsAreEndNodes(others, l, i);
      NodesAreGathered(x, others, n);
      var m, j :| m in others && m.Node(j) == n && GatherNode(x, m.E(j).id) == Found(NodesOf(x, others)[n]);
      assert m in links && l.E(i).id == m.E(j).id;
    }
  }
}
