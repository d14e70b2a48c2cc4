/** The whole-run properties of BuildUnderlay. */
module UnderlayTheorems {
  import opened ConfigTree
  import opened Design
  import opened Underlay
  import opened UnderlayEntries
  import opened UnderlayLayers

  // ---------------------------------------------------------------- the processed-node guard

  /** The log without the guard: base configuration of both ends of every link. */
  function UnguardedLog(x: Inputs, links: seq<Link>): Log
    requires LinksOutcome(x, links).Ok?
  {
    if links == [] then []
    else
      var front, l, ns := links[..|links| - 1], links[|links| - 1], NodesOf(x, links);
      UnguardedLog(x, front) + BaseLog(x, l.Node(false), ns[l.Node(false)]) + BaseLog(x, l.Node(true), ns[l.Node(true)])
      + ItfLog(x, l, false) + ItfLog(x, l, true)
  }

  /** Away from system0, a link end writes nothing that its node's base configuration writes differently. */
  lemma BaseAndItfAgree(x: Inputs, n: string, v: Node, l: Link, i: bool, loc: Loc)
    requires l.Ep(i) != SYSTEM_ITF
    requires loc in BaseTree(x, n, v) && loc in ItfTree(x, l, i)
    ensures BaseTree(x, n, v)[loc] == ItfTree(x, l, i)[loc]
  {
    BaseTreeEntries(x, n, v, loc);
    ItfTreeEntries(x, l, i, loc);
  }

  /** None of the links has an endpoint called system0 on node n. */
  ghost predicate SystemFree(links: seq<Link>, n: string) {
    forall l, i :: l in links && l.Node(i) == n ==> l.Ep(i) != SYSTEM_ITF
  }

  /** No link meets a node on which an earlier link has an endpoint called system0. */
  ghost predicate NoEarlySystem(links: seq<Link>) {
    forall k, i :: 0 <= k < |links| ==> SystemFree(links[..k], links[k].Node(i))
  }

  /** The base configuration of a node met before is already in the tree. */
  lemma BaseStillThere(x: Inputs, links: seq<Link>, n: string, loc: Loc)
    requires LinksOutcome(x, links).Ok? && SystemFree(links, n)
    requires n in NodesOf(x, links) && loc in BaseTree(x, n, NodesOf(x, links)[n])
    ensures loc in Merge(LinkLog(x, links))
    ensures Merge(LinkLog(x, links))[loc] == BaseTree(x, n, NodesOf(x, links)[n])[loc]
  {
    var v := NodesOf(x, links)[n];
    var t := Merge(LinkLog(x, links));
    BaseTreeEntries(x, n, v, loc);
    LinkTreeLayered(x, links, loc);
    if Touched(x, links, loc) {
      var l, i :| l in links && loc in ItfTree(x, l, i) && ItfTree(x, l, i)[loc] == t[loc];
      ItfTreeEntries(x, l, i, loc);
      BaseAndItfAgree(x, n, v, l, i, loc);
    }
  }

  lemma BasesStillThere(x: Inputs, links: seq<Link>, ns: Nodes, t: Tree, l: Link)
    requires LinksOutcome(x, links).Ok? && t == Merge(LinkLog(x, links))
    requires SystemFree(links, l.Node(false)) && SystemFree(links, l.Node(true))
    requires NodesOf(x, links).Keys == EndNodes(links)
    requires forall n :: n in NodesOf(x, links) ==> n in ns && ns[n] == NodesOf(x, links)[n]
    ensures BasesIn(x, EndNodes(links), ns, t, l)
  {
    BaseStays(x, links, ns, t, l.Node(false));
    BaseStays(x, links, ns, t, l.Node(true));
  }

  lemma BaseStays(x: Inputs, links: seq<Link>, ns: Nodes, t: Tree, n: string)
    requires LinksOutcome(x, links).Ok? && t == Merge(LinkLog(x, links)) && SystemFree(links, n)
    requires NodesOf(x, links).Keys == EndNodes(links)
    requires n in NodesOf(x, links) ==> n in ns && ns[n] == NodesOf(x, links)[n]
    ensures forall loc :: n in EndNodes(links) && loc in BaseTree(x, n, ns[n]) ==>
              loc in t && t[loc] == BaseTree(x, n, ns[n])[loc]
  {
    forall loc | n in EndNodes(links) && loc in BaseTree(x, n, ns[n])
      ensures loc in t && t[loc] == BaseTree(x, n, ns[n])[loc]
    {
      BaseStillThere(x, links, n, loc);
    }
  }

  /** The tree holds the base configuration of each end of l whose node is in `done`. */
  ghost predicate BasesIn(x: Inputs, done: set<string>, ns: Nodes, t: Tree, l: Link) {
    forall i, loc :: l.Node(i) in done && l.Node(i) in ns && loc in BaseTree(x, l.Node(i), ns[l.Node(i)]) ==>
                       loc in t && t[loc] == BaseTree(x, l.Node(i), ns[l.Node(i)])[loc]
  }

  lemma MergeWhatIsMissing(t: Tree, u: Tree, c: Tree)
    requires forall loc :: loc in c ==> loc in u && c[loc] == u[loc]
    requires forall loc :: loc in u && loc !in c ==> loc in t && t[loc] == u[loc]
    ensures t + u == t + c
  {
  }

  function BothTrees(x: Inputs, ns: Nodes, l: Link): Tree
    requires l.Node(false) in ns && l.Node(true) in ns
  {
    BaseTree(x, l.Node(false), ns[l.Node(false)]) + BaseTree(x, l.Node(true), ns[l.Node(true)])
  }

  lemma MissingIsInBoth(x: Inputs, done: set<string>, ns: Nodes, l: Link, loc: Loc)
    requires l.Node(false) in ns && l.Node(true) in ns
    ensures var c, u := Merge(BaseOf(x, done, ns, l)), BothTrees(x, ns, l);
            && (loc in c ==> loc in u && c[loc] == u[loc])
            && (loc in u ==> loc.node == l.Node(false) || loc.node == l.Node(true))
            && (loc in u && loc !in c ==>
                  loc.node in done && InBase(x, ns, loc) && u[loc] == BaseTree(x, loc.node, ns[loc.node])[loc])
  {
    BaseOfTree(x, done, ns, l, loc);
    BothAt(x, l.Node(false), ns[l.Node(false)], l.Node(true), ns[l.Node(true)], loc);
  }

  /** Adding both base trees again changes no more than adding the missing ones. */
  lemma BothBases(x: Inputs, done: set<string>, ns: Nodes, l: Link, t: Tree)
    requires l.Node(false) in ns && l.Node(true) in ns
    requires BasesIn(x, done, ns, t, l)
    ensures t + BothTrees(x, ns, l) == t + Merge(BaseOf(x, done, ns, l))
  {
    var u, c := BothTrees(x, ns, l), Merge(BaseOf(x, done, ns, l));
    forall loc
      ensures loc in c ==> loc in u && c[loc] == u[loc]
      ensures loc in u && loc !in c ==> loc in t && t[loc] == u[loc]
    {
      MissingIsInBoth(x, done, ns, l, loc);
      if loc in u && loc !in c {
        assert loc.node == l.Node(loc.node != l.Node(false));
      }
    }
    MergeWhatIsMissing(t, u, c);
  }

  lemma BothAt(x: Inputs, n: string, v: Node, m: string, w: Node, loc: Loc)
    requires n == m ==> v == w
    ensures var u := BaseTree(x, n, v) + BaseTree(x, m, w);
            && (loc in u ==> loc.node == n || loc.node == m)
            && (loc.node == n ==> (loc in u <==> loc in BaseTree(x, n, v)))
            && (loc.node == m ==> (loc in u <==> loc in BaseTree(x, m, w)))
            && (loc in u && loc.node == n ==> u[loc] == BaseTree(x, n, v)[loc])
            && (loc in u && loc.node == m ==> u[loc] == BaseTree(x, m, w)[loc])
  {
    if loc in BaseTree(x, n, v) {
      BaseTreeEntries(x, n, v, loc);
    }
    if loc in BaseTree(x, m, w) {
      BaseTreeEntries(x, m, w, loc);
    }
  }

  /**
   The guard is a pure speed-up when no endpoint is called system0, and more generally when no link meets a
   node on which an earlier link has an endpoint of that name: the build without it ends equal.
   */
  lemma {:induction false} GuardIsPureSpeedup(x: Inputs, links: seq<Link>)
    requires LinksOutcome(x, links).Ok? && NoEarlySystem(links)
    ensures Merge(UnguardedLog(x, links)) == Merge(LinkLog(x, links))
  {
    if links != [] {
      var k := |links| - 1;
      var front, l, ns := links[..k], links[k], NodesOf(x, links);
      FrontIsEarly(links);
      NodesStep(x, links);
      GuardIsPureSpeedup(x, front);
      var t0 := Merge(LinkLog(x, front));
      BasesStillThere(x, front, ns, t0, l);
      BothBases(x, EndNodes(front), ns, l, t0);
      LinkLogStep(x, links);
      UnguardedStep(x, links);
    }
  }

  lemma FrontIsEarly(links: seq<Link>)
    requires links != [] && NoEarlySystem(links)
    ensures NoEarlySystem(links[..|links| - 1])
    ensures SystemFree(links[..|links| - 1], links[|links| - 1].Node(false))
    ensures SystemFree(links[..|links| - 1], links[|links| - 1].Node(true))
  {
    var front := links[..|links| - 1];
    forall k, i | 0 <= k < |front|
      ensures SystemFree(front[..k], front[k].Node(i))
    {
      assert front[..k] == links[..k] && front[k] == links[k];
      assert SystemFree(links[..k], links[k].Node(i));
    }
  }

  /** The sub-interface a base configuration and an endpoint called system0 write differently. */
  function SystemLoc(n: string): Loc {
    Loc(n, SubInterface(SYSTEM_SUB))
  }

  predicate Meets(l: Link, n: string) {
    l.Node(false) == n || l.Node(true) == n
  }

  predicate SystemEnd(l: Link, n: string) {
    (l.Node(false) == n && l.Ep(false) == SYSTEM_ITF) || (l.Node(true) == n && l.Ep(true) == SYSTEM_ITF)
  }

  lemma BaseHasSystem(x: Inputs, n: string, v: Node)
    ensures SystemLoc(n) in BaseTree(x, n, v) && BaseTree(x, n, v)[SystemLoc(n)].VSub?
    ensures BaseTree(x, n, v)[SystemLoc(n)].kind == ""
  {
    var head := BaseHead(n, v);
    var rest := BaseInstance(x, n) + BaseOspf(x, n, v) + BaseIsis(x, n, v) + BaseBgp(x, n, v);
    BaseRestWithoutSystem(x, n, v);
    assert head[3] in head && SystemLoc(n) in head[3];
    var i := LastWriter(head, SystemLoc(n));
    var j := LastWriter(rest, SystemLoc(n));
    MergeAppend(head, rest);
    BaseLogSplit(x, n, v);
  }

  lemma BaseLogSplit(x: Inputs, n: string, v: Node)
    ensures BaseLog(x, n, v) == BaseHead(n, v) +
            (BaseInstance(x, n) + BaseOspf(x, n, v) + BaseIsis(x, n, v) + BaseBgp(x, n, v))
  {
  }

  lemma BaseRestWithoutSystem(x: Inputs, n: string, v: Node)
    ensures forall p :: p in BaseInstance(x, n) + BaseOspf(x, n, v) + BaseIsis(x, n, v) + BaseBgp(x, n, v) ==>
              SystemLoc(n) !in p
  {
  }

  predicate PlainSystem(t: Tree, n: string) {
    SystemLoc(n) in t && t[SystemLoc(n)].VSub? && t[SystemLoc(n)].kind == ""
  }

  /** One link without the guard: it restores the base system0 of a node it meets, and leaves others alone. */
  lemma UnguardedSystemStep(x: Inputs, links: seq<Link>, n: string)
    requires links != [] && LinksOutcome(x, links).Ok? && !SystemEnd(links[|links| - 1], n)
    ensures LinksOutcome(x, links[..|links| - 1]).Ok?
    ensures Meets(links[|links| - 1], n) || PlainSystem(Merge(UnguardedLog(x, links[..|links| - 1])), n) ==>
              PlainSystem(Merge(UnguardedLog(x, links)), n)
  {
    hide Merge, UnguardedLog, ItfTree, BaseTree, NodesOf, LinkLog;
    var l, ns := links[|links| - 1], NodesOf(x, links);
    UnguardedStep(x, links);
    NodesStep(x, links);
    ItfLeavesSystem(x, l, false, n);
    ItfLeavesSystem(x, l, true, n);
    BothAt(x, l.Node(false), ns[l.Node(false)], l.Node(true), ns[l.Node(true)], SystemLoc(n));
    if Meets(l, n) {
      BaseHasSystem(x, n, ns[n]);
    }
  }

  /** Without the guard, the last link that meets a node restores the base system0, unless it ends there itself. */
  lemma {:induction false} UnguardedSystem(x: Inputs, links: seq<Link>, n: string, k: nat)
    requires LinksOutcome(x, links).Ok? && k < |links|
    requires Meets(links[k], n) && forall j :: k <= j < |links| ==> !SystemEnd(links[j], n)
    ensures PlainSystem(Merge(UnguardedLog(x, links)), n)
  {
    hide Merge, UnguardedLog, LinksOutcome;
    UnguardedSystemStep(x, links, n);
    if k < |links| - 1 {
      UnguardedSystem(x, links[..|links| - 1], n, k);
    }
  }

  /** With the guard, an endpoint called system0 always wins over the base configuration. */
  lemma GuardedSystem(x: Inputs, links: seq<Link>, n: string, k: nat)
    requires LinksOutcome(x, links).Ok? && k < |links| && SystemEnd(links[k], n)
    ensures !PlainSystem(Merge(LinkLog(x, links)), n)
  {
    var l, loc := links[k], SystemLoc(n);
    var i := !(l.Node(false) == n && l.Ep(false) == SYSTEM_ITF);
    SubInterfaceOfEnd(x, l, i);
    assert l in links && Touched(x, links, loc);
    LinkTreeLayered(x, links, loc);
    var t := Merge(LinkLog(x, links));
    var m, j :| m in links && loc in ItfTree(x, m, j) && ItfTree(x, m, j)[loc] == t[loc];
    ItfTreeEntries(x, m, j, loc);
  }

  ghost predicate OneLinkPerEndpoint(links: seq<Link>) {
    forall k, m, i, j ::
      (0 <= k < |links| && 0 <= m < |links| &&
       links[k].Node(i) == links[m].Node(j) && links[k].Ep(i) == links[m].Ep(j)) ==> k == m && i == j
  }

  /**
   Exactly when the guard is a pure speed-up, for links that share no endpoint: no link meets a node on
   which an earlier link has an endpoint called system0.
   */
  lemma GuardIsPureSpeedupExactly(x: Inputs, links: seq<Link>)
    requires LinksOutcome(x, links).Ok? && OneLinkPerEndpoint(links)
    ensures Merge(UnguardedLog(x, links)) == Merge(LinkLog(x, links)) <==> NoEarlySystem(links)
  {
    if NoEarlySystem(links) {
      GuardIsPureSpeedup(x, links);
    } else {
      var k, i :| 0 <= k < |links| && !SystemFree(links[..k], links[k].Node(i));
      var n := links[k].Node(i);
      var l, j :| l in links[..k] && l.Node(j) == n && l.Ep(j) == SYSTEM_ITF;
      var m :| 0 <= m < k && links[m] == l;
      assert SystemEnd(links[m], n);
      forall q | k <= q < |links|
        ensures !SystemEnd(links[q], n)
      {
        assert forall w :: links[q].Node(w) == n && links[q].Ep(w) == SYSTEM_ITF ==> q == m;
      }
      UnguardedSystem(x, links, n, k);
      GuardedSystem(x, links, n, m);
    }
  }

  lemma ItfLeavesSystem(x: Inputs, l: Link, i: bool, n: string)
    requires !SystemEnd(l, n)
    ensures SystemLoc(n) !in ItfTree(x, l, i)
  {
    if SystemLoc(n) in ItfTree(x, l, i) {
      ItfTreeEntries(x, l, i, SystemLoc(n));
    }
  }

  lemma UnguardedStep(x: Inputs, links: seq<Link>)
    requires links != [] && LinksOutcome(x, links).Ok?
    ensures var front, l, ns := links[..|links| - 1], links[|links| - 1], NodesOf(x, links);
            Merge(UnguardedLog(x, links)) ==
              Merge(UnguardedLog(x, front)) + BothTrees(x, ns, l) + ItfTree(x, l, false) + ItfTree(x, l, true)
  {
    var front, l, ns := links[..|links| - 1], links[|links| - 1], NodesOf(x, links);
    MergeFive(UnguardedLog(x, front), BaseLog(x, l.Node(false), ns[l.Node(false)]),
              BaseLog(x, l.Node(true), ns[l.Node(true)]), ItfLog(x, l, false), ItfLog(x, l, true));
  }

  lemma MergeFive(u: Log, a: Log, b: Log, c: Log, d: Log)
    ensures Merge(u + a + b + c + d) == Merge(u) + (Merge(a) + Merge(b)) + Merge(c) + Merge(d)
  {
    MergeAppend(u, a);
    MergeAppend(u + a, b);
    MergeAppend(u + a + b, c);
    MergeAppend(u + a + b + c, d);
    TreesAssociate(Merge(u), Merge(a), Merge(b));
  }

  // ---------------------------------------------------------------- referential integrity

  lemma {:induction false} LinksGrounded(x: Inputs, links: seq<Link>)
    requires LinksOutcome(x, links).Ok?
    ensures Grounded(LinkLog(x, links)) && GroupsExist(Merge(LinkLog(x, links)))
  {
    if links != [] {
      var front, l, ns := links[..|links| - 1], links[|links| - 1], NodesOf(x, links);
      LinksGrounded(x, front);
      var a, b := LinkLog(x, front), BaseOf(x, EndNodes(front), ns, l);
      BaseOfGrounded(x, EndNodes(front), ns, l);
      GroundedAppend(a, b);
      ItfGrounded(x, l, false);
      ItfGrounded(x, l, true);
      GroundedAppend(a + b, ItfLog(x, l, false));
      GroundedAppend(a + b + ItfLog(x, l, false), ItfLog(x, l, true));
      LinkLogStep(x, links);
      ItfGroups(x, l, false);
      ItfGroups(x, l, true);
      GroupsMerge(Merge(a), Merge(b));
      GroupsMerge(Merge(a) + Merge(b), ItfTree(x, l, false));
      GroupsMerge(Merge(a) + Merge(b) + ItfTree(x, l, false), ItfTree(x, l, true));
    } else {
      GroundedHead([]);
    }
  }

  lemma BaseOfGrounded(x: Inputs, done: set<string>, ns: Nodes, l: Link)
    requires l.Node(false) in ns && l.Node(true) in ns
    ensures Grounded(BaseOf(x, done, ns, l)) && GroupsExist(Merge(BaseOf(x, done, ns, l)))
  {
    var n, m := l.Node(false), l.Node(true);
    GroundedHead([]);
    BaseGrounded(x, n, ns[n]);
    BaseGrounded(x, m, ns[m]);
    GroundedAppend(if n in done then [] else BaseLog(x, n, ns[n]),
                   if m in done + {n} then [] else BaseLog(x, m, ns[m]));
    var b := Merge(BaseOf(x, done, ns, l));
    forall loc | loc in b
      ensures GroupsAt(b, loc)
    {
      BaseOfTree(x, done, ns, l, loc);
      BaseTreeEntries(x, loc.node, ns[loc.node], loc);
    }
  }

  /** Every neighbor patch of the log comes with its group's patch. */
  ghost predicate WithGroups(x: Inputs, log: Log) {
    forall p, loc :: p in log && loc in p ==>
      && Reference(loc.cell).None? && !loc.cell.InstanceVxlan? && !loc.cell.DynNeighbor?
      && (loc.cell.Neighbor? ==>
            p[loc].VNeighbor? && exists g :: g in log && Loc(loc.node, PeerGroup(loc.cell.ni, p[loc].group)) in g)
  }

  lemma WithGroupsSound(x: Inputs, log: Log)
    requires WithGroups(x, log)
    ensures Grounded(log) && GroupsExist(Merge(log))
  {
    GroundedHead(log);
    var t := Merge(log);
    forall loc | loc in t
      ensures GroupsAt(t, loc)
    {
      var i := LastWriter(log, loc);
      assert log[i] in log;
      if loc.cell.Neighbor? {
        var j := LastWriter(log, Loc(loc.node, PeerGroup(loc.cell.ni, t[loc].group)));
      }
    }
  }

  lemma EdgesWithGroups(x: Inputs, ns: Nodes, log: Log)
    requires forall p :: p in log <==> IsEdgePatch(x, ns, p)
    ensures WithGroups(x, log)
  {
    forall p, loc | p in log && loc in p
      ensures loc.cell.PeerGroup? || loc.cell.Neighbor?
      ensures loc.cell.Neighbor? ==>
                p[loc].VNeighbor? && exists g :: g in log && Loc(loc.node, PeerGroup(loc.cell.ni, p[loc].group)) in g
    {
      assert IsEdgePatch(x, ns, p);
      var n, r :| n in ns && ns[n].edge && r in Reflectors(x) &&
                  (p == EdgeGroup(x, n) || p == EdgeNeighbor(x, n, ns[n], Reflectors(x)[r]));
      var g := EdgeGroup(x, n);
      assert IsEdgePatch(x, ns, g);
      assert g in log && Loc(n, PeerGroup(x.Ni(), OVERLAY)) in g;
    }
  }

  lemma HostsWithGroups(x: Inputs, ns: Nodes, log: Log)
    requires forall p :: p in log <==> IsHostPatch(x, ns, p)
    ensures WithGroups(x, log)
  {
    forall p, loc | p in log && loc in p
      ensures loc.cell.PeerGroup? || loc.cell.Neighbor?
      ensures loc.cell.Neighbor? ==>
                p[loc].VNeighbor? && exists g :: g in log && Loc(loc.node, PeerGroup(loc.cell.ni, p[loc].group)) in g
    {
      assert IsHostPatch(x, ns, p);
      var n, r :| n in ns && r in Reflectors(x) && Hosts(x, n, r) && IsHostPatchOf(x, ns, n, r, p);
      var g := HostGroup(x, n, Reflectors(x)[r]);
      assert IsHostPatchOf(x, ns, n, r, g);
      assert IsHostPatch(x, ns, g);
      assert g in log && Loc(n, PeerGroup(x.Ni(), OVERLAY)) in g;
    }
  }

  /**
   Referential integrity: after every single Add* call of a successful build every reference in the tree
   resolves on the same device, and at the end every neighbor's peer group exists.
   */
  lemma UnderlayIntegrity(x: Inputs, links: seq<Link>, log: Log, e: Log, r: Log)
    requires UnderlayLog(x, links, log, e, r)
    ensures Grounded(log) && GroupsExist(Merge(log))
  {
    var a := LinkLog(x, links);
    LinksGrounded(x, links);
    EdgesWithGroups(x, NodesOf(x, links), e);
    HostsWithGroups(x, NodesOf(x, links), r);
    WithGroupsSound(x, e);
    WithGroupsSound(x, r);
    GroundedAppend(a, e);
    GroundedAppend(a + e, r);
    MergeAppend(a, e);
    MergeAppend(a + e, r);
    GroupsMerge(Merge(a), Merge(e));
    GroupsMerge(Merge(a) + Merge(e), Merge(r));
  }
}
