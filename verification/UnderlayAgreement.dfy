/** What else the two ends of a link have to agree on in the final tree: IGP adjacencies and BFD entries. */
module UnderlayAgreement {
  import opened Options
  import opened ConfigTree
  import opened Design
  import opened Underlay
  import opened UnderlayEntries
  import opened UnderlayLayers
  import opened UnderlayOrder
  import opened UnderlaySessions

  /** An entry that names a link end's sub-interface is written by that link end alone. */
  lemma EndDecides(x: Inputs, links: seq<Link>, log: Log, e: Log, r: Log, l: Link, i: bool, loc: Loc)
    requires UnderlayLog(x, links, log, e, r) && EndpointsDistinct(links) && l in links
    requires loc in ItfTree(x, l, i) && Reference(loc.cell) == Some(EpSub(l, i))
    ensures loc in Merge(log) && Merge(log)[loc] == ItfTree(x, l, i)[loc]
  {
    hide Merge, ItfTree, LinkLog, NodesOf, LinksOutcome, IsEdgePatch, IsHostPatch;
    MeshMissesOthers(x, links, log, e, r, loc);
    LinksDecide(x, links, log, e, r, loc);
    LinkTreeLayered(x, links, loc);
    assert Touched(x, links, loc);
    var m, j :| m in links && loc in ItfTree(x, m, j) && ItfTree(x, m, j)[loc] == Merge(log)[loc];
    ItfTreeEntries(x, l, i, loc);
    ItfTreeEntries(x, m, j, loc);
    assert l.Node(i) == m.Node(j) && l.Ep(i) == m.Ep(j);
  }

  function OspfLoc(x: Inputs, o: OspfDesign, l: Link, i: bool): Loc {
    Loc(l.Node(i), OspfItf(x.Ni(), OspfInstance(o), OspfAreaOf(o, l), EpSub(l, i)))
  }

  function IsisLoc(x: Inputs, o: IsisDesign, l: Link, i: bool): Loc {
    Loc(l.Node(i), IsisItf(x.Ni(), IsisInstance(o), EpSub(l, i)))
  }

  /** What the sections of a link end's log write at a location, if they all write `v` there. */
  lemma EndValue(x: Inputs, l: Link, i: bool, loc: Loc, v: Val)
    requires forall p :: p in ItfLog(x, l, i) && loc in p ==> p[loc] == v
    requires exists p :: p in ItfProtocols(x, l, i) && loc in p
    ensures loc in ItfTree(x, l, i) && ItfTree(x, l, i)[loc] == v
  {
    hide Merge, ItfCore, ItfProtocols;
    var p :| p in ItfProtocols(x, l, i) && loc in p;
    assert p in ItfLog(x, l, i);
    SettledValue(ItfLog(x, l, i), loc, v);
  }

  lemma OthersMissIgp(x: Inputs, l: Link, i: bool, loc: Loc)
    requires loc.cell.OspfItf? || loc.cell.IsisItf?
    ensures forall p :: p in ItfCore(x, l, i) || p in ItfBfd(x, l, i) || p in ItfEbgp(x, l, i) ==> loc !in p
    ensures loc.cell.OspfItf? ==> forall p :: p in ItfIsis(x, l, i) ==> loc !in p
    ensures loc.cell.IsisItf? ==> forall p :: p in ItfOspf(x, l, i) ==> loc !in p
  {
    hide UnderlaySub;
  }

  lemma OspfOfEnd(x: Inputs, l: Link, i: bool, o: OspfDesign)
    requires x.design.ospf == Some(o)
    ensures OspfLoc(x, o, l, i) in ItfTree(x, l, i) && ItfTree(x, l, i)[OspfLoc(x, o, l, i)] == OspfValue(o, l)
  {
    hide ItfCore, ItfBfd, ItfIsis, ItfEbgp, OspfValue, Merge;
    var loc := OspfLoc(x, o, l, i);
    OthersMissIgp(x, l, i, loc);
    assert ItfOspf(x, l, i)[1] in ItfOspf(x, l, i) && loc in ItfOspf(x, l, i)[1];
    EndValue(x, l, i, loc, OspfValue(o, l));
  }

  lemma IsisOfEnd(x: Inputs, l: Link, i: bool, o: IsisDesign)
    requires x.design.isis == Some(o)
    ensures IsisLoc(x, o, l, i) in ItfTree(x, l, i) &&
            ItfTree(x, l, i)[IsisLoc(x, o, l, i)] == WithoutLevels(IsisValue(x, o, l))
  {
    hide ItfCore, ItfBfd, ItfOspf, ItfEbgp, IsisValue, Merge;
    var loc := IsisLoc(x, o, l, i);
    OthersMissIgp(x, l, i, loc);
    assert ItfIsis(x, l, i)[0] in ItfIsis(x, l, i) && loc in ItfIsis(x, l, i)[0];
    EndValue(x, l, i, loc, WithoutLevels(IsisValue(x, o, l)));
  }

  /**
   IGP adjacencies: both ends of every link run the protocol in the same instance, OSPF in the same area, with
   the same network type, passive flag and BFD flags; no later link has overwritten either end.
   */
  lemma IgpEndsAgree(x: Inputs, links: seq<Link>, log: Log, e: Log, r: Log, l: Link)
    requires UnderlayLog(x, links, log, e, r) && EndpointsDistinct(links) && l in links
    ensures forall o, i :: x.design.ospf == Some(o) ==>
              OspfLoc(x, o, l, i) in Merge(log) && Merge(log)[OspfLoc(x, o, l, i)] == OspfValue(o, l)
    ensures forall o, i :: x.design.isis == Some(o) ==>
              IsisLoc(x, o, l, i) in Merge(log) && Merge(log)[IsisLoc(x, o, l, i)] == WithoutLevels(IsisValue(x, o, l))
  {
    hide UnderlayLog, ItfTree, Merge, OspfValue, IsisValue, EndpointsDistinct;
    forall o, i | x.design.ospf == Some(o)
      ensures OspfLoc(x, o, l, i) in Merge(log) && Merge(log)[OspfLoc(x, o, l, i)] == OspfValue(o, l)
    {
      OspfOfEnd(x, l, i, o);
      EndDecides(x, links, log, e, r, l, i, OspfLoc(x, o, l, i));
    }
    forall o, i | x.design.isis == Some(o)
      ensures IsisLoc(x, o, l, i) in Merge(log) && Merge(log)[IsisLoc(x, o, l, i)] == WithoutLevels(IsisValue(x, o, l))
    {
      IsisOfEnd(x, l, i, o);
      EndDecides(x, links, log, e, r, l, i, IsisLoc(x, o, l, i));
    }
  }

  /** The design runs levels for which the link has a metric or which it excludes. */
  predicate HasLevels(o: IsisDesign, l: Link) {
    || ((o.level == "L1" || o.level == "L1L2") && (l.protocols.isisLevel == "L2" || l.protocols.isisMetric != 0))
    || ((o.level == "L2" || o.level == "L1L2") && (l.protocols.isisLevel == "L1" || l.protocols.isisMetric != 0))
  }

  /**
   The IS-IS entry of a link end is what getISISInterface computed for it if and only if there is nothing to set per
   level: the levels that it computes reach no entry.
   */
  lemma LevelsAreDropped(x: Inputs, links: seq<Link>, log: Log, e: Log, r: Log, l: Link, i: bool, o: IsisDesign)
    requires UnderlayLog(x, links, log, e, r) && EndpointsDistinct(links) && l in links && x.design.isis == Some(o)
    ensures var loc := IsisLoc(x, o, l, i);
            && loc in Merge(log) && Merge(log)[loc].VIsisItf?
            && Merge(log)[loc].level1 == None && Merge(log)[loc].level2 == None
            && (Merge(log)[loc] == IsisValue(x, o, l) <==> !HasLevels(o, l))
  {
    hide UnderlayLog, Merge;
    IgpEndsAgree(x, links, log, e, r, l);
    assert Merge(log)[IsisLoc(x, o, l, i)] == WithoutLevels(IsisValue(x, o, l));
  }

  // ---------------------------------------------------------------- BFD entries

  /** A sub-interface has a BFD entry exactly when a link with BFD switched on ends there. */
  lemma BfdEntriesExact(x: Inputs, links: seq<Link>, log: Log, e: Log, r: Log, n: string, sub: Sub)
    requires UnderlayLog(x, links, log, e, r)
    ensures Loc(n, Bfd(sub)) in Merge(log) <==>
              exists l, i :: l in links && BfdOn(x, l) && l.Node(i) == n && EpSub(l, i) == sub && sub.ifName != ""
  {
    hide Merge, LinkLog, LinksOutcome, IsEdgePatch, IsHostPatch, BaseTree, NodesOf;
    var loc := Loc(n, Bfd(sub));
    MeshMissesOthers(x, links, log, e, r, loc);
    LinksDecide(x, links, log, e, r, loc);
    LinkTreeLayered(x, links, loc);
    if loc in Merge(log) && !Touched(x, links, loc) {
      BaseTreeEntries(x, n, NodesOf(x, links)[n], loc);
      assert false;
    }
    forall l, i | l in links
      ensures loc in ItfTree(x, l, i) <==> BfdOn(x, l) && l.Node(i) == n && EpSub(l, i) == sub && sub.ifName != ""
    {
      BfdOfEnd(x, l, i, loc);
    }
  }

  lemma BfdOfEnd(x: Inputs, l: Link, i: bool, loc: Loc)
    requires loc.cell.Bfd?
    ensures loc in ItfTree(x, l, i) <==> BfdOn(x, l) && loc == Loc(l.Node(i), Bfd(EpSub(l, i))) && l.Ep(i) != ""
  {
    hide Merge, UnderlaySub;
    var log := ItfLog(x, l, i);
    var k := LastWriter(log, loc);
    OthersMissBfd(x, l, i, loc);
    assert forall p :: p in log ==>
             p in ItfCore(x, l, i) || p in ItfBfd(x, l, i) || p in ItfOspf(x, l, i) || p in ItfIsis(x, l, i) ||
               p in ItfEbgp(x, l, i);
    if BfdOn(x, l) && loc == Loc(l.Node(i), Bfd(EpSub(l, i))) && l.Ep(i) != "" {
      assert ItfBfd(x, l, i)[0] in log && loc in ItfBfd(x, l, i)[0];
    }
  }

  lemma OthersMissBfd(x: Inputs, l: Link, i: bool, loc: Loc)
    requires loc.cell.Bfd?
    ensures forall p :: p in ItfCore(x, l, i) || p in ItfOspf(x, l, i) ==> loc !in p
    ensures forall p :: p in ItfIsis(x, l, i) || p in ItfEbgp(x, l, i) ==> loc !in p
  {
    hide UnderlaySub, OspfValue, IsisValue;
  }
}
