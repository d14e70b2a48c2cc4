/** GetLinks of pkg/devbuilder/api.go and pkg/reconcilers/networkparams/reconciler.go, and what it lets in. */
module Inventory {
  import opened Options
  import opened Names
  import opened Design
  import opened Underlay
  import opened UnderlayLayers
  import opened UnderlayFailures
  import opened Claims

  /** A link of the namespace: its type label, and the node group of either end beside the link itself. */
  datatype InventoryLink = InventoryLink(linkType: Option<string>, groupA: string, groupB: string, link: Link) {
    function Group(i: bool): string {
      if i then groupB else groupA
    }

    predicate Infra() {
      linkType == Some("infra")
    }

    predicate Within(topology: string) {
      groupA == topology && groupB == topology
    }
  }

  function InfraLinks(items: seq<InventoryLink>): seq<Link> {
    if items == [] then []
    else InfraLinks(items[..|items| - 1]) + if items[|items| - 1].Infra() then [items[|items| - 1].link] else []
  }

  /** The infra links with both ends in the topology. */
  function TopologyLinks(topology: string, items: seq<InventoryLink>): seq<Link> {
    if items == [] then []
    else
      var item := items[|items| - 1];
      TopologyLinks(topology, items[..|items| - 1]) + if item.Infra() && item.Within(topology) then [item.link] else []
  }

  /** The `continue` for an end of another node group belongs to the loop over the ends. */
  method GetLinks(topology: string, items: seq<InventoryLink>) returns (links: seq<Link>)
    ensures links == InfraLinks(items)
  {
    links := [];
    for k := 0 to |items|
      invariant links == InfraLinks(items[..k])
    {
      assert items[..k + 1][..k] == items[..k];
      var item := items[k];
      if item.linkType.None? {
        continue;
      }
      if item.linkType.value != "infra" {
        continue;
      }
      for i := 0 to 2 {
        if item.Group(i == 1) != topology {
          continue;
        }
      }
      links := links + [item.link];
    }
    assert items[..|items|] == items;
  }

  /** All infra links of the namespace, and only those. */
  lemma {:induction false} InfraLinksExact(items: seq<InventoryLink>, l: Link)
    ensures l in InfraLinks(items) <==> exists item :: item in items && item.linkType == Some("infra") && item.link == l
  {
    if items != [] {
      FrontAndLast(items);
      InfraLinksExact(items[..|items| - 1], l);
    }
  }

  lemma {:induction false} NoMoreThanInfra(topology: string, items: seq<InventoryLink>)
    ensures |TopologyLinks(topology, items)| <= |InfraLinks(items)|
  {
    if items != [] {
      NoMoreThanInfra(topology, items[..|items| - 1]);
    }
  }

  /** The list is the topology's own links if and only if no infra link of the namespace has an end elsewhere. */
  lemma {:induction false} OwnLinksExactly(topology: string, items: seq<InventoryLink>)
    ensures InfraLinks(items) == TopologyLinks(topology, items) <==>
              forall item :: item in items && item.linkType == Some("infra") ==>
                               item.groupA == topology && item.groupB == topology
  {
    if items != [] {
      var front, item := items[..|items| - 1], items[|items| - 1];
      FrontAndLast(items);
      OwnLinksExactly(topology, front);
      NoMoreThanInfra(topology, front);
      var a, b := InfraLinks(front), TopologyLinks(topology, front);
      assert forall other :: other in items <==> other in front || other == item;
      SameFront(a, b, item.link);
      if item.Infra() && !item.Within(topology) {
        assert |InfraLinks(items)| == |a| + 1 && TopologyLinks(topology, items) == b;
      } else if item.Infra() {
        assert InfraLinks(items) == a + [item.link] && TopologyLinks(topology, items) == b + [item.link];
      } else {
        assert InfraLinks(items) == a && TopologyLinks(topology, items) == b;
      }
    }
  }

  lemma SameFront<T>(a: seq<T>, b: seq<T>, last: T)
    ensures a + [last] == b + [last] <==> a == b
  {
    if a + [last] == b + [last] {
      assert a == (a + [last])[..|a|] && b == (b + [last])[..|b|];
    }
  }

  // ---------------------------------------------------------------- an end of another topology

  /** The end's identifier names a node of this topology, whatever group the end itself is in. */
  predicate EndFound(x: Inputs, l: Link, i: bool) {
    Dotted(x.topology, l.E(i).id.kuid) in x.api.nodes
  }

  /** The nodes of this topology that link ends name are in its node list and fully described. */
  ghost predicate NodesDescribed(x: Inputs, nodes: seq<string>, links: seq<Link>) {
    forall l, i :: l in links && EndFound(x, l, i) ==> EndDescribed(x, nodes, l, i)
  }

  lemma FoundEndsBuild(x: Inputs, nodes: seq<string>, links: seq<Link>, l: Link)
    requires Served(x, Applied(x.design, x.netName, nodes, links)) && NodesDescribed(x, nodes, links)
    requires (x.design.ebgp.Some? ==> HasAsPool(x.design)) && TimersSet(x, links) && l in links
    ensures LinkBuildable(x, l) <==> EndFound(x, l, false) && EndFound(x, l, true)
    ensures !LinkBuildable(x, l) ==> !EndsGather(x, l)
  {
    hide Served, Applied, EndDescribed, Dotted;
    if EndFound(x, l, false) && EndFound(x, l, true) {
      EndComplete(x, nodes, links, l, false);
      EndComplete(x, nodes, links, l, true);
    }
  }

  /**
   For a fully described topology with served claims, the loop over the links ends with an error if and only if some
   infra link of the namespace, of whatever topology, has an end whose identifier is not a node of this one.
   */
  lemma ForeignEndsFail(x: Inputs, nodes: seq<string>, items: seq<InventoryLink>)
    requires var links := InfraLinks(items);
             && Served(x, Applied(x.design, x.netName, nodes, links)) && NodesDescribed(x, nodes, links)
             && (x.design.ebgp.Some? ==> HasAsPool(x.design)) && TimersSet(x, links) && NamesDistinct(links)
    ensures LinksOutcome(x, InfraLinks(items)) ==
            if forall item, i :: item in items && item.linkType == Some("infra") ==> EndFound(x, item.link, i) then Ok
            else Err
  {
    hide LinksOutcome, Served, Applied, NodesDescribed, TimersSet, EndFound, LinkBuildable, EndsGather;
    var links := InfraLinks(items);
    forall l
      ensures l in links <==> exists item :: item in items && item.Infra() && item.link == l
      ensures l in links ==> (LinkBuildable(x, l) <==> EndFound(x, l, false) && EndFound(x, l, true))
      ensures l in links && !LinkBuildable(x, l) ==> !EndsGather(x, l)
    {
      InfraLinksExact(items, l);
      if l in links {
        FoundEndsBuild(x, nodes, links, l);
      }
    }
    OutcomeByLink(x, links);
    OutcomeExactly(x, links);
    if !LinksOutcome(x, links).Ok? {
      var l :| l in links && !LinkBuildable(x, l);
      var item :| item in items && item.Infra() && item.link == l;
      assert !EndFound(x, item.link, false) || !EndFound(x, item.link, true);
    } else {
      forall item, i | item in items && item.Infra()
        ensures EndFound(x, item.link, i)
      {
        assert item.link in links;
      }
    }
  }
}
