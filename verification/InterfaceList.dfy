/**
 The one list of a device that is not sorted: a network instance's interfaces
 (AddNetworkInstanceSubInterface of pkg/devbuilder/devices.go).
 */
module InterfaceList {
  import opened ConfigTree

  /** The list after one call: an equal entry is replaced where it stands, any other is appended. */
  function Added(items: seq<Sub>, s: Sub): seq<Sub> {
    if s in items then items else items + [s]
  }

  function AddedAll(calls: seq<Sub>): seq<Sub> {
    if calls == [] then [] else Added(AddedAll(calls[..|calls| - 1]), calls[|calls| - 1])
  }

  predicate Distinct(s: seq<Sub>) {
    forall i, j :: 0 <= i < j < |s| ==> s[i] != s[j]
  }

  /** As a set the list does not depend on the order of the calls, and no entry is listed twice. */
  lemma {:induction false} AddedAllExact(calls: seq<Sub>, s: Sub)
    ensures s in AddedAll(calls) <==> s in calls
    ensures Distinct(AddedAll(calls))
  {
    if calls != [] {
      var front, last := calls[..|calls| - 1], calls[|calls| - 1];
      assert calls == front + [last];
      AddedAllExact(front, s);
    }
  }

  lemma {:induction false} AddedInOrder(calls: seq<Sub>)
    requires Distinct(calls)
    ensures AddedAll(calls) == calls
  {
    if calls != [] {
      var front := calls[..|calls| - 1];
      assert calls == front + [calls[|calls| - 1]];
      AddedInOrder(front);
    }
  }

  /** As a list it is order dependent: distinct entries stay in exactly the order of the calls. */
  lemma ListShowsCallOrder(calls: seq<Sub>, others: seq<Sub>)
    requires Distinct(calls) && Distinct(others)
    ensures AddedAll(calls) == AddedAll(others) <==> calls == others
  {
    AddedInOrder(calls);
    AddedInOrder(others);
  }

  class Interfaces {
    var items: seq<Sub>

    constructor ()
      ensures items == []
    {
      items := [];
    }

    method Add(s: Sub)
      modifies this
      ensures items == Added(old(items), s)
    {
      for i := 0 to |items|
        invariant items == old(items) && s !in items[..i]
      {
        if items[i] == s {
          items := items[i := s];
          return;
        }
        assert items[..i + 1] == items[..i] + [items[i]];
      }
      assert items[..|items|] == items;
      items := items + [s];
    }
  }
}
