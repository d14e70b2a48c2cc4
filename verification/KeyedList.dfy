/**
 The keyed lists of apis/network/v1alpha1/device.go. Every GetOrCreate* method scans a slice of pointers for
 a key, and if it is absent appends a blank entry and re-sorts the slice. The slices differ only in their
 key: a name, an id, or a sub-interface name and id that are sorted by their printed form.
 */
module KeyedList {
  import opened Names

  datatype Key = ByName(name: string) | ById(id: nat) | BySub(ifName: string, num: nat)

  /** The comparison given to sort.SliceStable; keys of different kinds never share a list. */
  predicate Before(a: Key, b: Key) {
    match a
    case ByName(x) => !b.ByName? || Less(x, b.name)
    case ById(i) => b.BySub? || (b.ById? && i < b.id)
    case BySub(x, i) => b.BySub? && Less(Printed(x, i), Printed(b.ifName, b.num))
  }

  lemma BeforeIsTotal(a: Key, b: Key)
    ensures a == b || Before(a, b) || Before(b, a)
    ensures !Before(a, a)
    ensures Before(a, b) ==> !Before(b, a)
  {
    if a.ByName? {
      LessIsTotal(a.name, if b.ByName? then b.name else a.name);
    }
    if a.BySub? {
      LessIsTotal(Printed(a.ifName, a.num), Printed(a.ifName, a.num));
    }
    if a.BySub? && b.BySub? {
      LessIsTotal(Printed(a.ifName, a.num), Printed(b.ifName, b.num));
      if Printed(a.ifName, a.num) == Printed(b.ifName, b.num) {
        PrintedInjective(a.ifName, a.num, b.ifName, b.num);
      }
    }
  }

  lemma BeforeIsTransitive(a: Key, b: Key, c: Key)
    requires Before(a, b) && Before(b, c)
    ensures Before(a, c)
  {
    if a.ByName? && b.ByName? && c.ByName? {
      LessIsTransitive(a.name, b.name, c.name);
    }
    if a.BySub? && b.BySub? && c.BySub? {
      LessIsTransitive(Printed(a.ifName, a.num), Printed(b.ifName, b.num), Printed(c.ifName, c.num));
    }
  }

  predicate Ascending(ks: seq<Key>) {
    forall i, j :: 0 <= i < j < |ks| ==> Before(ks[i], ks[j])
  }

  /** A set of keys has one ascending listing. */
  lemma {:induction false} OneListing(a: seq<Key>, b: seq<Key>)
    requires Ascending(a) && Ascending(b)
    requires forall k :: k in a <==> k in b
    ensures a == b
  {
    assert a != [] ==> a[0] in b;
    assert b != [] ==> b[0] in a;
    if a != [] {
      assert a[0] in b && b[0] in a;
      var i :| 0 <= i < |b| && b[i] == a[0];
      var j :| 0 <= j < |a| && a[j] == b[0];
      BeforeIsTotal(a[0], b[0]);
      assert a[0] == b[0];
      forall k
        ensures k in a[1..] <==> k in b[1..]
      {
        BeforeIsTotal(a[0], a[0]);
        assert k in a <==> k == a[0] || k in a[1..];
        assert k in b <==> k == b[0] || k in b[1..];
      }
      OneListing(a[1..], b[1..]);
      assert a == [a[0]] + a[1..] && b == [b[0]] + b[1..];
    }
  }

  /** A list entry: what the source hands out as a pointer, so that later writes go through it. */
  class Entry<V> {
    const key: Key
    var val: V

    constructor (key: Key, val: V)
      ensures this.key == key && this.val == val
    {
      this.key, this.val := key, val;
    }
  }

  ghost function KeysOf<V>(es: seq<Entry<V>>): (ks: seq<Key>)
    ensures |ks| == |es| && forall i :: 0 <= i < |es| ==> ks[i] == es[i].key
  {
    seq(|es|, i requires 0 <= i < |es| => es[i].key)
  }

  ghost predicate NoDuplicates<T>(s: seq<T>) {
    forall i, j :: 0 <= i < j < |s| ==> s[i] != s[j]
  }

  lemma CountOne<T>(s: seq<T>, i: nat)
    requires NoDuplicates(s) && i < |s|
    ensures multiset(s)[s[i]] == 1
  {
    assert s == s[..i] + [s[i]] + s[i + 1..];
    assert s[i] !in s[..i] && s[i] !in s[i + 1..];
  }

  lemma PermutationKeepsDistinct<T>(s: seq<T>, r: seq<T>)
    requires NoDuplicates(s) && multiset(s) == multiset(r)
    ensures NoDuplicates(r) && (forall x :: x in s <==> x in r)
  {
    forall x
      ensures x in s <==> x in r
    {
      assert x in multiset(s) <==> x in multiset(r);
    }
    forall i, j | 0 <= i < j < |r|
      ensures r[i] != r[j]
    {
      if r[i] == r[j] {
        assert r == r[..j] + [r[j]] + r[j + 1..];
        assert r[i] in r[..j];
        assert r[i] in s;
        var k :| 0 <= k < |s| && s[k] == r[i];
        CountOne(s, k);
        assert false;
      }
    }
  }

  function Swapped<T>(s: seq<T>, j: nat): (r: seq<T>)
    requires 0 < j < |s|
    ensures |r| == |s| && r[j] == s[j - 1] && r[j - 1] == s[j]
    ensures forall k :: 0 <= k < |s| && k != j && k != j - 1 ==> r[k] == s[k]
  {
    s[j := s[j - 1]][j - 1 := s[j]]
  }

  lemma SwapPermutes<T>(s: seq<T>, j: nat)
    requires 0 < j < |s|
    ensures multiset(Swapped(s, j)) == multiset(s)
  {
  }

  /** The entries of one key, in their order. */
  ghost function OfKey<V>(s: seq<Entry<V>>, k: Key): seq<Entry<V>> {
    if s == [] then [] else OfKey(s[..|s| - 1], k) + if s[|s| - 1].key == k then [s[|s| - 1]] else []
  }

  lemma {:induction false} OfKeyAppend<V>(a: seq<Entry<V>>, b: seq<Entry<V>>, k: Key)
    ensures OfKey(a + b, k) == OfKey(a, k) + OfKey(b, k)
  {
    if b == [] {
      assert a + b == a;
    } else {
      assert (a + b)[..|a + b| - 1] == a + b[..|b| - 1];
      OfKeyAppend(a, b[..|b| - 1], k);
    }
  }

  lemma OfKeyFour<V>(a: seq<Entry<V>>, x: Entry<V>, y: Entry<V>, d: seq<Entry<V>>, k: Key)
    ensures OfKey(a + [x] + [y] + d, k) ==
            OfKey(a, k) + (if x.key == k then [x] else []) + (if y.key == k then [y] else []) + OfKey(d, k)
  {
    OfKeyAppend(a + [x] + [y], d, k);
    assert (a + [x] + [y])[..|a| + 1] == a + [x] && (a + [x])[..|a|] == a;
  }

  lemma SwapSplits<T>(s: seq<T>, j: nat)
    requires 0 < j < |s|
    ensures s == s[..j - 1] + [s[j - 1]] + [s[j]] + s[j + 1..]
    ensures Swapped(s, j) == s[..j - 1] + [s[j]] + [s[j - 1]] + s[j + 1..]
  {
  }

  /** Exchanging neighbors with different keys keeps the order of the entries of every key. */
  lemma SwapKeepsOrder<V>(s: seq<Entry<V>>, j: nat, k: Key)
    requires 0 < j < |s| && s[j].key != s[j - 1].key
    ensures OfKey(Swapped(s, j), k) == OfKey(s, k)
  {
    hide OfKey, Swapped;
    SwapSplits(s, j);
    OfKeyFour(s[..j - 1], s[j - 1], s[j], s[j + 1..], k);
    OfKeyFour(s[..j - 1], s[j], s[j - 1], s[j + 1..], k);
  }

  /** sort.SliceStable on a short slice: insertion by adjacent swaps. */
  method SortStable<V>(s: seq<Entry<V>>) returns (r: seq<Entry<V>>)
    ensures multiset(r) == multiset(s)
    ensures forall i, j :: 0 <= i < j < |r| ==> !Before(r[j].key, r[i].key)
    ensures forall k :: OfKey(r, k) == OfKey(s, k)
  {
    hide Before, Swapped, OfKey;
    r := s;
    var i := 0;
    while i < |r|
      invariant 0 <= i <= |r| == |s|
      invariant multiset(r) == multiset(s) && forall k :: OfKey(r, k) == OfKey(s, k)
      invariant forall p, q :: 0 <= p < q < i ==> !Before(r[q].key, r[p].key)
    {
      var j := i;
      while j > 0 && Before(r[j].key, r[j - 1].key)
        invariant 0 <= j <= i < |r| == |s|
        invariant multiset(r) == multiset(s) && forall k :: OfKey(r, k) == OfKey(s, k)
        invariant forall p, q :: 0 <= p < q <= i && q != j ==> !Before(r[q].key, r[p].key)
      {
        BeforeIsTotal(r[j].key, r[j - 1].key);
        SwapPermutes(r, j);
        forall k
          ensures OfKey(Swapped(r, j), k) == OfKey(s, k)
        {
          SwapKeepsOrder(r, j, k);
        }
        r := Swapped(r, j);
        j := j - 1;
      }
      forall p | 0 <= p < j
        ensures !Before(r[j].key, r[p].key)
      {
        if p < j - 1 && Before(r[j].key, r[p].key) {
          BeforeIsTotal(r[j - 1].key, r[j].key);
          BeforeIsTotal(r[j - 1].key, r[p].key);
          if Before(r[j - 1].key, r[j].key) {
            BeforeIsTransitive(r[j - 1].key, r[j].key, r[p].key);
          }
        }
      }
      i := i + 1;
    }
  }

  /** Sorting an ascending list with one new key appended gives an ascending list. */
  lemma SortedIn<V>(es: seq<Entry<V>>, e: Entry<V>, r: seq<Entry<V>>)
    requires Ascending(KeysOf(es)) && (forall x :: x in es ==> x.key != e.key)
    requires multiset(r) == multiset(es + [e])
    requires forall i, j :: 0 <= i < j < |r| ==> !Before(r[j].key, r[i].key)
    ensures Ascending(KeysOf(r)) && (forall x :: x in r <==> x in es || x == e)
  {
    DistinctKeys(es);
    PermutationKeepsDistinct(es + [e], r);
    forall p, q | 0 <= p < q < |r|
      ensures Before(r[p].key, r[q].key)
    {
      assert r[p] in r && r[q] in r;
      assert r[p].key != r[q].key;
      BeforeIsTotal(r[p].key, r[q].key);
    }
  }

  class Store<V> {
    var items: seq<Entry<V>>

    constructor ()
      ensures Valid() && items == []
    {
      items := [];
    }

    ghost predicate Valid()
      reads this
    {
      Ascending(KeysOf(items))
    }

    /** The map the list stands for. */
    ghost function Contents(): map<Key, V>
      requires Valid()
      reads this, items
    {
      DistinctKeys(items);
      map e | e in items :: e.key := e.val
    }

    /** Returns the entry of a key, the same object every time; a missing one is created and sorted in. */
    method GetOrCreate(key: Key, blank: V) returns (e: Entry<V>)
      requires Valid()
      modifies this
      ensures Valid()
      ensures e in items && e.key == key && (forall x :: x in items && x.key == key ==> x == e)
      ensures forall x :: x in items <==> x in old(items) || x == e
      ensures (exists x :: x in old(items) && x.key == key) ==> e in old(items) && items == old(items)
      ensures e !in old(items) ==> fresh(e) && e.val == blank
    {
      DistinctKeys(items);
      var i := 0;
      while i < |items|
        invariant 0 <= i <= |items|
        invariant forall j :: 0 <= j < i ==> items[j].key != key
      {
        if items[i].key == key {
          return items[i];
        }
        i := i + 1;
      }
      e := new Entry(key, blank);
      ghost var before := items;
      items := SortStable(items + [e]);
      SortedIn(before, e, items);
      DistinctKeys(items);
    }

    /** The AddOrUpdate* methods: get or create the entry, then overwrite its fields through the pointer. */
    method AddOrUpdate(key: Key, val: V)
      requires Valid()
      modifies this, items
      ensures Valid()
      ensures Contents() == old(Contents())[key := val]
      ensures forall x :: x in old(items) ==> x in items
    {
      var e := GetOrCreate(key, val);
      e.val := val;
    }
  }

  lemma DistinctKeys<V>(es: seq<Entry<V>>)
    requires Ascending(KeysOf(es))
    ensures forall x, y :: x in es && y in es && x.key == y.key ==> x == y
    ensures NoDuplicates(es)
  {
    forall i, j | 0 <= i < j < |es|
      ensures es[i].key != es[j].key
    {
      assert Before(KeysOf(es)[i], KeysOf(es)[j]);
      BeforeIsTotal(es[i].key, es[j].key);
    }
  }

  /** A list is the canonical listing of its map: equal maps mean equal lists, entry by entry. */
  lemma EqualViewsEqualLists<V>(a: Store<V>, b: Store<V>)
    requires a.Valid() && b.Valid() && a.Contents() == b.Contents()
    ensures |a.items| == |b.items|
    ensures forall i :: 0 <= i < |a.items| ==> a.items[i].key == b.items[i].key && a.items[i].val == b.items[i].val
  {
    var x, y := KeysOf(a.items), KeysOf(b.items);
    forall k
      ensures k in x <==> k in y
    {
      assert k in x <==> k in a.Contents();
      assert k in y <==> k in b.Contents();
    }
    OneListing(x, y);
    forall i | 0 <= i < |a.items|
      ensures a.items[i].val == b.items[i].val
    {
      DistinctKeys(a.items);
      DistinctKeys(b.items);
      assert a.items[i] in a.items && b.items[i] in b.items;
      assert a.Contents()[x[i]] == a.items[i].val;
      assert b.Contents()[y[i]] == b.items[i].val;
    }
  }

  /** The order of a list, key by key: names as strings, ids as numbers, sub-interfaces as the strings "name.id". */
  lemma ListOrder<V>(s: Store<V>, i: nat, j: nat)
    requires s.Valid() && i < j < |s.items|
    ensures var a, b := s.items[i].key, s.items[j].key;
            && (a.ById? && b.ById? ==> a.id < b.id)
            && (a.ByName? && b.ByName? ==> Less(a.name, b.name))
            && (a.BySub? && b.BySub? ==> Less(a.ifName + "." + Decimal(a.num), b.ifName + "." + Decimal(b.num)))
  {
    assert Before(KeysOf(s.items)[i], KeysOf(s.items)[j]);
  }
}
