/**
 The BFD parameters on the heap (getBFDLinkParameters of pkg/devbuilder/link.go): the design's record is
 returned by reference and written through, and every interface entry copies its pointers.
 */
module BfdCells {
  import opened Options
  import opened ConfigTree
  import opened Design
  import opened Underlay

  class Cell {
    var v: nat
    constructor (v: nat)
      ensures this.v == v
    {
      this.v := v;
    }
  }

  class Flag {
    var on: bool
    constructor (on: bool)
      ensures this.on == on
    {
      this.on := on;
    }
  }

  /** The five timer pointers of BFDLinkParameters; nil is null. */
  datatype Pointers = Pointers(minEchoRx: Cell?, minRx: Cell?, minTx: Cell?, multiplier: Cell?, ttl: Cell?)

  const NIL := Pointers(null, null, null, null, null)

  function CellsOf(p: Pointers): set<Cell> {
    (if p.minEchoRx != null then {p.minEchoRx} else {}) + (if p.minRx != null then {p.minRx} else {})
    + (if p.minTx != null then {p.minTx} else {}) + (if p.multiplier != null then {p.multiplier} else {})
    + (if p.ttl != null then {p.ttl} else {})
  }

  predicate Differ(a: Cell?, b: Cell?) {
    a == null || a != b
  }

  /** No two of the pointers are the same cell. */
  predicate Apart(p: Pointers) {
    && Differ(p.minEchoRx, p.minRx) && Differ(p.minEchoRx, p.minTx) && Differ(p.minEchoRx, p.multiplier) &&
       Differ(p.minEchoRx, p.ttl)
    && Differ(p.minRx, p.minTx) && Differ(p.minRx, p.multiplier) && Differ(p.minRx, p.ttl)
    && Differ(p.minTx, p.multiplier) && Differ(p.minTx, p.ttl)
    && Differ(p.multiplier, p.ttl)
  }

  function ReadCell(c: Cell?): Option<nat>
    reads c
  {
    if c == null then None else Some(c.v)
  }

  function Read(p: Pointers): Timers
    reads p.minEchoRx, p.minRx, p.minTx, p.multiplier, p.ttl
  {
    Timers(ReadCell(p.minEchoRx), ReadCell(p.minRx), ReadCell(p.minTx), ReadCell(p.multiplier), ReadCell(p.ttl))
  }

  /** `*cell = value` when the link overrides the timer; a nil cell is dereferenced. */
  method Override(c: Cell?, o: Option<nat>) returns (ok: bool)
    modifies c
    ensures ok <==> (o.Some? ==> c != null)
    ensures ok && o.Some? ==> c.v == o.value
    ensures c != null && o.None? ==> c.v == old(c.v)
  {
    if o.Some? {
      if c == null {
        return false;
      }
      c.v := o.value;
    }
    return true;
  }

  method OverrideAll(p: Pointers, o: Timers) returns (ok: bool)
    requires Apart(p)
    modifies CellsOf(p)
    ensures ok <==> Overridable(old(Read(p)), o)
    ensures ok ==> Read(p) == Overridden(old(Read(p)), o)
  {
    ok := Override(p.minEchoRx, o.minEchoRx);
    if !ok { return; }
    ok := Override(p.minRx, o.minRx);
    if !ok { return; }
    ok := Override(p.minTx, o.minTx);
    if !ok { return; }
    ok := Override(p.multiplier, o.multiplier);
    if !ok { return; }
    ok := Override(p.ttl, o.ttl);
  }

  lemma NoOverride(t: Timers)
    ensures Overridable(t, NO_TIMERS) && Overridden(t, NO_TIMERS) == t
  {
  }

  /** BFDLinkParameters. */
  class Record {
    var enabled: Flag?
    const cells: Pointers
    constructor (cells: Pointers)
      ensures enabled == null && this.cells == cells
    {
      this.enabled, this.cells := null, cells;
    }
  }

  /** An interface's own copy of the record: its pointers, not what they point to. */
  datatype Entry = Entry(enabled: Flag, cells: Pointers)

  function BfdLoc(l: Link, i: bool): Loc {
    Loc(l.Node(i), Bfd(EpSub(l, i)))
  }

  ghost predicate HasBfd(x: Inputs, links: seq<Link>, loc: Loc) {
    exists l, i :: l in links && BfdOn(x, l) && l.Ep(i) != "" && loc == BfdLoc(l, i)
  }

  class BfdTable {
    const x: Inputs
    /** The design's record; nil when the design has none. */
    const own: Record?
    var entries: map<Loc, Entry>

    constructor (x: Inputs, own: Record?)
      requires own != null ==> Apart(own.cells)
      ensures this.x == x && this.own == own && entries == map[] && Valid()
    {
      this.x, this.own, entries := x, own, map[];
    }

    function Shared(): Pointers {
      if own == null then NIL else own.cells
    }

    function Current(): Timers
      reads Shared().minEchoRx, Shared().minRx, Shared().minTx, Shared().multiplier, Shared().ttl
    {
      Read(Shared())
    }

    /** Every entry has an enabled flag of its own, set, and shares the design's timer cells. */
    ghost predicate Valid()
      reads this, set e | e in entries.Values :: e.enabled
    {
      && Apart(Shared())
      && (forall loc :: loc in entries ==> entries[loc].enabled.on && entries[loc].cells == Shared())
      && (forall a, b :: a in entries && b in entries && a != b ==> entries[a].enabled != entries[b].enabled)
    }

    /** GetUnderlayBFDParameters. */
    method GetUnderlayBfdParameters() returns (r: Record)
      ensures if own != null then r == own else fresh(r) && r.cells == NIL
      ensures r.cells == Shared()
    {
      if own != null {
        return own;
      }
      r := new Record(NIL);
    }

    method GetBfdLinkParameters(l: Link) returns (ok: bool, r: Record, flag: Flag)
      requires Apart(Shared())
      modifies CellsOf(Shared()), if own == null then {} else {own}
      ensures fresh(flag) && r.enabled == flag && r.cells == Shared()
      ensures ok <==> Overridable(old(Current()), LinkTimers(l))
      ensures ok ==> Current() == Overridden(old(Current()), LinkTimers(l))
      ensures flag.on == (l.protocols.bfd.None? || l.protocols.bfd.value.enabled.GetOr(true))
    {
      hide Overridable, Overridden, Apart, CellsOf;
      NoOverride(Current());
      r := GetUnderlayBfdParameters();
      flag := new Flag(true);
      r.enabled := flag;
      ok := true;
      if l.protocols.bfd.Some? {
        if l.protocols.bfd.value.enabled.Some? {
          r.enabled.on := l.protocols.bfd.value.enabled.value;
        }
        ok := OverrideAll(r.cells, l.protocols.bfd.value.timers);
      }
    }

    method AddBfdEnd(l: Link, i: bool) returns (ok: bool)
      requires Valid() && x.design.BfdEnabled()
      modifies CellsOf(Shared()), this, if own == null then {} else {own}
      ensures ok <==> Overridable(old(Current()), LinkTimers(l))
      ensures ok ==> Valid() && Current() == Overridden(old(Current()), LinkTimers(l))
      ensures ok ==> entries.Keys == old(entries.Keys) + if BfdOn(x, l) && l.Ep(i) != "" then {BfdLoc(l, i)} else {}
    {
      hide Overridable, Overridden, Apart, CellsOf, Read;
      var r, flag;
      ok, r, flag := GetBfdLinkParameters(l);
      if ok && r.enabled != null && r.enabled.on && l.Ep(i) != "" {
        entries := entries[BfdLoc(l, i) := Entry(flag, r.cells)];
      }
    }

    method AddLink(l: Link) returns (ok: bool)
      requires Valid() && x.design.BfdEnabled()
      modifies CellsOf(Shared()), this, if own == null then {} else {own}
      ensures ok <==> Overridable(old(Current()), LinkTimers(l))
      ensures ok ==> Valid() && Current() == Overridden(old(Current()), LinkTimers(l))
      ensures ok ==> forall loc :: loc in entries <==> loc in old(entries) || HasBfd(x, [l], loc)
    {
      hide Valid, CellsOf, Read, Overridable, Overridden;
      OverrideAgain(Current(), LinkTimers(l));
      ok := AddBfdEnd(l, false);
      if ok {
        ok := AddBfdEnd(l, true);
      }
    }

    /**
     All links in turn. Afterwards every entry reads the same timers, each as the last link to override it left
     it in the design's cells, while each has kept the enabled flag its own link gave it; so the entries read
     what their own links meant if and only if the links have one meaning.
     */
    method AddLinks(links: seq<Link>) returns (ok: bool)
      requires Valid() && x.design.BfdEnabled() && entries == map[] && Current() == x.design.BfdTimers()
      modifies CellsOf(Shared()), this, if own == null then {} else {own}
      ensures ok <==> forall l :: l in links ==> Overridable(x.design.BfdTimers(), LinkTimers(l))
      ensures ok ==> Valid() && forall loc :: loc in entries <==> HasBfd(x, links, loc)
      ensures ok ==> forall loc ::
                loc in entries ==> entries[loc].enabled.on && Read(entries[loc].cells) == TimersOf(x, links)
      ensures ok ==> forall loc, f: Which ::
                loc in entries ==> LastGiven(x, links, f, Field(Read(entries[loc].cells), f))
      ensures ok ==>
                ((forall l, i :: HasEntry(x, links, l, i) ==>
                  BfdLoc(l, i) in entries && Read(entries[BfdLoc(l, i)].cells) == Meant(x, l))
                 <==> OneMeaning(x, links))
    {
      hide Overridable, Overridden, Apart, LastGiven, OneMeaning, Meant, Field;
      for k := 0 to |links|
        invariant Valid() && Current() == TimersOf(x, links[..k])
        invariant forall l :: l in links[..k] ==> Overridable(x.design.BfdTimers(), LinkTimers(l))
        invariant forall loc :: loc in entries <==> HasBfd(x, links[..k], loc)
      {
        hide Valid, HasBfd;
        TimersStayOverridable(x, links[..k], LinkTimers(links[k]));
        ok := AddLink(links[k]);
        if !ok {
          return;
        }
        assert links[..k + 1][..k] == links[..k] && links[..k + 1] == links[..k] + [links[k]];
        forall loc
          ensures HasBfd(x, links[..k + 1], loc) <==> HasBfd(x, links[..k], loc) || HasBfd(x, [links[k]], loc)
        {
          HasBfdAppend(x, links[..k], links[k], loc);
        }
      }
      assert links[..|links|] == links;
      LeftInTheCells(x, links);
      ok := true;
    }
  }

  lemma LeftInTheCells(x: Inputs, links: seq<Link>)
    requires x.design.BfdEnabled()
    ensures forall f: Which :: LastGiven(x, links, f, Field(TimersOf(x, links), f))
    ensures (forall l, i :: HasEntry(x, links, l, i) ==> HasBfd(x, links, BfdLoc(l, i)))
    ensures (forall l, i :: HasEntry(x, links, l, i) ==> TimersOf(x, links) == Meant(x, l)) <==> OneMeaning(x, links)
  {
    hide LastGiven, OneMeaning, Meant, Field, TimersOf;
    forall f: Which
      ensures LastGiven(x, links, f, Field(TimersOf(x, links), f))
    {
      TimersAreLastOverrides(x, links, f, Field(TimersOf(x, links), f));
    }
    IsolatedExactly(x, links);
  }

  lemma HasBfdAppend(x: Inputs, links: seq<Link>, l: Link, loc: Loc)
    ensures HasBfd(x, links + [l], loc) <==> HasBfd(x, links, loc) || HasBfd(x, [l], loc)
  {
    if HasBfd(x, links, loc) {
      var m, i :| m in links && BfdOn(x, m) && m.Ep(i) != "" && loc == BfdLoc(m, i);
      assert m in links + [l];
    }
    if HasBfd(x, [l], loc) {
      var m, i :| m in [l] && BfdOn(x, m) && m.Ep(i) != "" && loc == BfdLoc(m, i);
      assert m in links + [l];
    }
  }

  // ---------------------------------------------------------------- what the shared cells hold

  type Which = f: nat | f < 5

  /** The five timers, by number. */
  function Field(t: Timers, f: Which): Option<nat> {
    if f == 0 then t.minEchoRx else if f == 1 then t.minRx else if f == 2 then t.minTx
    else if f == 3 then t.multiplier else t.ttl
  }

  lemma SameFields(t: Timers, u: Timers)
    requires forall f: Which :: Field(t, f) == Field(u, f)
    ensures t == u
  {
    assert Field(t, 0) == Field(u, 0) && Field(t, 1) == Field(u, 1) && Field(t, 2) == Field(u, 2);
    assert Field(t, 3) == Field(u, 3) && Field(t, 4) == Field(u, 4);
  }

  function Overrides(l: Link, f: Which): Option<nat> {
    Field(LinkTimers(l), f)
  }

  /** A link overrides a timer with the value that its BFD section gives it, and an interface is meant to have that. */
  lemma MeantExactly(x: Inputs, l: Link, f: Which)
    ensures Overrides(l, f) == if l.protocols.bfd.Some? then Field(l.protocols.bfd.value.timers, f) else None
    ensures Field(Meant(x, l), f) ==
            if Overrides(l, f).Some? then Overrides(l, f)
            else if x.design.underlayBfd.Some? then Field(x.design.underlayBfd.value, f) else None
  {
  }

  ghost predicate SilentFrom(links: seq<Link>, k: nat, f: Which) {
    forall j :: k <= j < |links| ==> Overrides(links[j], f).None?
  }

  /** The value v is what the last link to override timer f, switched on or off, gives it; else the design's. */
  ghost predicate LastGiven(x: Inputs, links: seq<Link>, f: Which, v: Option<nat>) {
    || (exists k: nat ::
          k < |links| && Overrides(links[k], f).Some? && SilentFrom(links, k + 1, f) && v == Overrides(links[k], f))
    || (SilentFrom(links, 0, f) && v == Field(x.design.BfdTimers(), f))
  }

  /** What the cells hold after the loop, timer by timer: the last override of each, or the design's value. */
  lemma {:induction false} TimersAreLastOverrides(x: Inputs, links: seq<Link>, f: Which, v: Option<nat>)
    requires x.design.BfdEnabled()
    ensures Field(TimersOf(x, links), f) == v <==> LastGiven(x, links, f, v)
  {
    hide LinkTimers;
    if links != [] {
      var front, n := links[..|links| - 1], |links| - 1;
      var o := Overrides(links[n], f);
      assert Field(TimersOf(x, links), f) == if o.Some? then o else Field(TimersOf(x, front), f);
      if o.Some? {
        assert SilentFrom(links, n + 1, f);
      } else {
        TimersAreLastOverrides(x, front, f, v);
        assert forall k: nat :: k <= n ==> (SilentFrom(links, k, f) <==> SilentFrom(front, k, f));
      }
    }
  }

  // ---------------------------------------------------------------- isolation

  /** What an interface's record is meant to be: the design overridden by its own link. */
  function Meant(x: Inputs, l: Link): Timers {
    Overridden(x.design.BfdTimers(), LinkTimers(l))
  }

  /** Some link's end i has an interface entry: its link is switched on and the endpoint has a name. */
  predicate HasEntry(x: Inputs, links: seq<Link>, l: Link, i: bool) {
    l in links && BfdOn(x, l) && l.Ep(i) != ""
  }

  ghost predicate AllMean(x: Inputs, links: seq<Link>, w: Timers) {
    forall l, i :: HasEntry(x, links, l, i) ==> Meant(x, l) == w
  }

  /**
   All links that have entries mean one record w, and each timer was last overridden to w's value, by whichever
   link, or never and w has the design's.
   */
  ghost predicate OneMeaning(x: Inputs, links: seq<Link>) {
    exists w :: AllMean(x, links, w) && forall f: Which :: LastGiven(x, links, f, Field(w, f))
  }

  /** Sharing the cells is harmless exactly when the links have one meaning and it is the last one written. */
  lemma IsolatedExactly(x: Inputs, links: seq<Link>)
    requires x.design.BfdEnabled()
    ensures (forall l, i :: HasEntry(x, links, l, i) ==> TimersOf(x, links) == Meant(x, l)) <==> OneMeaning(x, links)
    ensures (forall l :: l in links ==> LinkTimers(l) == NO_TIMERS) ==> OneMeaning(x, links)
  {
    hide Meant, HasEntry, LastGiven, TimersOf, LinkTimers;
    var t := TimersOf(x, links);
    forall f: Which, v
      ensures Field(t, f) == v <==> LastGiven(x, links, f, v)
    {
      TimersAreLastOverrides(x, links, f, v);
    }
    if OneMeaning(x, links) {
      var w :| AllMean(x, links, w) && forall f: Which :: LastGiven(x, links, f, Field(w, f));
      SameFields(t, w);
    }
    if AllMean(x, links, t) {
      assert OneMeaning(x, links);
    }
    if forall l :: l in links ==> LinkTimers(l) == NO_TIMERS {
      NoOverrides(x, links);
    }
  }

  lemma {:induction false} NoOverrides(x: Inputs, links: seq<Link>)
    requires forall l :: l in links ==> LinkTimers(l) == NO_TIMERS
    ensures TimersOf(x, links) == x.design.BfdTimers()
    ensures forall l, i :: HasEntry(x, links, l, i) ==> Meant(x, l) == x.design.BfdTimers()
  {
    hide LinkTimers;
    if links != [] {
      assert links[|links| - 1] in links;
      NoOverrides(x, links[..|links| - 1]);
    }
  }

  const USUAL := Timers(Some(0), Some(300), Some(300), Some(3), Some(255))

  method NewRecord() returns (own: Record)
    ensures fresh(own) && fresh(CellsOf(own.cells)) && Apart(own.cells) && Read(own.cells) == USUAL
  {
    var a := new Cell(0);
    var b := new Cell(300);
    var c := new Cell(300);
    var d := new Cell(3);
    var e := new Cell(255);
    own := new Record(Pointers(a, b, c, d, e));
  }

  lemma UsualTwice(x: Inputs, l: Link, m: Link)
    requires x.design.BfdEnabled() && x.design.BfdTimers() == USUAL
    requires BfdOn(x, l) && l.Ep(false) != "" && (l.protocols.bfd.Some? ==> l.protocols.bfd.value.timers == NO_TIMERS)
    requires m.protocols.bfd.Some? && m.protocols.bfd.value.timers == NO_TIMERS.(minRx := Some(50))
    ensures HasBfd(x, [l, m], BfdLoc(l, false))
    ensures forall k :: k in [l, m] ==> Overridable(USUAL, LinkTimers(k))
    ensures TimersOf(x, [l, m]) == USUAL.(minRx := Some(50)) && Meant(x, l) == USUAL
  {
    assert l in [l, m] && [l, m][..1] == [l] && [l][..0] == [];
    NoOverride(USUAL);
    assert TimersOf(x, []) == USUAL;
    assert TimersOf(x, [l]) == USUAL;
  }

  /**
   The entry of a link without overrides, built beside a link that overrides one timer and need not have an
   entry itself: it reads the other link's value.
   */
  method OneOverrideReachesAll(x: Inputs, l: Link, m: Link) returns (read: Timers)
    requires x.design.BfdEnabled() && x.design.BfdTimers() == USUAL
    requires BfdOn(x, l) && l.Ep(false) != "" && (l.protocols.bfd.Some? ==> l.protocols.bfd.value.timers == NO_TIMERS)
    requires m.protocols.bfd.Some? && m.protocols.bfd.value.timers == NO_TIMERS.(minRx := Some(50))
    ensures read == USUAL.(minRx := Some(50)) && Meant(x, l) == USUAL
  {
    hide Apart, CellsOf, Field, LastGiven, OneMeaning, LinkTimers, Meant, Overridable;
    var own := NewRecord();
    var table := new BfdTable(x, own);
    UsualTwice(x, l, m);
    var ok := table.AddLinks([l, m]);
    read := Read(table.entries[BfdLoc(l, false)].cells);
  }
}
