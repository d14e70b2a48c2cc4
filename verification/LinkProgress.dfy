/** What one undisturbed reconcile of a link does: exactly when it ends Ready, and what a deletion gives back. */
module LinkProgress {
  import opened Options
  import opened LinkClaims

  lemma {:induction false} RunFirst(s: State, a: Action, rest: seq<Action>)
    ensures Run(s, [a] + rest) == Run(Step(s, a), rest)
  {
    var actions := [a] + rest;
    if rest == [] {
      assert actions == [a] && [a][..0] == [];
      assert Run(s, [a]) == Step(Run(s, []), a);
    } else {
      assert actions[..|actions| - 1] == [a] + rest[..|rest| - 1];
      RunFirst(s, a, rest[..|rest| - 1]);
    }
  }

  lemma {:induction false} RunAppend(s: State, a: seq<Action>, b: seq<Action>)
    ensures Run(s, a + b) == Run(Run(s, a), b)
  {
    if b == [] {
      assert a + b == a;
    } else {
      assert (a + b)[..|a + b| - 1] == a + b[..|b| - 1];
      RunAppend(s, a, b[..|b| - 1]);
    }
  }

  /** The link's specification names the endpoint. */
  predicate Named(s: State, l: Name, ep: Name) {
    l in s.links && (s.links[l].a == Some(ep) || s.links[l].b == Some(ep))
  }

  /** The last stored owner of the endpoint, if it exists: nobody, or a link. */
  predicate OwnerIs(s: State, ep: Name, owner: Option<Name>) {
    ep in s.hist && s.hist[ep] != [] && s.hist[ep][|s.hist[ep]| - 1] == owner
  }

  /** The endpoint exists and is free or the link's own. */
  predicate Available(s: State, l: Name, ep: Name) {
    OwnerIs(s, ep, None) || OwnerIs(s, ep, Some(l))
  }

  /** The cache shows the last version of what the link names. */
  ghost predicate Current(s: State, l: Name) {
    forall ep :: Named(s, l, ep) && ep in s.hist ==>
                   s.hist[ep] != [] && ep in s.seen && s.seen[ep] == |s.hist[ep]| - 1
  }

  ghost predicate AllAvailable(s: State, l: Name) {
    forall ep :: Named(s, l, ep) ==> Available(s, l, ep)
  }

  /** The link's two endpoints are not one and the same. */
  predicate TwoEndpoints(s: State, l: Name) {
    l in s.links && (s.links[l].a.Some? ==> s.links[l].a != s.links[l].b)
  }

  lemma NamesAreNamed(s: State, l: Name, ep: Name)
    ensures ep in s.Names(l) <==> Named(s, l, ep)
    ensures l in s.links ==> |s.Names(l)| <= 2
    ensures TwoEndpoints(s, l) ==> forall i, j :: 0 <= i < j < |s.Names(l)| ==> s.Names(l)[i] != s.Names(l)[j]
  {
  }

  function Times(a: Action, n: nat): seq<Action> {
    seq(n, i requires 0 <= i < n => a)
  }

  lemma TimesMore(a: Action, n: nat)
    ensures Times(a, n + 1) == [a] + Times(a, n)
  {
  }

  lemma NoSteps(s: State, a: Action)
    ensures Run(s, Times(a, 0)) == s
  {
  }

  /** A whole reconcile of the link: it reads, and then claims, each endpoint that it names. */
  function Attempt(s: State, l: Name): seq<Action> {
    var n := |s.Names(l)|;
    [Start(l, false)] + Times(Read(l, false), n) + Times(Claim(l, Answered), n)
  }

  // ---------------------------------------------------------------- the reads

  ghost predicate ShownAll(s: State, names: seq<Name>) {
    forall ep :: ep in names && ep in s.hist ==>
                   s.hist[ep] != [] && ep in s.seen && s.seen[ep] == |s.hist[ep]| - 1
  }

  /** Copies of the stored versions of these endpoints. */
  ghost predicate FreshCopies(s: State, names: seq<Name>, copies: seq<Copy>) {
    |copies| == |names| &&
    forall i :: 0 <= i < |names| ==>
      names[i] in s.hist && s.hist[names[i]] != [] && copies[i] == Copy(names[i], |s.hist[names[i]]| - 1)
  }

  lemma OneRead(s: State, l: Name, got: seq<Copy>, todo: seq<Name>, failed: bool)
    requires s.At(l) == Reading(got, todo, failed) && todo != [] && ShownAll(s, todo)
    ensures var ep, t := todo[0], Step(s, Read(l, false));
            && t.hist == s.hist && t.seen == s.seen && t.links == s.links
            && t.At(l) == if Available(s, l, ep) then AfterRead(got + [Copy(ep, |s.hist[ep]| - 1)], todo[1..], failed)
                          else AfterRead(got, todo[1..], true)
  {
  }

  lemma {:induction false} ReadPhase(s: State, l: Name, got: seq<Copy>, todo: seq<Name>, failed: bool)
    returns (all: seq<Copy>)
    requires s.At(l) == AfterRead(got, todo, failed) && ShownAll(s, todo)
    ensures var t := Run(s, Times(Read(l, false), |todo|));
            && t.hist == s.hist && t.seen == s.seen && t.links == s.links
            && t.At(l) == if failed || exists ep :: ep in todo && !Available(s, l, ep) then Finishing(NotFound)
                          else AfterClaim([], got + all)
    ensures (forall ep :: ep in todo ==> Available(s, l, ep)) ==> FreshCopies(s, todo, all)
    decreases |todo|
  {
    hide Step, Run, Times, Available, ShownAll, FreshCopies, AfterRead, AfterClaim;
    all := [];
    if todo == [] {
      NoSteps(s, Read(l, false));
      NothingRead(s, l, got, failed);
    } else {
      var ep, rest := todo[0], todo[1..];
      var t := Step(s, Read(l, false));
      NotDone(s, l, got, todo, failed);
      OneRead(s, l, got, todo, failed);
      TimesMore(Read(l, false), |rest|);
      RunFirst(s, Read(l, false), Times(Read(l, false), |rest|));
      ShownRest(s, t, todo);
      assert todo == [ep] + rest;
      forall e
        ensures Available(t, l, e) <==> Available(s, l, e)
      {
        SameOwners(s, t, l, e);
      }
      if Available(s, l, ep) {
        AvailableExists(s, l, ep);
        var c := Copy(ep, |s.hist[ep]| - 1);
        var more := ReadPhase(t, l, got + [c], rest, failed);
        all := [c] + more;
        assert got + [c] + more == got + all;
        if forall e :: e in todo ==> Available(s, l, e) {
          FreshMore(s, t, todo, more);
        }
      } else {
        all := ReadPhase(t, l, got, rest, true);
        assert ep in todo;
      }
    }
  }

  lemma NothingRead(s: State, l: Name, got: seq<Copy>, failed: bool)
    ensures AfterRead(got, [], failed) == if failed then Finishing(NotFound) else AfterClaim([], got + [])
    ensures FreshCopies(s, [], [])
  {
    assert got + [] == got;
  }

  lemma NotDone(s: State, l: Name, got: seq<Copy>, todo: seq<Name>, failed: bool)
    requires s.At(l) == AfterRead(got, todo, failed) && todo != []
    ensures s.At(l) == Reading(got, todo, failed)
  {
  }

  lemma ShownRest(s: State, t: State, todo: seq<Name>)
    requires todo != [] && ShownAll(s, todo) && t.hist == s.hist && t.seen == s.seen
    ensures ShownAll(t, todo[1..])
  {
  }

  lemma FreshMore(s: State, t: State, todo: seq<Name>, more: seq<Copy>)
    requires todo != [] && todo[0] in s.hist && s.hist[todo[0]] != [] && t.hist == s.hist &&
             FreshCopies(t, todo[1..], more)
    ensures FreshCopies(s, todo, [Copy(todo[0], |s.hist[todo[0]]| - 1)] + more)
  {
  }

  lemma AvailableExists(s: State, l: Name, ep: Name)
    requires Available(s, l, ep)
    ensures ep in s.hist && s.hist[ep] != []
  {
  }

  lemma SameOwners(s: State, t: State, l: Name, ep: Name)
    requires t.hist == s.hist
    ensures Available(t, l, ep) <==> Available(s, l, ep)
  {
  }

  // ---------------------------------------------------------------- the claims

  ghost predicate Distinct(names: seq<Name>) {
    forall i, j :: 0 <= i < j < |names| ==> names[i] != names[j]
  }

  /** These endpoints have one more version, with this owner; the others are as before. */
  ghost predicate Written(s: State, t: State, names: seq<Name>, owner: Option<Name>) {
    && t.links == s.links && t.hist.Keys == s.hist.Keys && (forall ep :: ep in names ==> ep in s.hist)
    && forall ep :: ep in s.hist ==> t.hist[ep] == if ep in names then s.hist[ep] + [owner] else s.hist[ep]
  }

  lemma OneClaim(s: State, l: Name, claimed: seq<Name>, names: seq<Name>, copies: seq<Copy>)
    requires s.At(l) == Applying(claimed, copies) && names != [] && FreshCopies(s, names, copies)
    ensures var t := Step(s, Claim(l, Answered));
            && Written(s, t, [names[0]], Some(l))
            && t.At(l) == AfterClaim(claimed + [names[0]], copies[1..])
  {
  }

  lemma {:induction false} ClaimPhase(s: State, l: Name, claimed: seq<Name>, names: seq<Name>, copies: seq<Copy>)
    requires s.At(l) == AfterClaim(claimed, copies) && Distinct(names) && FreshCopies(s, names, copies)
    ensures var t := Run(s, Times(Claim(l, Answered), |names|));
            t.At(l) == Finishing(Ready) && Written(s, t, names, Some(l))
    decreases |names|
  {
    hide Step, Run, Times, Written;
    if names == [] {
      NoSteps(s, Claim(l, Answered));
      WrittenMore(s, s, s, names, Some(l));
    } else {
      var ep, rest := names[0], names[1..];
      OneClaim(s, l, claimed, names, copies);
      TimesMore(Claim(l, Answered), |rest|);
      RunFirst(s, Claim(l, Answered), Times(Claim(l, Answered), |rest|));
      var t := Step(s, Claim(l, Answered));
      assert names == [ep] + rest;
      StillFresh(s, t, l, ep, rest, copies[1..]);
      ClaimPhase(t, l, claimed + [ep], rest, copies[1..]);
      WrittenMore(s, t, Run(t, Times(Claim(l, Answered), |rest|)), names, Some(l));
    }
  }

  lemma StillFresh(s: State, t: State, l: Name, ep: Name, rest: seq<Name>, copies: seq<Copy>)
    requires Written(s, t, [ep], Some(l)) && ep !in rest && FreshCopies(s, rest, copies)
    ensures FreshCopies(t, rest, copies)
  {
  }

  lemma WrittenMore(s: State, t: State, u: State, names: seq<Name>, owner: Option<Name>)
    requires Distinct(names)
    requires names != [] ==> Written(s, t, [names[0]], owner) && Written(t, u, names[1..], owner)
    requires names == [] ==> s == t == u
    ensures Written(s, u, names, owner)
  {
    if names != [] {
      assert names == [names[0]] + names[1..] && names[0] !in names[1..];
    }
  }

  lemma {:induction false} NothingToClaim(s: State, l: Name, n: nat)
    requires s.At(l) == Finishing(NotFound)
    ensures Run(s, Times(Claim(l, Answered), n)) == s
  {
    if n > 0 {
      TimesMore(Claim(l, Answered), n - 1);
      RunFirst(s, Claim(l, Answered), Times(Claim(l, Answered), n - 1));
      NothingToClaim(s, l, n - 1);
    } else {
      assert Times(Claim(l, Answered), 0) == [];
    }
  }

  /** One endpoint named twice: the second claim finds it changed by the first. */
  lemma ClaimTwice(s: State, l: Name, ep: Name, copies: seq<Copy>)
    requires s.At(l) == AfterClaim([], copies) && FreshCopies(s, [ep, ep], copies)
    ensures var t := Run(s, Times(Claim(l, Answered), 2));
            t.At(l) == AfterRelease([], s.Names(l), false) && Written(s, t, [ep], Some(l))
  {
    TimesMore(Claim(l, Answered), 1);
    TimesMore(Claim(l, Answered), 0);
    assert Times(Claim(l, Answered), 0) == [] && Times(Claim(l, Answered), 1) == [Claim(l, Answered)];
    RunFirst(s, Claim(l, Answered), [Claim(l, Answered)]);
    OneClaim(s, l, [], [ep, ep], copies);
    var t := Step(s, Claim(l, Answered));
    RunFirst(t, Claim(l, Answered), []);
    assert copies[1..] == [copies[1]] && copies[1] == Copy(ep, |s.hist[ep]| - 1) && !t.Fresh(copies[1]);
    assert [Claim(l, Answered)] + [] == [Claim(l, Answered)];
  }

  // ---------------------------------------------------------------- a whole reconcile

  lemma AttemptStates(s: State, l: Name)
    ensures var n := |s.Names(l)|;
            Run(s, Attempt(s, l)) ==
            Run(Run(Step(s, Start(l, false)), Times(Read(l, false), n)), Times(Claim(l, Answered), n))
  {
    hide Step;
    var n, a := |s.Names(l)|, [Start(l, false)];
    RunAppend(s, a + Times(Read(l, false), n), Times(Claim(l, Answered), n));
    RunFirst(s, Start(l, false), Times(Read(l, false), n));
  }

  /**
   Exactly when an undisturbed reconcile with a current cache succeeds: it ends Ready, owning all it names, if and only
   if every endpoint that the link names exists and is free or its own, and the two are not the same. If one does not
   exist or is another link's, it ends NotFound and no owner has changed. If only they are the same, it starts a
   rollback, as its first claim makes the second fail.
   */
  lemma AttemptExactly(s: State, l: Name)
    requires l in s.links && s.At(l).Idle? && Current(s, l)
    ensures var t := Run(s, Attempt(s, l));
            && ((t.At(l) == Finishing(Ready) && forall ep :: Named(s, l, ep) ==> OwnerIs(t, ep, Some(l))) <==>
                AllAvailable(s, l) && TwoEndpoints(s, l))
            && (!AllAvailable(s, l) ==> t.At(l) == Finishing(NotFound) && t.hist == s.hist)
            && (AllAvailable(s, l) && !TwoEndpoints(s, l) ==> t.At(l) == Releasing([], s.Names(l), false))
            && (forall ep :: ep in s.hist && !Named(s, l, ep) ==> ep in t.hist && t.hist[ep] == s.hist[ep])
  {
    hide Step, Run, Times, Available, FreshCopies, Written, OwnerIs, AfterRead, AfterClaim;
    var names := s.Names(l);
    AttemptStates(s, l);
    var all, v := ReadsEnd(s, l);
    NamesAreNamed(s, l, l);
    if !AllAvailable(s, l) {
      NothingToClaim(v, l, |names|);
    } else if TwoEndpoints(s, l) {
      ClaimPhase(v, l, [], names, all);
      WrittenNames(s, v, Run(v, Times(Claim(l, Answered), |names|)), l, names);
    } else {
      OneName(s, l);
      var ep := s.links[l].a.value;
      SameNames(s, v, l);
      ClaimTwice(v, l, ep, all);
      WrittenNames(s, v, Run(v, Times(Claim(l, Answered), |names|)), l, [ep]);
      assert Releasing([], s.Names(l), false) == AfterRelease([], s.Names(l), false);
    }
  }

  lemma OneName(s: State, l: Name)
    requires l in s.links && !TwoEndpoints(s, l)
    ensures s.links[l].a.Some? && s.Names(l) == [s.links[l].a.value, s.links[l].a.value]
  {
  }

  lemma SameNames(s: State, t: State, l: Name)
    requires t.links == s.links
    ensures t.Names(l) == s.Names(l)
  {
  }

  /** Where the reads of an undisturbed reconcile end. */
  lemma ReadsEnd(s: State, l: Name) returns (all: seq<Copy>, v: State)
    requires l in s.links && s.At(l).Idle? && Current(s, l)
    ensures v == Run(Step(s, Start(l, false)), Times(Read(l, false), |s.Names(l)|))
    ensures v.hist == s.hist && v.links == s.links
    ensures v.At(l) == if AllAvailable(s, l) then AfterClaim([], all) else Finishing(NotFound)
    ensures AllAvailable(s, l) ==> FreshCopies(v, s.Names(l), all)
  {
    var names, u := s.Names(l), Step(s, Start(l, false));
    assert u.At(l) == AfterRead([], names, false) && u.hist == s.hist && u.seen == s.seen && u.links == s.links;
    hide Step, Run, Times, Available, AfterRead, AfterClaim, FreshCopies;
    forall ep
      ensures ep in names <==> Named(s, l, ep)
      ensures Available(u, l, ep) <==> Available(s, l, ep)
    {
      NamesAreNamed(s, l, ep);
      SameOwners(s, u, l, ep);
    }
    all := ReadPhase(u, l, [], names, false);
    assert [] + all == all;
    v := Run(u, Times(Read(l, false), |names|));
    if AllAvailable(s, l) {
      FreshThere(u, v, names, all);
    }
  }

  lemma FreshThere(s: State, t: State, names: seq<Name>, copies: seq<Copy>)
    requires t.hist == s.hist && FreshCopies(s, names, copies)
    ensures FreshCopies(t, names, copies)
  {
  }

  /** The endpoints written are owned by the link, and the others are as before. */
  lemma WrittenNames(s: State, v: State, t: State, l: Name, names: seq<Name>)
    requires v.hist == s.hist && Written(v, t, names, Some(l)) && forall ep :: ep in names <==> ep in s.Names(l)
    ensures forall ep :: Named(s, l, ep) ==> OwnerIs(t, ep, Some(l))
    ensures forall ep :: ep in s.hist && !Named(s, l, ep) ==> ep in t.hist && t.hist[ep] == s.hist[ep]
  {
    forall ep
      ensures ep in names <==> Named(s, l, ep)
    {
      NamesAreNamed(s, l, ep);
    }
  }

  // ---------------------------------------------------------------- a whole deletion

  function Deletion(s: State, l: Name): seq<Action> {
    [Start(l, true)] + Pairs(l, |s.Names(l)|)
  }

  function Pairs(l: Name, n: nat): seq<Action> {
    if n == 0 then [] else [ReleaseRead(l, false), Release(l, Answered)] + Pairs(l, n - 1)
  }

  /** A release of one endpoint: freed if it is the link's own, and otherwise left alone. */
  lemma OneRelease(s: State, l: Name, done: seq<Name>, todo: seq<Name>)
    requires s.At(l) == Releasing(done, todo, false) && todo != [] && ShownAll(s, todo)
    ensures var ep, t := todo[0], Step(Step(s, ReleaseRead(l, false)), Release(l, Answered));
            && Written(s, t, if OwnerIs(s, ep, Some(l)) then [ep] else [], None) && t.seen == s.seen
            && t.At(l) == AfterRelease(done + [ep], todo[1..], false)
  {
    var ep, u := todo[0], Step(s, ReleaseRead(l, false));
    if OwnerIs(s, ep, Some(l)) {
      assert u.At(l) == ReleaseWrite(done, Copy(ep, |s.hist[ep]| - 1), todo[1..], false) && u.hist == s.hist;
      assert u.Fresh(Copy(ep, |s.hist[ep]| - 1));
    } else {
      assert u.At(l) == AfterRelease(done + [ep], todo[1..], false);
      assert Step(u, Release(l, Answered)) == u;
    }
  }

  /** What the link owns among these endpoints is free afterwards; nothing else has changed. */
  ghost predicate Freed(s: State, t: State, l: Name, names: seq<Name>) {
    && t.hist.Keys == s.hist.Keys
    && forall ep :: ep in s.hist ==>
         t.hist[ep] == if ep in names && OwnerIs(s, ep, Some(l)) then s.hist[ep] + [None] else s.hist[ep]
  }

  lemma {:induction false} ReleasePhase(s: State, l: Name, done: seq<Name>, todo: seq<Name>)
    requires s.At(l) == AfterRelease(done, todo, false) && Distinct(todo) && ShownAll(s, todo)
    ensures var t := Run(s, Pairs(l, |todo|));
            t.At(l) == Finishing(RolledBack) && Freed(s, t, l, todo)
    decreases |todo|
  {
    hide Step, Run, Written, Freed, ShownAll;
    if todo == [] {
      NothingFreed(s, l);
    } else {
      var ep, rest := todo[0], todo[1..];
      var first, second := ReleaseRead(l, false), Release(l, Answered);
      OneRelease(s, l, done, todo);
      RunFirst(s, first, [second] + Pairs(l, |rest|));
      assert [first, second] + Pairs(l, |rest|) == [first] + ([second] + Pairs(l, |rest|));
      RunFirst(Step(s, first), second, Pairs(l, |rest|));
      var t := Step(Step(s, first), second);
      assert todo == [ep] + rest && ep !in rest;
      StillShown(s, t, l, ep, rest);
      ReleasePhase(t, l, done + [ep], rest);
      FreedMore(s, t, Run(t, Pairs(l, |rest|)), l, todo);
    }
  }

  lemma NothingFreed(s: State, l: Name)
    ensures Run(s, Pairs(l, 0)) == s && Freed(s, s, l, [])
  {
  }

  lemma StillShown(s: State, t: State, l: Name, ep: Name, rest: seq<Name>)
    requires Written(s, t, if OwnerIs(s, ep, Some(l)) then [ep] else [], None) && t.seen == s.seen
    requires ep !in rest && ShownAll(s, [ep] + rest)
    ensures ShownAll(t, rest)
  {
    forall e | e in rest && e in t.hist
      ensures t.hist[e] != [] && e in t.seen && t.seen[e] == |t.hist[e]| - 1
    {
      assert e in [ep] + rest;
    }
  }

  lemma FreedMore(s: State, t: State, u: State, l: Name, names: seq<Name>)
    requires names != [] && names[0] !in names[1..]
    requires Written(s, t, if OwnerIs(s, names[0], Some(l)) then [names[0]] else [], None) && Freed(t, u, l, names[1..])
    ensures Freed(s, u, l, names)
  {
    assert names == [names[0]] + names[1..];
  }

  /** An undisturbed deletion with a current cache frees exactly the endpoints that the link names and owns. */
  lemma DeletionExactly(s: State, l: Name)
    requires l in s.links && s.At(l).Idle? && Current(s, l) && TwoEndpoints(s, l)
    ensures var t := Run(s, Deletion(s, l));
            && t.At(l) == Finishing(RolledBack) && t.hist.Keys == s.hist.Keys
            && forall ep :: ep in s.hist ==>
                 t.hist[ep] == if Named(s, l, ep) && OwnerIs(s, ep, Some(l)) then s.hist[ep] + [None] else s.hist[ep]
  {
    var names, u := s.Names(l), Step(s, Start(l, true));
    assert u.At(l) == AfterRelease([], names, false) && u.hist == s.hist && u.seen == s.seen;
    forall ep
      ensures ep in names <==> Named(s, l, ep)
      ensures OwnerIs(u, ep, Some(l)) <==> OwnerIs(s, ep, Some(l))
    {
      NamesAreNamed(s, l, ep);
    }
    NamesAreNamed(s, l, l);
    RunFirst(s, Start(l, true), Pairs(l, |names|));
    ReleasePhase(u, l, [], names);
  }
}
