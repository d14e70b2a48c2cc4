/**
 What a link is left owning: all or nothing, as long as no release read misses what the link owns, and runs in
 which one does.
 */
module LinkRollback {
  import opened Options
  import opened LinkClaims

  // ---------------------------------------------------------------- all or nothing

  /** The release read that comes next would be shown another owner than the link, which does own the endpoint. */
  predicate Misses(s: State, a: Action) {
    a.ReleaseRead? && !a.error && s.At(a.l).Releasing? && s.At(a.l).todo != [] &&
    var ep := s.At(a.l).todo[0];
    s.Owns(a.l, ep) && !s.ShownOwned(a.l, ep)
  }

  /** The cache has not reached the link's own last write of the endpoint that it is about to release. */
  predicate ReadsBehind(s: State, a: Action) {
    a.ReleaseRead? && !a.error && s.At(a.l).Releasing? && s.At(a.l).todo != [] &&
    var ep := s.At(a.l).todo[0];
    s.OwnOf(a.l, ep) > 0 && (ep !in s.seen || s.seen[ep] < s.OwnOf(a.l, ep))
  }

  /** Only a cache behind the link's own last write makes a release read miss. */
  lemma MissesOnlyBehind(s: State, actions: seq<Action>, a: Action)
    requires Init(s) && Misses(Run(s, actions), a)
    ensures ReadsBehind(Run(s, actions), a)
  {
    hide Run;
    RunKeepsInv(s, actions);
    RunKeepsSeen(s, actions);
    RunKeepsUnclaimed(s, actions, a.l, Run(s, actions).At(a.l).todo[0]);
    assert OwnInv(Run(s, actions), a.l, Run(s, actions).At(a.l).todo[0]);
  }

  lemma {:induction false} RunKeepsSeen(s: State, actions: seq<Action>)
    requires Init(s)
    ensures SeenExists(Run(s, actions))
  {
    hide Step, Inv;
    if actions != [] {
      var front := actions[..|actions| - 1];
      RunKeepsSeen(s, front);
      StepKeepsSeen(Run(s, front), actions[|actions| - 1]);
    }
  }

  lemma StepKeepsSeen(s: State, a: Action)
    requires SeenExists(s)
    ensures SeenExists(Step(s, a))
  {
    hide AfterRead, AfterClaim, AfterRelease;
  }

  /** What a link has never written it does not own. */
  lemma {:induction false} RunKeepsUnclaimed(s: State, actions: seq<Action>, l: Name, ep: Name)
    requires Init(s)
    ensures Run(s, actions).OwnOf(l, ep) == 0 ==> !Run(s, actions).Owns(l, ep)
  {
    if actions != [] {
      var front, a := actions[..|actions| - 1], actions[|actions| - 1];
      RunKeepsUnclaimed(s, front, l, ep);
      RunKeepsInv(s, front);
      StepKeepsUnclaimed(Run(s, front), a, l, ep);
    }
  }

  lemma StepKeepsUnclaimed(s: State, a: Action, l: Name, ep: Name)
    requires Inv(s) && (s.OwnOf(l, ep) == 0 ==> !s.Owns(l, ep))
    ensures Step(s, a).OwnOf(l, ep) == 0 ==> !Step(s, a).Owns(l, ep)
  {
    hide Step, PcInv;
    assert OwnInv(s, l, ep);
    StepIsLocal(s, a);
    if UpdateOf(s, a).Some? {
      UpdatesAreFair(s, a);
    }
  }

  ghost predicate NoMiss(s: State, actions: seq<Action>) {
    forall k :: 0 <= k < |actions| ==> !Misses(Run(s, actions[..k]), actions[k])
  }

  /** Release reads from a cache that has reached the link's own last write of the endpoint never miss. */
  lemma ReachingOwnWritesSuffices(s: State, actions: seq<Action>)
    requires Init(s) && forall k :: 0 <= k < |actions| ==> !ReadsBehind(Run(s, actions[..k]), actions[k])
    ensures NoMiss(s, actions)
  {
    hide Run, Init, Misses, ReadsBehind;
    forall k | 0 <= k < |actions|
      ensures !Misses(Run(s, actions[..k]), actions[k])
    {
      if Misses(Run(s, actions[..k]), actions[k]) {
        MissesOnlyBehind(s, actions[..k], actions[k]);
      }
    }
  }

  lemma {:induction false} NothingMissed(s: State, actions: seq<Action>)
    requires Init(s) && NoMiss(s, actions)
    ensures Run(s, actions).missed == {}
  {
    if actions != [] {
      var k := |actions| - 1;
      forall i | 0 <= i < k
        ensures !Misses(Run(s, actions[..k][..i]), actions[..k][i])
      {
        assert actions[..k][..i] == actions[..i];
      }
      NothingMissed(s, actions[..k]);
      StepMisses(Run(s, actions[..k]), actions[k]);
    }
  }

  lemma StepMisses(s: State, a: Action)
    requires s.missed == {} && !Misses(s, a)
    ensures Step(s, a).missed == {}
  {
  }

  /** A finished rollback leaves the link owning exactly the endpoints that its release reads missed. */
  lemma RollbackOwnsMissed(s: State, actions: seq<Action>, l: Name, ep: Name)
    requires Init(s) && ep in s.Names(l)
    requires Run(s, actions).At(l) == Finishing(RolledBack)
    ensures Step(Run(s, actions), Finish(l)).Owns(l, ep) <==> (l, ep) in Run(s, actions).missed
  {
    hide Run, Init;
    RunKeepsInv(s, actions);
    var t := Run(s, actions);
    assert PcInv(t, l, t.At(l), l !in t.spoiled);
    assert t.Names(l) == s.Names(l);
  }

  /** Without a missing read a finished rollback leaves the link owning none of its endpoints, whatever went before. */
  lemma RollbackOwnsNothing(s: State, actions: seq<Action>, l: Name, ep: Name)
    requires Init(s) && NoMiss(s, actions) && ep in s.Names(l)
    requires Run(s, actions).At(l) == Finishing(RolledBack)
    ensures !Step(Run(s, actions), Finish(l)).Owns(l, ep)
  {
    NothingMissed(s, actions);
    RollbackOwnsMissed(s, actions, l, ep);
  }

  /**
   At rest, over every run: a link that has not crashed or failed a release since it was last Ready or rolled
   back owns all of its endpoints, or exactly those that its release reads missed.
   */
  lemma AtRestOwnsAllOrMissed(s: State, actions: seq<Action>, l: Name)
    requires Init(s) && Run(s, actions).At(l).Idle? && l !in Run(s, actions).spoiled
    ensures OwnsAll(Run(s, actions), l, s.Names(l)) || OwnsMissed(Run(s, actions), l, s.Names(l))
  {
    hide Run, Init;
    RunKeepsInv(s, actions);
    var t := Run(s, actions);
    assert PcInv(t, l, t.At(l), l !in t.spoiled);
    assert t.Names(l) == s.Names(l);
  }

  ghost predicate AllOrNone(s: State, l: Name, names: seq<Name>) {
    OwnsAll(s, l, names) || forall ep :: ep in names ==> !s.Owns(l, ep)
  }

  /** All or nothing, over every run without a missing read. */
  lemma AllOrNothing(s: State, actions: seq<Action>, l: Name)
    requires Init(s) && NoMiss(s, actions) && Run(s, actions).At(l).Idle? && l !in Run(s, actions).spoiled
    ensures AllOrNone(Run(s, actions), l, s.Names(l))
  {
    NothingMissed(s, actions);
    AtRestOwnsAllOrMissed(s, actions, l);
  }

  /** Exactly when all or nothing holds at rest: the link owns everything, or none of its endpoints was missed. */
  lemma AllOrNothingExactly(s: State, actions: seq<Action>, l: Name)
    requires Init(s) && Run(s, actions).At(l).Idle? && l !in Run(s, actions).spoiled
    ensures AllOrNone(Run(s, actions), l, s.Names(l)) <==>
              || OwnsAll(Run(s, actions), l, s.Names(l))
              || forall ep :: ep in s.Names(l) ==> (l, ep) !in Run(s, actions).missed
  {
    AtRestOwnsAllOrMissed(s, actions, l);
  }

  // ---------------------------------------------------------------- a missing read can always do harm

  /** A release read that misses leaves the endpoint owned and goes on to the next name. */
  lemma MissGoesOn(s: State, l: Name)
    requires Misses(s, ReleaseRead(l, false))
    ensures var pc, t := s.At(l), Step(s, ReleaseRead(l, false));
            && t.At(l) == AfterRelease(pc.done + [pc.todo[0]], pc.todo[1..], pc.failed)
            && t.hist == s.hist && t.seen == s.seen && t.links == s.links
  {
  }

  /** The cache can always catch up with an endpoint, whatever the workers are at. */
  lemma SyncToLast(s: State, l: Name, ep: Name)
    requires SeenExists(s) && ep in s.hist && s.hist[ep] != []
    ensures var t := Step(s, Sync(ep, |s.hist[ep]| - 1));
            && t.At(l) == s.At(l) && t.hist == s.hist && t.links == s.links && ep in t.seen &&
               t.seen[ep] == |s.hist[ep]| - 1
            && SeenExists(t)
  {
    hide ReadStep, ClaimStep, ReleaseReadStep, ReleaseStep, FinishStep;
  }

  /** From one endpoint left to release, the rollback can end without touching any other. */
  lemma LastRelease(s: State, l: Name, ep: Name) returns (rest: seq<Action>)
    requires s.At(l).Releasing? && s.At(l).todo == [ep] && !s.At(l).failed && SeenExists(s) &&
             (ep in s.hist ==> s.hist[ep] != [])
    ensures Run(s, rest).At(l) == Finishing(RolledBack)
    ensures forall other :: other != ep && s.Owns(l, other) ==> Run(s, rest).Owns(l, other)
  {
    hide Step;
    NoSteps(s);
    if ep in s.hist {
      SyncToLast(s, l, ep);
      var t := Step(s, Sync(ep, |s.hist[ep]| - 1));
      rest := Then(s, [], Sync(ep, |s.hist[ep]| - 1));
      rest := CurrentRelease(s, rest, t, l, ep);
    } else {
      rest := CurrentRelease(s, [], s, l, ep);
    }
  }

  lemma CurrentRelease(s: State, before: seq<Action>, t: State, l: Name, ep: Name) returns (rest: seq<Action>)
    requires t == Run(s, before) && t.hist == s.hist && SeenExists(t)
    requires t.At(l).Releasing? && t.At(l).todo == [ep] && !t.At(l).failed
    requires ep in t.hist ==> ep in t.seen && t.seen[ep] == |t.hist[ep]| - 1
    ensures Run(s, rest).At(l) == Finishing(RolledBack)
    ensures forall other :: other != ep && s.Owns(l, other) ==> Run(s, rest).Owns(l, other)
  {
    assert [ep][1..] == [];
    var u := Step(t, ReleaseRead(l, false));
    rest := Then(s, before, ReleaseRead(l, false));
    if t.ShownOwned(l, ep) {
      assert u.At(l) == ReleaseWrite(t.At(l).done, Copy(ep, t.seen[ep]), [], false) &&
             u.Fresh(Copy(ep, t.seen[ep])) && u.hist == t.hist;
      rest := Then(s, rest, Release(l, Answered));
    }
  }

  /** The converse: a missing read of an unfailed rollback can be continued to its end, the endpoint still owned. */
  lemma MissCanLeaveOwned(s: State, l: Name, ep: Name) returns (rest: seq<Action>)
    requires Inv(s) && SeenExists(s) && Misses(s, ReleaseRead(l, false)) && !s.At(l).failed && ep == s.At(l).todo[0]
    ensures var t := Run(Step(s, ReleaseRead(l, false)), rest);
            t.At(l) == Finishing(RolledBack) && t.Owns(l, ep)
  {
    assert PcInv(s, l, s.At(l), l !in s.spoiled);
    var t, todo := Step(s, ReleaseRead(l, false)), s.At(l).todo;
    assert |s.Names(l)| <= 2;
    MissGoesOn(s, l);
    hide Step, PcInv;
    if |todo| == 1 {
      rest := [];
      NoSteps(t);
    } else {
      var next := todo[1];
      assert todo[1..] == [next] && t.At(l) == Releasing(s.At(l).done + [ep], [next], false);
      if next == ep {
        MissGoesOn(t, l);
        assert [next][1..] == [];
        NoSteps(t);
        rest := Then(t, [], ReleaseRead(l, false));
      } else {
        assert OwnInv(s, l, next);
        rest := LastRelease(t, l, next);
      }
    }
  }

  // ---------------------------------------------------------------- concrete runs

  lemma Then(s: State, actions: seq<Action>, a: Action) returns (more: seq<Action>)
    ensures more == actions + [a] && Run(s, more) == Step(Run(s, actions), a)
  {
    more := actions + [a];
    assert more[..|more| - 1] == actions;
  }

  /** Two endpoints that are free in the store and in the cache, and a link that names both. */
  predicate BothFree(s: State, l: Name, a: Name, b: Name) {
    && l in s.links && s.links[l] == LinkSpec(Some(a), Some(b)) && a != b
    && a in s.hist && b in s.hist && s.hist[a] == s.hist[b] == [None]
    && a in s.seen && b in s.seen && s.seen[a] == s.seen[b] == 0
  }

  lemma ReadsBoth(s: State, l: Name, a: Name, b: Name)
    requires BothFree(s, l, a, b) && s.At(l).Idle?
    ensures var t := Step(Step(Step(s, Start(l, false)), Read(l, false)), Read(l, false));
            BothFree(t, l, a, b) && t.At(l) == Applying([], [Copy(a, 0), Copy(b, 0)])
  {
    assert s.Names(l) == [a, b] && [a, b][1..] == [b] && [b][1..] == [];
    var t1 := Step(s, Start(l, false));
    assert t1.At(l) == Reading([], [a, b], false);
    var t2 := Step(t1, Read(l, false));
    assert t2.At(l) == Reading([Copy(a, 0)], [b], false);
    assert [Copy(a, 0)] + [Copy(b, 0)] == [Copy(a, 0), Copy(b, 0)];
  }

  /** The first claim is stored; the cache still shows both endpoints free. */
  predicate FirstClaimed(s: State, l: Name, a: Name, b: Name) {
    && l in s.links && s.links[l] == LinkSpec(Some(a), Some(b)) && a != b && s.At(l) == Applying([a], [Copy(b, 0)])
    && a in s.hist && b in s.hist && s.hist[a] == [None, Some(l)] && s.hist[b] == [None]
    && a in s.seen && b in s.seen && s.seen[a] == s.seen[b] == 0
  }

  lemma ClaimsFirst(s: State, l: Name, a: Name, b: Name)
    requires BothFree(s, l, a, b) && s.At(l) == Applying([], [Copy(a, 0), Copy(b, 0)])
    ensures FirstClaimed(Step(s, Claim(l, Answered)), l, a, b)
  {
    assert [Copy(a, 0), Copy(b, 0)][1..] == [Copy(b, 0)];
    assert [None] + [Some(l)] == [None, Some(l)];
  }

  const PAIR := State(map["l" := LinkSpec(Some("a"), Some("b"))], map["a" := [None], "b" := [None]],
                      map["a" := 0, "b" := 0],
                      map[], map[], {}, {})

  lemma ReachesFirstClaim() returns (actions: seq<Action>)
    ensures Init(PAIR) && PAIR.Names("l") == ["a", "b"] && FirstClaimed(Run(PAIR, actions), "l", "a", "b")
    ensures forall k :: 0 <= k < |actions| ==> actions[k].Start? || actions[k].Read? || actions[k].Claim?
  {
    var s := PAIR;
    assert BothFree(s, "l", "a", "b") && Init(s);
    ReadsBoth(s, "l", "a", "b");
    hide Step, Run, BothFree;
    var t := Step(Step(Step(s, Start("l", false)), Read("l", false)), Read("l", false));
    ClaimsFirst(t, "l", "a", "b");
    NoSteps(s);
    actions := Then(s, [], Start("l", false));
    actions := Then(s, actions, Read("l", false));
    actions := Then(s, actions, Read("l", false));
    actions := Then(s, actions, Claim("l", Answered));
  }

  lemma NoSteps(s: State)
    ensures Run(s, []) == s
  {
  }

  /** Only a crash or a failed release spoils. */
  lemma {:induction false} NobodySpoiled(s: State, actions: seq<Action>)
    requires s.spoiled == {}
    requires forall k :: 0 <= k < |actions| ==> actions[k].Start? || actions[k].Read? || actions[k].Claim?
    ensures Run(s, actions).spoiled == {}
  {
    if actions != [] {
      var front := actions[..|actions| - 1];
      assert forall k :: 0 <= k < |front| ==> front[k] == actions[k];
      NobodySpoiled(s, front);
      StoredKeeps(Run(s, front), actions[|actions| - 1]);
    }
  }

  /** A worker that crashes between its two claims leaves one of two endpoints owned. */
  lemma CrashLeavesOneClaimed() returns (s: State, actions: seq<Action>)
    ensures Init(s) && s.Names("l") == ["a", "b"]
    ensures var t := Run(s, actions);
            t.At("l").Idle? && t.Owns("l", "a") && !t.Owns("l", "b")
  {
    s := PAIR;
    actions := ReachesFirstClaim();
    hide Run;
    actions := Then(s, actions, Crash("l"));
  }

  /** The rollback is about to read; the link owns a alone, and the cache still shows neither as its own. */
  predicate BlindRollback(s: State, l: Name, a: Name, b: Name) {
    && l in s.links && s.links[l] == LinkSpec(Some(a), Some(b)) && s.At(l) == Releasing([], [a, b], false)
    && s.Owns(l, a) && !s.Owns(l, b) && !s.ShownOwned(l, a) && !s.ShownOwned(l, b) && l !in s.spoiled
  }

  lemma SecondClaimConflicts(s: State, l: Name, a: Name, b: Name)
    requires FirstClaimed(s, l, a, b) && l !in s.spoiled
    ensures BlindRollback(Step(Step(s, TouchEndpoint(b)), Claim(l, Answered)), l, a, b)
  {
    var t := Step(s, TouchEndpoint(b));
    assert s.hist[b] + [None] == [None, None];
    assert !t.Fresh(Copy(b, 0)) && s.Names(l) == [a, b];
  }

  lemma RollsBackBlindly(s: State, l: Name, a: Name, b: Name)
    requires BlindRollback(s, l, a, b)
    ensures var t := Step(Step(Step(s, ReleaseRead(l, false)), ReleaseRead(l, false)), Finish(l));
            t.At(l).Idle? && l !in t.spoiled && t.Owns(l, a) && !t.Owns(l, b)
  {
    var t := Step(s, ReleaseRead(l, false));
    assert [a, b][1..] == [b] && t.At(l) == Releasing([] + [a], [b], false);
    assert Step(t, ReleaseRead(l, false)).At(l) == Finishing(RolledBack);
  }

  /**
   Without a crash and without a failed release: the first claim is stored, the second conflicts, and the
   rollback, still shown the first endpoint as free, leaves it owned.
   */
  lemma StaleRollbackLeavesOneClaimed() returns (s: State, actions: seq<Action>)
    ensures Init(s) && s.Names("l") == ["a", "b"] && forall k :: 0 <= k < |actions| ==> !actions[k].Crash?
    ensures var t := Run(s, actions);
            t.At("l").Idle? && "l" !in t.spoiled && t.Owns("l", "a") && !t.Owns("l", "b")
  {
    hide Run, Step, FirstClaimed, BlindRollback, Init;
    s := PAIR;
    var first := ReachesFirstClaim();
    NobodySpoiled(s, first);
    var t := Run(s, first);
    SecondClaimConflicts(t, "l", "a", "b");
    RollsBackBlindly(Step(Step(t, TouchEndpoint("b")), Claim("l", Answered)), "l", "a", "b");
    actions := Then(s, first, TouchEndpoint("b"));
    actions := Then(s, actions, Claim("l", Answered));
    actions := Then(s, actions, ReleaseRead("l", false));
    actions := Then(s, actions, ReleaseRead("l", false));
    actions := Then(s, actions, Finish("l"));
  }
}
