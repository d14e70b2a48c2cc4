/**
 Rounds of the pipeline: what one undisturbed reconcile of each controller does. Calm rounds always reach a
 deployment, up to five of them are needed, and concrete runs reach a risky read of either deriving controller.
 */
module PipelineRuns {
  import opened Options
  import opened Pipeline
  import opened PipelineDeploys
  import opened PipelineStale

  /** A run so far: its last state, how often it changed the stage, and whether all of it was calm. */
  ghost predicate Sofar(s: State, actions: seq<Action>, t: State, moves: nat, calm: bool) {
    WellFormed(s) && WellFormed(t) && Run(s, actions) == t && Moves(s, actions) == moves &&
    (calm ==> forall k :: 0 <= k < |actions| ==> Calm(actions[k]))
  }

  lemma Then(s: State, actions: seq<Action>, t: State, moves: nat, calm: bool, a: Action, u: State)
    returns (more: seq<Action>, n: nat)
    requires Sofar(s, actions, t, moves, calm) && u == Step(t, a)
    ensures more == actions + [a] && Sofar(s, more, u, n, calm && Calm(a))
    ensures n == moves + (if Stage(u.Last()) != Stage(t.Last()) then 1 else 0)
  {
    more := actions + [a];
    assert more[..|more| - 1] == actions;
    n := Moves(s, more);
  }

  predicate AtRest(t: State) {
    WellFormed(t) && t.params.pc.Idle? && t.device.pc.Idle? && t.net.pc.Idle? && t.seen == |t.hist| - 1
  }

  /** The write of a controller that read the stored version, and its arrival in the cache. */
  function Published(t: State, c: Controller, st: Status): State
    requires t.hist != []
  {
    t.(hist := t.hist + [t.Last().(status := st)], seen := |t.hist|).Put(c, Worker(Idle, |t.hist|))
  }

  lemma Publish(s: State, actions: seq<Action>, t: State, c: Controller, st: Status, moves: nat, calm: bool)
    returns (more: seq<Action>, n: nat)
    requires Sofar(s, actions, t, moves, calm) && t.W(c).pc == Writing(|t.hist| - 1, st) && Counts(c, t.Last(), st)
    ensures Sofar(s, more, Published(t, c, st), n, calm)
    ensures n == moves + (if Stage(t.Last().(status := st)) != Stage(t.Last()) then 1 else 0)
  {
    hide Run, Moves;
    var t1 := Published(t, c, st).(seen := t.seen);
    more, n := Then(s, actions, t, moves, calm, WriteStatus(c), t1);
    more, n := Then(s, more, t1, n, calm, SyncNetwork(|t.hist|), Published(t, c, st));
  }

  /** The params controller derives the claims, and its write reaches the cache. */
  function ParamsDone(t: State): State
    requires t.hist != []
  {
    Published(t.(claims := Some(Claims(t.seen, t.seenDesign))), Params, t.Last().status.(param := True))
  }

  lemma ParamsSteps(t: State, t1: State, t2: State, t3: State)
    requires AtRest(t) && !t.Last().status.param.True?
    requires t1 == t.(params := Worker(Read(t.seen), t.params.own))
    requires t2 == t.(params := Worker(Designed(t.seen, t.seenDesign), t.params.own))
    requires t3 == t.(claims := Some(Claims(t.seen, t.seenDesign)),
                      params := Worker(Writing(t.seen, t.Last().status.(param := True)), t.params.own))
    ensures Step(t, Get(Params)) == t1 && Step(t1, GetDesign(Params, true)) == t2 && Step(t2, ApplyClaims(true)) == t3
  {
  }

  lemma ParamsRound(s: State, actions: seq<Action>, t: State, moves: nat, calm: bool)
    returns (more: seq<Action>, n: nat)
    requires Sofar(s, actions, t, moves, calm) && AtRest(t) && !t.Last().status.param.True?
    ensures Sofar(s, more, ParamsDone(t), n, calm) && n == moves + 1
  {
    hide Step, Run, Moves, Sofar;
    var v, d, own := t.seen, t.seenDesign, t.params.own;
    var st := t.Last().status.(param := True);
    var t1 := t.(params := Worker(Read(v), own));
    var t2 := t.(params := Worker(Designed(v, d), own));
    var t3 := t.(claims := Some(Claims(v, d)), params := Worker(Writing(v, st), own));
    ParamsSteps(t, t1, t2, t3);
    more, n := Then(s, actions, t, moves, calm, Get(Params), t1);
    more, n := Then(s, more, t1, n, calm, GetDesign(Params, true), t2);
    more, n := Then(s, more, t2, n, calm, ApplyClaims(true), t3);
    more, n := Publish(s, more, t3, Params, st, n, calm);
  }

  /** The device controller, having read version v, derives with the design now in the cache. */
  function Rederived(t: State, v: nat): State {
    t.(devices := Some(Devices(v, t.seenDesign, t.claims)),
       device := Worker(Applied(v, t.seenDesign, t.claims), t.device.own))
  }

  lemma DeviceDerives(s: State, actions: seq<Action>, t: State, v: nat, moves: nat, calm: bool)
    returns (more: seq<Action>, n: nat)
    requires Sofar(s, actions, t, moves, calm) && t.device.pc == Read(v)
    ensures Sofar(s, more, Rederived(t, v), n, calm) && n == moves && actions <= more
  {
    hide Run, Moves, Sofar;
    var d, c, own := t.seenDesign, t.claims, t.device.own;
    var t1 := t.(device := Worker(Designed(v, d), own));
    var t2 := t.(device := Worker(Built(v, d, c), own));
    more, n := Then(s, actions, t, moves, calm, GetDesign(Device, true), t1);
    more, n := Then(s, more, t1, n, calm, BuildDevices(true), t2);
    more, n := Then(s, more, t2, n, calm, ApplyDevices(true), Rederived(t, v));
  }

  function DeviceReads(t: State): State {
    t.(device := Worker(Read(t.seen), t.device.own))
  }

  function ReadyStored(t: State): State
    requires t.hist != []
  {
    t.(hist := t.hist + [t.Last().(status := t.Last().status.(device := True))], device := Worker(Idle, |t.hist|))
  }

  function DeviceStored(t: State): State
    requires t.hist != []
  {
    ReadyStored(Rederived(DeviceReads(t), t.seen))
  }

  lemma DeviceWrites(s: State, actions: seq<Action>, t: State, moves: nat, calm: bool)
    returns (more: seq<Action>, n: nat)
    requires t.hist != [] && t.device.pc.Applied? && t.device.pc.v == |t.hist| - 1 && !t.Last().status.device.True?
    requires Sofar(s, actions, t, moves, calm)
    ensures Sofar(s, more, ReadyStored(t), n, calm)
    ensures n == moves + 1
  {
    hide Run, Moves;
    var st := t.Last().status.(device := True);
    var t1 := t.(device := Worker(Writing(|t.hist| - 1, st), t.device.own));
    more, n := Then(s, actions, t, moves, calm, CheckDevices(AllReady), t1);
    more, n := Then(s, more, t1, n, calm, WriteStatus(Device), ReadyStored(t));
  }

  lemma DeviceStarts(t: State)
    requires AtRest(t) && t.Last().status.param.True? && !t.Last().status.device.True?
    ensures Step(t, Get(Device)) == DeviceReads(t)
  {
    assert Proceeds(Device, t.hist[t.seen].status);
  }

  /** The device controller derives the device specs; its write has not reached the cache yet. */
  lemma DeviceRound(s: State, actions: seq<Action>, t: State, moves: nat, calm: bool)
    returns (more: seq<Action>, n: nat)
    requires Sofar(s, actions, t, moves, calm) && AtRest(t) && t.Last().status.param.True? &&
             !t.Last().status.device.True?
    ensures Sofar(s, more, DeviceStored(t), n, calm) && n == moves + 1
  {
    hide Step, Run, Moves, Sofar;
    var t1 := DeviceReads(t);
    DeviceStarts(t);
    more, n := Then(s, actions, t, moves, calm, Get(Device), t1);
    more, n := DeviceDerives(s, more, t1, t.seen, n, calm);
    var t2 := Rederived(t1, t.seen);
    assert t2.hist == t.hist;
    more, n := DeviceWrites(s, more, t2, n, calm);
  }

  function Reset(t: State): Status
    requires t.hist != []
  {
    Status(Some(Refs(t.Last().spec, t.seenDesign)), Processing, Processing, false)
  }

  function ResetDone(t: State): State
    requires t.hist != []
  {
    Published(t, Net, Reset(t))
  }

  lemma ResetSteps(t: State, t1: State, t2: State)
    requires AtRest(t) && t.Last().status.refs != Some(Refs(t.Last().spec, t.seenDesign))
    requires t1 == t.(net := Worker(Read(t.seen), t.net.own))
    requires t2 == t.(net := Worker(Writing(t.seen, Reset(t)), t.net.own))
    ensures Step(t, Get(Net)) == t1 && Step(t1, GetDesign(Net, true)) == t2
  {
  }

  /** The network controller notes changed references and resets both children. */
  lemma ResetRound(s: State, actions: seq<Action>, t: State, moves: nat, calm: bool) returns (more: seq<Action>, n: nat)
    requires Sofar(s, actions, t, moves, calm) && AtRest(t) &&
             t.Last().status.refs != Some(Refs(t.Last().spec, t.seenDesign))
    ensures Sofar(s, more, ResetDone(t), n, calm) && n == moves + 1
  {
    hide Step, Run, Moves, Sofar;
    var t1 := t.(net := Worker(Read(t.seen), t.net.own));
    var t2 := t.(net := Worker(Writing(t.seen, Reset(t)), t.net.own));
    ResetSteps(t, t1, t2);
    more, n := Then(s, actions, t, moves, calm, Get(Net), t1);
    more, n := Then(s, more, t1, n, calm, GetDesign(Net, true), t2);
    more, n := Publish(s, more, t2, Net, Reset(t), n, calm);
  }

  const NOBODY := Worker(Idle, 0)
  const START := State([Network(0, Status(None, Absent, Absent, false))], 0, 0, 0, None, None, NOBODY, NOBODY, NOBODY)

  lemma NothingSofar(s: State, calm: bool)
    requires WellFormed(s)
    ensures Sofar(s, [], s, 0, calm)
  {
  }

  // ---------------------------------------------------------------- risky reads happen

  /** The params controller's write is stored, but has not reached the cache. */
  function ParamsStored(t: State): State
    requires t.hist != []
  {
    ParamsDone(t).(seen := t.seen)
  }

  lemma ParamsStores(s: State, actions: seq<Action>, t: State, moves: nat, calm: bool)
    returns (more: seq<Action>, n: nat)
    requires Sofar(s, actions, t, moves, calm) && AtRest(t) && !t.Last().status.param.True?
    ensures Sofar(s, more, ParamsStored(t), n, calm)
  {
    var v, d, own := t.seen, t.seenDesign, t.params.own;
    var st := t.Last().status.(param := True);
    var t1 := t.(params := Worker(Read(v), own));
    var t2 := t.(params := Worker(Designed(v, d), own));
    var t3 := t.(claims := Some(Claims(v, d)), params := Worker(Writing(v, st), own));
    ParamsSteps(t, t1, t2, t3);
    assert Step(t3, WriteStatus(Params)) == ParamsStored(t);
    hide Step, Run, Moves, Sofar;
    more, n := Then(s, actions, t, moves, calm, Get(Params), t1);
    more, n := Then(s, more, t1, n, calm, GetDesign(Params, true), t2);
    more, n := Then(s, more, t2, n, calm, ApplyClaims(true), t3);
    more, n := Then(s, more, t3, n, calm, WriteStatus(Params), ParamsStored(t));
  }

  /** From a fresh Network, a run to a risky read of the params controller and on to a stale deployment. */
  lemma StaleDeployThroughParams() returns (s: State, before: seq<Action>, actions: seq<Action>)
    ensures Init(s) && LeadsToStale(Run(s, before), Get(Params), actions)
  {
    s := START;
    var n;
    NothingSofar(s, false);
    before, n := ResetRound(s, [], s, 0, false);
    before, n := ParamsStores(s, before, ResetDone(s), n, false);
    var t := ParamsStored(ResetDone(s));
    assert Risky(t, Get(Params));
    RunKeepsPast(s, before);
    var u;
    actions, u := RiskyReadLeadsToStaleDeploy(t, Get(Params));
  }

  /** The same through the device controller. */
  lemma StaleDeployThroughDevice() returns (s: State, before: seq<Action>, actions: seq<Action>)
    ensures Init(s) && LeadsToStale(Run(s, before), Get(Device), actions)
  {
    s := START;
    var n;
    NothingSofar(s, false);
    before, n := ResetRound(s, [], s, 0, false);
    before, n := ParamsRound(s, before, ResetDone(s), n, false);
    before, n := DeviceRound(s, before, ParamsDone(ResetDone(s)), n, false);
    var t := DeviceStored(ParamsDone(ResetDone(s)));
    assert Risky(t, Get(Device));
    RunKeepsPast(s, before);
    var u;
    actions, u := RiskyReadLeadsToStaleDeploy(t, Get(Device));
  }

  // ---------------------------------------------------------------- progress

  ghost predicate AllCalm(actions: seq<Action>) {
    forall k :: 0 <= k < |actions| ==> Calm(actions[k])
  }

  lemma {:induction false} MovesAppend(s: State, a: seq<Action>, b: seq<Action>)
    requires WellFormed(s)
    ensures Moves(s, a + b) == Moves(s, a) + Moves(Run(s, a), b)
  {
    if b == [] {
      assert a + b == a;
    } else {
      var front := b[..|b| - 1];
      assert (a + b)[..|a + b| - 1] == a + front;
      MovesAppend(s, a, front);
      RunAppend(s, a, front);
      RunAppend(s, a, b);
    }
  }

  /**
   From rest, a round of the params, the device or the network controller changes the stage once, lowers the rank
   by exactly one, and ends at rest. The references are noted last.
   */
  lemma CalmRoundLowersRank(s: State) returns (actions: seq<Action>)
    requires Settled(s) && AtRest(s) && Rank(s.Last(), s.design) > 0
    ensures AllCalm(actions) && Moves(s, actions) == 1
    ensures var t := Run(s, actions);
            Settled(t) && AtRest(t) && t.design == s.design && Rank(t.Last(), t.design) == Rank(s.Last(), s.design) - 1
  {
    hide Step, Run, Moves, Base;
    var n, t;
    NothingSofar(s, true);
    RoundRanks(s);
    if !s.Last().status.param.True? {
      actions, n := ParamsRound(s, [], s, 0, true);
      t := ParamsDone(s);
    } else if !s.Last().status.device.True? {
      actions, n := DeviceRound(s, [], s, 0, true);
      t := DeviceStored(s).(seen := |s.hist|);
      actions, n := Then(s, actions, DeviceStored(s), n, true, SyncNetwork(|s.hist|), t);
    } else {
      actions, n := ResetRound(s, [], s, 0, true);
      t := ResetDone(s);
    }
    MovesBoundedByRank(s, actions);
  }

  /** What the three rounds do to the rank, each where it is due. */
  lemma RoundRanks(s: State)
    requires Settled(s) && AtRest(s) && Rank(s.Last(), s.design) > 0
    ensures var st, r := s.Last().status, Rank(s.Last(), s.design);
            if !st.param.True? then AtRest(ParamsDone(s)) && Rank(ParamsDone(s).Last(), s.design) == r - 1
            else if !st.device.True? then
              var t := DeviceStored(s);
              && WellFormed(t) && Step(t, SyncNetwork(|s.hist|)) == t.(seen := |s.hist|) && AtRest(t.(seen := |s.hist|))
              && Rank(t.Last(), s.design) == r - 1
            else st.refs != Some(Refs(s.Last().spec, s.seenDesign)) && AtRest(ResetDone(s)) &&
                 Rank(ResetDone(s).Last(), s.design) == r - 1
  {
    assert Staged(s.Last().status);
  }

  lemma TwoSteps(s: State, a: Action, b: Action)
    requires WellFormed(s)
    ensures WellFormed(Step(s, a)) && Run(s, [a, b]) == Step(Step(s, a), b)
    ensures Step(Step(s, a), b).hist == s.hist == Step(s, a).hist ==> Moves(s, [a, b]) == 0
  {
    hide Step;
    assert [a, b][..1] == [a] && [a][..0] == [];
    assert Run(s, [a]) == Step(Run(s, []), a) && Run(s, []) == s;
    assert Moves(s, [a]) == Moves(s, []) + if Stage(Run(s, [a]).Last()) != Stage(s.Last()) then 1 else 0;
    assert Moves(s, [a, b]) ==
           Moves(s, [a]) + if Stage(Run(s, [a, b]).Last()) != Stage(Run(s, [a]).Last()) then 1 else 0;
  }

  /**
   Progress, and the bound is met: from rest, with spec and design fixed and no failure, some calm run changes the
   stage exactly as often as the rank says and then deploys.
   */
  lemma BoundIsMet(s: State) returns (actions: seq<Action>)
    requires Settled(s) && AtRest(s)
    ensures AllCalm(actions) && Moves(s, actions) == Rank(s.Last(), s.design) && Run(s, actions).net.pc.Deploying?
    decreases Rank(s.Last(), s.design)
  {
    if Rank(s.Last(), s.design) == 0 {
      DeploysExactlyAtRankZero(s);
      actions := [Get(Net), GetDesign(Net, true)];
      TwoSteps(s, Get(Net), GetDesign(Net, true));
    } else {
      hide Step, Rank, Settled;
      var round := CalmRoundLowersRank(s);
      var rest := BoundIsMet(Run(s, round));
      actions := round + rest;
      MovesAppend(s, round, rest);
      RunAppend(s, round, rest);
    }
  }

  /** From rest, no calm run changes the stage more than k times if and only if the rank is at most k. */
  lemma BoundExactly(s: State, k: nat)
    requires Settled(s) && AtRest(s)
    ensures (forall actions :: AllCalm(actions) ==> Moves(s, actions) <= k) <==> Rank(s.Last(), s.design) <= k
  {
    hide Step, Rank, Settled;
    forall actions | AllCalm(actions)
      ensures Moves(s, actions) <= Rank(s.Last(), s.design)
    {
      MovesBoundedByRank(s, actions);
    }
    var actions := BoundIsMet(s);
  }

  /**
   Three stage changes, one for each controller, suffice from rest exactly when the references are already current,
   or both derivations are done, whatever they were derived from.
   */
  lemma ThreeExactly(s: State)
    requires Settled(s) && AtRest(s)
    ensures (forall actions :: AllCalm(actions) ==> Moves(s, actions) <= 3) <==>
              || s.Last().status.refs == Some(Refs(s.Last().spec, s.design))
              || (s.Last().status.param.True? && s.Last().status.device.True?)
  {
    BoundExactly(s, 3);
  }

  /** A fresh Network may take five: both derivations may run before the references are first recorded. */
  lemma FiveMovesHappen() returns (s: State, actions: seq<Action>)
    ensures Init(s) && Settled(s) && AllCalm(actions)
    ensures Moves(s, actions) == 5 && Run(s, actions).net.pc.Deploying?
  {
    s := START;
    actions := BoundIsMet(s);
  }
}
