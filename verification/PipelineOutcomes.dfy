/**
 What the outcomes of the derivations do to the stored conditions: whole reconciles of each controller, and over
 every run the outcome behind each status write.
 */
module PipelineOutcomes {
  import opened Options
  import opened Pipeline

  // ---------------------------------------------------------------- the outcome a worker was last told

  /**
   The outcome that a controller's worker last met, of those that end in a status write: of the check of the device
   specs, of a failure to build or apply them, or of applying the claims.
   */
  ghost function Told(s: State, actions: seq<Action>, c: Controller): Option<Outcome>
    requires WellFormed(s)
  {
    if actions == [] then None
    else
      var k := |actions| - 1;
      var t, a := Run(s, actions[..k]), actions[k];
      if c == Device && a.CheckDevices? && t.device.pc.Applied? then Some(a.r)
      else if c == Device && a == BuildDevices(false) && t.device.pc.Designed? then Some(CallFailed)
      else if c == Device && a == ApplyDevices(false) && t.device.pc.Built? then Some(CallFailed)
      else if c == Params && a.ApplyClaims? && t.params.pc.Designed? then Some(if a.ok then AllReady else CallFailed)
      else Told(s, actions[..k], c)
  }

  /** The status that an outcome asks the device controller to write over that of its snapshot. */
  predicate DeviceStatus(o: Status, r: Outcome, st: Status) {
    && st.refs == o.refs && st.ready == o.ready
    && match r
       case AllReady => st.device.True? && st.param == o.param
       case StillProcessing => st.device.Processing? && st.param == o.param
       case SomeFailed => st.param.Failed? && st.device == o.device
       case CallFailed => st.param.Failed? && st.device == o.device
  }

  predicate ParamsStatus(o: Status, r: Outcome, st: Status) {
    && st.refs == o.refs && st.ready == o.ready && st.device == o.device
    && (if r.AllReady? then st.param.True? else st.param.Failed?)
  }

  /** What a worker is about to write is what its last outcome asks for. */
  predicate WritesTold(t: State, told: Option<Outcome>, c: Controller)
    requires WellFormed(t)
  {
    t.W(c).pc.Writing? ==>
      told.Some? &&
      var o, st := t.hist[t.W(c).pc.v].status, t.W(c).pc.status;
      match c
      case Device => DeviceStatus(o, told.value, st)
      case Params => ParamsStatus(o, told.value, st)
      case Net => true
  }

  lemma ToldStep(s: State, actions: seq<Action>, c: Controller)
    requires WellFormed(s) && actions != [] && c != Net
    requires var k := |actions| - 1;
             var t, told := Run(s, actions[..k]), Told(s, actions[..k], c);
             WellFormed(t) && WritesTold(t, told, c)
    ensures WritesTold(Run(s, actions), Told(s, actions, c), c)
  {
    var k := |actions| - 1;
    var t, u, a := Run(s, actions[..k]), Run(s, actions), actions[k];
    StepMovesForward(t, a, u);
    if Actor(a) != Some(c) {
      OwnEffects(t, a, u, c);
      assert u.W(c) == t.W(c);
      assert !t.W(c).pc.Idle? ==> u.hist[t.W(c).pc.v] == t.hist[t.W(c).pc.v];
    } else if c == Params {
      ParamsToldStep(t, a, u);
    } else {
      DeviceToldStep(t, a, u);
    }
  }

  lemma ParamsToldStep(t: State, a: Action, u: State)
    requires WellFormed(t) && u == Step(t, a) && Actor(a) == Some(Params) && t.hist <= u.hist && WellFormed(u)
    ensures u.params.pc.Writing? && u.params.pc != t.params.pc ==>
              a.ApplyClaims? && t.params.pc.Designed? && u.hist == t.hist &&
              ParamsStatus(u.hist[u.params.pc.v].status, if a.ok then AllReady else CallFailed, u.params.pc.status)
    ensures u.params.pc.Writing? && u.params.pc == t.params.pc ==>
              u.hist == t.hist && !(a.ApplyClaims? && t.params.pc.Designed?)
  {
  }

  lemma DeviceToldStep(t: State, a: Action, u: State)
    requires WellFormed(t) && u == Step(t, a) && Actor(a) == Some(Device) && t.hist <= u.hist && WellFormed(u)
    ensures u.device.pc.Writing? && u.device.pc != t.device.pc ==>
              && u.hist == t.hist
              && (a.CheckDevices? || a == BuildDevices(false) || a == ApplyDevices(false))
              && (a.CheckDevices? ==> t.device.pc.Applied?)
              && (a.BuildDevices? ==> t.device.pc.Designed?)
              && (a.ApplyDevices? ==> t.device.pc.Built?)
              && DeviceStatus(u.hist[u.device.pc.v].status, if a.CheckDevices? then a.r else CallFailed,
                              u.device.pc.status)
    ensures u.device.pc.Writing? && u.device.pc == t.device.pc ==>
              u.hist == t.hist && t.device.pc.Writing?
  {
  }

  lemma {:induction false} RunKeepsTold(s: State, actions: seq<Action>, c: Controller)
    requires Init(s) && c != Net
    ensures WritesTold(Run(s, actions), Told(s, actions, c), c)
  {
    if actions != [] {
      RunKeepsTold(s, actions[..|actions| - 1], c);
      ToldStep(s, actions, c);
    }
  }

  // ---------------------------------------------------------------- status writes over every run

  /**
   Over every run: a status write of the device controller that takes effect stores its conditions as the last outcome
   asks. Only a check that found all devices ready leaves the device condition True, and after a failure neither
   condition is.
   */
  lemma DeviceWriteTellsOutcome(s: State, actions: seq<Action>)
    requires Init(s)
    ensures var t := Run(s, actions);
            var u, told := Step(t, WriteStatus(Device)), Told(s, actions, Device);
            u.hist != t.hist ==>
              && told.Some? && u.hist == t.hist + [u.Last()] && u.Last().spec == t.Last().spec
              && u.Last().status.refs == t.Last().status.refs
              && (u.Last().status.device.True? <==> told.value.AllReady?)
              && (u.Last().status.param.True? <==> told.value.AllReady? || told.value.StillProcessing?)
  {
    RunKeepsBase(s, actions);
    RunKeepsTold(s, actions, Device);
    var t := Run(s, actions);
    assert PcInv(t, Device) && t.W(Device) == t.device;
  }

  lemma ParamsWriteTellsOutcome(s: State, actions: seq<Action>)
    requires Init(s)
    ensures var t := Run(s, actions);
            var u, told := Step(t, WriteStatus(Params)), Told(s, actions, Params);
            u.hist != t.hist ==>
              && told.Some? && u.hist == t.hist + [u.Last()] && u.Last().spec == t.Last().spec
              && u.Last().status.refs == t.Last().status.refs && u.Last().status.device == t.Last().status.device
              && (u.Last().status.param.True? <==> told.value.AllReady?)
  {
    RunKeepsTold(s, actions, Params);
    var t := Run(s, actions);
    assert t.W(Params) == t.params;
  }

  /** Step k of the run stored version i by a status write of c after an outcome of success. */
  ghost predicate StoredBySuccess(s: State, actions: seq<Action>, c: Controller, i: nat, k: nat)
    requires WellFormed(s)
  {
    && k < |actions| && actions[k] == WriteStatus(c) && |Run(s, actions[..k]).hist| == i
    && Told(s, actions[..k], c) == Some(AllReady)
  }

  predicate ConditionOf(o: Network, c: Controller) {
    if c == Device then o.status.device.True? else o.status.param.True?
  }

  /**
   Over every run: wherever a child condition turns True between consecutive stored objects, its own controller wrote
   it, and that worker's last outcome was success: all devices were found ready, or the claims had been applied.
   */
  lemma {:induction false} ReadyOnlyAfterSuccess(s: State, actions: seq<Action>, c: Controller, i: nat) returns (k: nat)
    requires Init(s) && c != Net && 0 < i < |Run(s, actions).hist|
    requires !ConditionOf(Run(s, actions).hist[i - 1], c) && ConditionOf(Run(s, actions).hist[i], c)
    ensures StoredBySuccess(s, actions, c, i, k)
  {
    assert actions != [];
    hide Step, Told, Base, ConditionOf, StoredBySuccess, Run;
    k := |actions| - 1;
    var front := actions[..k];
    LastStep(s, actions);
    if i < |Run(s, front).hist| {
      k := ReadyOnlyAfterSuccess(s, front, c, i);
      StoredEarlier(s, actions, c, i, k);
    } else {
      StoredLast(s, actions, c, i);
    }
  }

  lemma LastStep(s: State, actions: seq<Action>)
    requires Init(s)
    ensures actions == [] ==> |Run(s, actions).hist| == 1
    ensures actions != [] ==>
              var front := actions[..|actions| - 1];
              && Run(s, actions) == Step(Run(s, front), actions[|actions| - 1])
              && Run(s, front).hist <= Run(s, actions).hist && |Run(s, actions).hist| <= |Run(s, front).hist| + 1
  {
    if actions != [] {
      var front := actions[..|actions| - 1];
      RunKeepsBase(s, front);
      StepMovesForward(Run(s, front), actions[|actions| - 1], Run(s, actions));
      OneMore(Run(s, front), actions[|actions| - 1], Run(s, actions));
    }
  }

  lemma StoredEarlier(s: State, actions: seq<Action>, c: Controller, i: nat, k: nat)
    requires WellFormed(s) && actions != [] && StoredBySuccess(s, actions[..|actions| - 1], c, i, k)
    ensures StoredBySuccess(s, actions, c, i, k)
  {
    hide Run, Told;
    var front := actions[..|actions| - 1];
    assert front[..k] == actions[..k] && front[k] == actions[k];
  }

  lemma StoredLast(s: State, actions: seq<Action>, c: Controller, i: nat)
    requires Init(s) && c != Net && actions != []
    requires var t := Run(s, actions[..|actions| - 1]);
             0 < i && |t.hist| <= i < |Run(s, actions).hist|
    requires !ConditionOf(Run(s, actions).hist[i - 1], c) && ConditionOf(Run(s, actions).hist[i], c)
    ensures StoredBySuccess(s, actions, c, i, |actions| - 1)
  {
    hide Step, Told, Base, ConditionOf, Run;
    var k := |actions| - 1;
    var t, u := Run(s, actions[..k]), Run(s, actions);
    LastStep(s, actions);
    RunKeepsBase(s, actions[..k]);
    assert i == |t.hist|;
    LastWrite(t, actions[k], u, c);
    WriteAfterSuccess(s, actions[..k], c);
  }

  lemma OneMore(t: State, a: Action, u: State)
    requires Base(t) && u == Step(t, a)
    ensures |u.hist| <= |t.hist| + 1
  {
    StepAppends(t, a, u);
  }

  lemma WriteAfterSuccess(s: State, actions: seq<Action>, c: Controller)
    requires Init(s) && c != Net
    ensures var t := Run(s, actions);
            var u := Step(t, WriteStatus(c));
            u.hist != t.hist && ConditionOf(u.Last(), c) ==> Told(s, actions, c) == Some(AllReady)
  {
    hide Step, Told;
    if c == Device {
      DeviceWriteTellsOutcome(s, actions);
    } else {
      ParamsWriteTellsOutcome(s, actions);
    }
  }

  /** A step that appends an object with a condition newly True is its controller's status write. */
  lemma LastWrite(t: State, a: Action, u: State, c: Controller)
    requires Base(t) && u == Step(t, a) && c != Net && |t.hist| < |u.hist|
    requires !ConditionOf(u.hist[|t.hist| - 1], c) && ConditionOf(u.hist[|t.hist|], c)
    ensures a == WriteStatus(c) && |u.hist| == |t.hist| + 1 && u.Last() == u.hist[|t.hist|]
    ensures u.hist[|t.hist| - 1] == t.Last()
  {
    StepAppends(t, a, u);
  }

  // ---------------------------------------------------------------- whole reconciles

  lemma RunOne(s: State, actions: seq<Action>, a: Action)
    requires WellFormed(s)
    ensures WellFormed(Step(Run(s, actions), a)) && Run(s, actions + [a]) == Step(Run(s, actions), a)
  {
    assert (actions + [a])[..|actions|] == actions;
    StepWellFormed(Run(s, actions), a, Step(Run(s, actions), a));
  }

  /** The cache shows the stored version, and the controller's worker is free. */
  predicate Ready(s: State, c: Controller) {
    WellFormed(s) && s.W(c).pc.Idle? && s.seen == |s.hist| - 1
  }

  lemma ThreeActions(s: State, a: Action, b: Action, c: Action)
    requires WellFormed(s)
    ensures WellFormed(Step(s, a)) && WellFormed(Step(Step(s, a), b))
    ensures Run(s, [a, b, c]) == Step(Step(Step(s, a), b), c)
  {
    hide Step;
    RunOne(s, [], a);
    RunOne(s, [a], b);
    RunOne(s, [a, b], c);
    assert [] + [a] == [a] && [a] + [b] == [a, b] && [a, b] + [c] == [a, b, c] && Run(s, []) == s;
  }

  lemma FourActions(s: State, a: Action, b: Action, c: Action, d: Action)
    requires WellFormed(s)
    ensures WellFormed(Run(s, [a, b, c])) && Run(s, [a, b, c, d]) == Step(Run(s, [a, b, c]), d)
  {
    RunOne(s, [a, b, c], d);
    assert [a, b, c] + [d] == [a, b, c, d];
  }

  /**
   An undisturbed reconcile of the params controller: it acts exactly when the parameter condition is not True, stores
   claims derived from the stored version and the design in the cache, and then True, or Failed if that fails. Without
   a design it writes nothing.
   */
  lemma ParamsReconcile(s: State, found: bool, ok: bool)
    requires Ready(s, Params)
    ensures var t := Run(s, [Get(Params), GetDesign(Params, found), ApplyClaims(ok), WriteStatus(Params)]);
            var o := s.Last();
            if o.status.param.True? || !found then t.hist == s.hist && t.claims == s.claims
            else
              && t.claims == (if ok then Some(Claims(|s.hist| - 1, s.seenDesign)) else None)
              && t.hist == s.hist + [Network(o.spec, Status(o.status.refs, if ok then True else Failed, o.status.device,
                                                            o.status.ready))]
  {
    hide Step;
    ThreeActions(s, Get(Params), GetDesign(Params, found), ApplyClaims(ok));
    FourActions(s, Get(Params), GetDesign(Params, found), ApplyClaims(ok), WriteStatus(Params));
    ParamsDesigned(s, found);
    ParamsFinish(s, Step(Step(s, Get(Params)), GetDesign(Params, found)), found, ok);
  }

  lemma ParamsDesigned(s: State, found: bool)
    requires Ready(s, Params)
    ensures var t := Step(Step(s, Get(Params)), GetDesign(Params, found));
            && t.hist == s.hist && t.claims == s.claims
            && t.params.pc == if s.Last().status.param.True? || !found then Idle
                              else Designed(|s.hist| - 1, s.seenDesign)
  {
    var t := Step(s, Get(Params));
    assert s.W(Params) == s.params && t.W(Params) == t.params;
  }

  lemma ParamsFinish(s: State, t: State, found: bool, ok: bool)
    requires WellFormed(s) && WellFormed(t) && t.hist == s.hist && t.claims == s.claims
    requires t.params.pc == if s.Last().status.param.True? || !found then Idle else Designed(|s.hist| - 1, s.seenDesign)
    ensures WellFormed(Step(t, ApplyClaims(ok)))
    ensures var u, o := Step(Step(t, ApplyClaims(ok)), WriteStatus(Params)), s.Last();
            if o.status.param.True? || !found then u.hist == s.hist && u.claims == s.claims
            else
              && u.claims == (if ok then Some(Claims(|s.hist| - 1, s.seenDesign)) else None)
              && u.hist == s.hist + [Network(o.spec, Status(o.status.refs, if ok then True else Failed, o.status.device,
                                                            o.status.ready))]
  {
    StepWellFormed(t, ApplyClaims(ok), Step(t, ApplyClaims(ok)));
    var t1 := Step(t, ApplyClaims(ok));
    assert t1.W(Params) == t1.params;
  }

  lemma SixActions(s: State, a: Action, b: Action, c: Action, d: Action, e: Action, f: Action)
    requires WellFormed(s)
    ensures WellFormed(Run(s, [a, b, c])) && WellFormed(Step(Run(s, [a, b, c]), d))
    ensures WellFormed(Step(Step(Run(s, [a, b, c]), d), e))
    ensures Run(s, [a, b, c, d, e, f]) == Step(Step(Step(Run(s, [a, b, c]), d), e), f)
  {
    hide Step;
    RunOne(s, [a, b, c], d);
    RunOne(s, [a, b, c, d], e);
    RunOne(s, [a, b, c, d, e], f);
    assert [a, b, c] + [d] == [a, b, c, d] && [a, b, c, d] + [e] == [a, b, c, d, e];
    assert [a, b, c, d, e] + [f] == [a, b, c, d, e, f];
  }

  /**
   An undisturbed reconcile of the device controller: it acts exactly when the parameters are ready and the devices are
   not, stores device specs built from the stored version, the design in the cache and the stored claims, and then the
   device condition by what it finds of the devices; a failure of any kind stores the parameter condition as Failed.
   */
  lemma DeviceReconcile(s: State, found: bool, built: bool, applied: bool, r: Outcome)
    requires Ready(s, Device)
    ensures var t := Run(s, [Get(Device), GetDesign(Device, found), BuildDevices(built), ApplyDevices(applied),
                             CheckDevices(r), WriteStatus(Device)]);
            var o := s.Last();
            if !o.status.param.True? || o.status.device.True? || !found then t.hist == s.hist && t.devices == s.devices
            else
              && t.devices == (if !built then s.devices
                               else if !applied then None
                               else Some(Devices(|s.hist| - 1, s.seenDesign, s.claims)))
              && t.hist == s.hist + [Network(o.spec, o.status.(
                                       param := if built && applied && (r.AllReady? || r.StillProcessing?) then True
                                                else Failed,
                                       device := if !built || !applied then o.status.device
                                                 else if r.AllReady? then True
                                                 else if r.StillProcessing? then Processing
                                                 else o.status.device))]
  {
    var c := [Get(Device), GetDesign(Device, found), BuildDevices(built)];
    ThreeActions(s, Get(Device), GetDesign(Device, found), BuildDevices(built));
    SixActions(s, Get(Device), GetDesign(Device, found), BuildDevices(built), ApplyDevices(applied), CheckDevices(r),
               WriteStatus(Device));
    var t := Run(s, c);
    DeviceBuilt(s, found, built);
    DeviceFinish(s, t, found, built, applied, r);
  }

  /** Whether the device controller acts on the stored version. */
  predicate DeviceDue(s: State, found: bool)
    requires s.hist != []
  {
    s.Last().status.param.True? && !s.Last().status.device.True? && found
  }

  lemma DeviceBuilt(s: State, found: bool, built: bool)
    requires Ready(s, Device)
    ensures var t := Step(Step(Step(s, Get(Device)), GetDesign(Device, found)), BuildDevices(built));
            var v := |s.hist| - 1;
            && t.hist == s.hist && t.devices == s.devices && t.claims == s.claims && t.seenDesign == s.seenDesign
            && t.device.pc == if !DeviceDue(s, found) then Idle
                              else if built then Built(v, s.seenDesign, s.claims)
                              else Writing(v, s.Last().status.(param := Failed))
  {
    var t := Step(s, Get(Device));
    assert s.W(Device) == s.device && t.W(Device) == t.device;
  }

  lemma DeviceFinish(s: State, t: State, found: bool, built: bool, applied: bool, r: Outcome)
    requires Ready(s, Device) && WellFormed(t)
    requires t.hist == s.hist && t.devices == s.devices && t.claims == s.claims && t.seenDesign == s.seenDesign
    requires t.device.pc == if !DeviceDue(s, found) then Idle
                            else if built then Built(|s.hist| - 1, s.seenDesign, s.claims)
                            else Writing(|s.hist| - 1, s.Last().status.(param := Failed))
    ensures WellFormed(Step(t, ApplyDevices(applied)))
    ensures WellFormed(Step(Step(t, ApplyDevices(applied)), CheckDevices(r)))
    ensures var u := Step(Step(Step(t, ApplyDevices(applied)), CheckDevices(r)), WriteStatus(Device));
            var o := s.Last();
            if !DeviceDue(s, found) then u.hist == s.hist && u.devices == s.devices
            else
              && u.devices == (if !built then s.devices
                               else if !applied then None
                               else Some(Devices(|s.hist| - 1, s.seenDesign, s.claims)))
              && u.hist == s.hist + [Network(o.spec, o.status.(
                                       param := if built && applied && (r.AllReady? || r.StillProcessing?) then True
                                                else Failed,
                                       device := if !built || !applied then o.status.device
                                                 else if r.AllReady? then True
                                                 else if r.StillProcessing? then Processing
                                                 else o.status.device))]
  {
    StepWellFormed(t, ApplyDevices(applied), Step(t, ApplyDevices(applied)));
    var t1 := Step(t, ApplyDevices(applied));
    StepWellFormed(t1, CheckDevices(r), Step(t1, CheckDevices(r)));
  }

  /**
   An undisturbed reconcile of the network controller: references that have changed are stored and both children reset;
   otherwise only Ready is recomputed from them, through a deployment if both are True. The outcome r of the deployment
   leaves no trace.
   */
  lemma NetworkReconcile(s: State, found: bool, r: Outcome)
    requires Ready(s, Net)
    ensures var t := Run(s, [Get(Net), GetDesign(Net, found), Deploy(r), WriteStatus(Net)]);
            var o, refs := s.Last(), Some(Refs(s.Last().spec, s.seenDesign));
            t.hist == s.hist + [Network(o.spec, if found && o.status.refs != refs
                                                then Status(refs, Processing, Processing, false)
                                                else Status(o.status.refs, o.status.param, o.status.device,
                                                            o.status.param.True? && o.status.device.True?))]
  {
    hide Step;
    ThreeActions(s, Get(Net), GetDesign(Net, found), Deploy(r));
    FourActions(s, Get(Net), GetDesign(Net, found), Deploy(r), WriteStatus(Net));
    NetworkDesigned(s, found);
    NetworkFinish(s, Step(Step(s, Get(Net)), GetDesign(Net, found)), found, r);
  }

  /** The references in the status are not those of the stored version and the design in the cache. */
  predicate Changed(s: State, found: bool)
    requires s.hist != []
  {
    found && s.Last().status.refs != Some(Refs(s.Last().spec, s.seenDesign))
  }

  function Reset(s: State): Status
    requires s.hist != []
  {
    Status(Some(Refs(s.Last().spec, s.seenDesign)), Processing, Processing, false)
  }

  function Recomputed(st: Status): Status {
    Status(st.refs, st.param, st.device, st.param.True? && st.device.True?)
  }

  lemma NetworkDesigned(s: State, found: bool)
    requires Ready(s, Net)
    ensures var t, st := Step(Step(s, Get(Net)), GetDesign(Net, found)), s.Last().status;
            && t.hist == s.hist
            && t.net.pc == if Changed(s, found) then Writing(|s.hist| - 1, Reset(s))
                           else if found && st.param.True? && st.device.True? then Deploying(|s.hist| - 1, s.seenDesign)
                           else Writing(|s.hist| - 1, Recomputed(st))
  {
    var t := Step(s, Get(Net));
    assert s.W(Net) == s.net && t.W(Net) == t.net;
  }

  lemma NetworkFinish(s: State, t: State, found: bool, r: Outcome)
    requires WellFormed(s) && WellFormed(t) && t.hist == s.hist
    requires var st := s.Last().status;
             t.net.pc == if Changed(s, found) then Writing(|s.hist| - 1, Reset(s))
                         else if found && st.param.True? && st.device.True? then Deploying(|s.hist| - 1, s.seenDesign)
                         else Writing(|s.hist| - 1, Recomputed(st))
    ensures WellFormed(Step(t, Deploy(r)))
    ensures Step(Step(t, Deploy(r)), WriteStatus(Net)).hist ==
            s.hist + [s.Last().(status := if Changed(s, found) then Reset(s) else Recomputed(s.Last().status))]
  {
    StepWellFormed(t, Deploy(r), Step(t, Deploy(r)));
    var t1 := Step(t, Deploy(r));
    assert t1.W(Net) == t1.net;
  }
}
