/** The converse of NoStaleDeploy: every risky read can be continued to a stale deployment. */
module PipelineStale {
  import opened Options
  import opened Pipeline
  import opened PipelineDeploys

  /** The run from s leads to t, and no read after the first action is risky. */
  ghost predicate Leads(s: State, actions: seq<Action>, t: State) {
    && WellFormed(s) && WellFormed(t) && actions != [] && Run(s, actions) == t
    && forall k :: 0 < k < |actions| ==> !Risky(Run(s, actions[..k]), actions[k])
  }

  lemma Begin(s: State, a: Action, t: State) returns (actions: seq<Action>)
    requires WellFormed(s) && t == Step(s, a)
    ensures actions == [a] && Leads(s, actions, t)
  {
    actions := [a];
    assert actions[..0] == [] && Run(s, []) == s;
    StepWellFormed(s, a, t);
  }

  lemma Next(s: State, actions: seq<Action>, t: State, a: Action, u: State) returns (more: seq<Action>)
    requires Leads(s, actions, t) && u == Step(t, a) && !Risky(t, a)
    ensures more == actions + [a] && Leads(s, more, u) && WellFormed(u)
  {
    hide Step, Risky;
    more := actions + [a];
    assert more[..|actions|] == actions;
    forall k | 0 < k < |more|
      ensures !Risky(Run(s, more[..k]), more[k])
    {
      if k < |actions| {
        assert more[..k] == actions[..k];
      }
    }
    WellFormedRun(s, more);
  }

  lemma WellFormedRun(s: State, actions: seq<Action>)
    requires WellFormed(s)
    ensures WellFormed(Run(s, actions))
  {
  }

  lemma DeviceSteps(t: State, t1: State, t2: State, t3: State, t4: State, t5: State, t6: State, u: State)
    requires WellFormed(t) && t.device.pc.Idle? && t.seen == |t.hist| - 1
    requires t.Last().status.param.True? && !t.Last().status.device.True?
    requires t1 == t.Go(Device, Read(t.seen)) && t2 == t.Go(Device, Designed(t.seen, t.seenDesign))
    requires t3 == t.Go(Device, Built(t.seen, t.seenDesign, t.claims))
    requires t4 == t.(devices := Some(Devices(t.seen, t.seenDesign, t.claims)))
                    .Go(Device, Applied(t.seen, t.seenDesign, t.claims))
    requires t5 == t4.Go(Device, Writing(t.seen, t.Last().status.(device := True)))
    requires t6 == t4.(hist := t.hist + [t.Last().(status := t.Last().status.(device := True))],
                       device := Worker(Idle, |t.hist|))
    requires u == t6.(seen := |t.hist|)
    ensures WellFormed(t1) && WellFormed(t2) && WellFormed(t3) && WellFormed(t4) && WellFormed(t5) && WellFormed(t6)
    ensures Step(t, Get(Device)) == t1 && Step(t1, GetDesign(Device, true)) == t2 && Step(t2, BuildDevices(true)) == t3
    ensures Step(t3, ApplyDevices(true)) == t4 && Step(t4, CheckDevices(AllReady)) == t5
    ensures Step(t5, WriteStatus(Device)) == t6 && Step(t6, SyncNetwork(|t.hist|)) == u
  {
  }

  /** The device controller derives and declares the devices ready. */
  lemma DevicesGetReady(s: State, actions: seq<Action>, t: State) returns (more: seq<Action>, u: State)
    requires Leads(s, actions, t) && t.device.pc.Idle? && t.seen == |t.hist| - 1 && t.device.own <= t.seen
    requires t.Last().status.param.True? && !t.Last().status.device.True?
    ensures Leads(s, more, u) && actions <= more
    ensures u.hist == t.hist + [t.Last().(status := t.Last().status.(device := True))] && u.seen == |t.hist|
    ensures u.params == t.params && u.net == t.net && u.seenDesign == t.seenDesign && u.design == t.design
  {
    hide Run;
    var v, d, c := t.seen, t.seenDesign, t.claims;
    var st := t.Last().status.(device := True);
    var t1 := t.Go(Device, Read(v));
    var t2 := t.Go(Device, Designed(v, d));
    var t3 := t.Go(Device, Built(v, d, c));
    var t4 := t.(devices := Some(Devices(v, d, c))).Go(Device, Applied(v, d, c));
    var t5 := t4.Go(Device, Writing(v, st));
    var t6 := t4.(hist := t.hist + [t.Last().(status := st)], device := Worker(Idle, |t.hist|));
    u := t6.(seen := |t.hist|);
    DeviceSteps(t, t1, t2, t3, t4, t5, t6, u);
    hide Step, Leads;
    more := Next(s, actions, t, Get(Device), t1);
    more := Next(s, more, t1, GetDesign(Device, true), t2);
    more := Next(s, more, t2, BuildDevices(true), t3);
    more := Next(s, more, t3, ApplyDevices(true), t4);
    more := Next(s, more, t4, CheckDevices(AllReady), t5);
    more := Next(s, more, t5, WriteStatus(Device), t6);
    more := Next(s, more, t6, SyncNetwork(|t.hist|), u);
  }

  /** The network controller reads a stage that is ready under current references, and deploys. */
  lemma NetDeploys(s: State, actions: seq<Action>, t: State) returns (more: seq<Action>, u: State)
    requires Leads(s, actions, t) && t.net.pc.Idle?
    requires var o := t.hist[t.seen];
             o.status.param.True? && o.status.device.True? && o.status.refs == Some(Refs(o.spec, t.seenDesign))
    ensures Leads(s, more, u) && actions <= more
    ensures u == t.(net := Worker(Deploying(t.seen, t.seenDesign), t.net.own))
  {
    hide Run;
    var t1 := t.Go(Net, Read(t.seen));
    u := t.Go(Net, Deploying(t.seen, t.seenDesign));
    more := Next(s, actions, t, Get(Net), t1);
    more := Next(s, more, t1, GetDesign(Net, true), u);
  }

  lemma DevicesThenNet(s: State, actions: seq<Action>, t: State) returns (more: seq<Action>, u: State)
    requires Leads(s, actions, t) && t.device.pc.Idle? && t.net.pc.Idle?
    requires t.seen == |t.hist| - 1 && t.device.own <= t.seen
    requires t.Last().status.param.True? && !t.Last().status.device.True? && LiveNow(t)
    ensures Leads(s, more, u) && actions <= more
    ensures u.params == t.params && u.net.pc.Deploying? && u.net.pc.d <= u.design
  {
    hide Run, Risky;
    var ready, t1 := DevicesGetReady(s, actions, t);
    more, u := NetDeploys(s, ready, t1);
  }

  /** The design is edited, and the edit reaches the cache. */
  lemma DesignChanges(s: State, actions: seq<Action>, t: State) returns (more: seq<Action>, u: State)
    requires Leads(s, actions, t)
    ensures Leads(s, more, u) && actions <= more
    ensures u == t.(design := t.design + 1, seenDesign := t.design + 1)
  {
    hide Run;
    var t1 := t.(design := t.design + 1);
    u := t1.(seenDesign := t1.design);
    more := Next(s, actions, t, EditDesign, t1);
    more := Next(s, more, t1, SyncDesign(t1.design), u);
  }

  lemma {:induction false} StatusSince(s: State, k: nat, w: nat)
    requires Past(s) && s.seen + 1 <= k <= w < |s.hist|
    ensures s.hist[w].status == s.hist[k].status
  {
    if k < w {
      StatusSince(s, k, w - 1);
    }
  }

  /** The worker that read too early holds its snapshot; the other two start anew. */
  lemma ReadsEarly(s: State, c: Controller, to: nat) returns (actions: seq<Action>, t: State)
    requires Past(s) && Risky(s, Get(c)) && s.seen <= to < |s.hist|
    ensures Leads(s, actions, t) && actions[0] == Get(c)
    ensures t == s.(params := Worker(if c == Params then Read(s.seen) else Idle, s.params.own),
                    device := Worker(if c == Device then Read(s.seen) else Idle, s.device.own),
                    net := Worker(Idle, s.net.own), seen := to)
  {
    assert WellFormed(s);
    hide Past, Run;
    var other := if c == Params then Device else Params;
    var t1 := s.Go(c, Read(s.seen));
    var t2 := t1.Go(other, Idle);
    var t3 := t2.Go(Net, Idle);
    t := t3.(seen := to);
    actions := Begin(s, Get(c), t1);
    assert WellFormed(t1);
    actions := Next(s, actions, t1, Crash(other), t2);
    actions := Next(s, actions, t2, Crash(Net), t3);
    actions := Next(s, actions, t3, SyncNetwork(to), t);
  }

  /** When a params read is risky, the parameters were declared ready last, and nothing but edits came after. */
  lemma ParamsWroteLast(s: State)
    requires Past(s) && Risky(s, Get(Params))
    ensures s.Last().status.param.True? && !s.Last().status.device.True? && LiveNow(s)
    ensures WellFormed(s) && s.device.own <= |s.hist| - 1
  {
    assert Mark(s, Params) && Mark(s, Device) && s.W(Params) == s.params && s.W(Device) == s.device;
    StatusSince(s, s.seen + 1, |s.hist| - 1);
  }

  lemma ParamsReadEarly(s: State) returns (actions: seq<Action>, t: State)
    requires Past(s) && Risky(s, Get(Params))
    ensures Leads(s, actions, t) && actions[0] == Get(Params)
    ensures t.net.pc.Deploying? && t.params.pc.Read? && t.net.pc.d <= t.design
  {
    hide Past, Run, Risky;
    ParamsWroteLast(s);
    var first, t0 := ReadsEarly(s, Params, |s.hist| - 1);
    actions, t := DevicesThenNet(s, first, t0);
  }

  lemma DeviceReadEarly(s: State) returns (actions: seq<Action>, t: State)
    requires Past(s) && Risky(s, Get(Device))
    ensures Leads(s, actions, t) && actions[0] == Get(Device)
    ensures t.net.pc.Deploying? && t.device.pc.Read? && t.net.pc.d <= t.design
  {
    assert Mark(s, Device) && s.W(Device) == s.device;
    actions, t := ReadsEarly(s, Device, s.device.own);
    actions, t := NetDeploys(s, actions, t);
  }

  /**
   The converse: after any run, a risky read can be continued, without another one, to a state in which the
   network controller deploys what was not derived from its snapshot's spec and the design it read.
   */
  lemma RiskyReadLeadsToStaleDeploy(s: State, a: Action) returns (actions: seq<Action>, t: State)
    requires Past(s) && Risky(s, a)
    ensures Leads(s, actions, t) && actions[0] == a
    ensures t.net.pc.Deploying? && !DerivedFrom(t, t.net.pc.v, t.net.pc.d)
  {
    hide Past, Run;
    if a.c == Params {
      actions, t := ParamsReadEarly(s);
      actions, t := DesignChanges(s, actions, t);
      var v, d := t.params.pc.v, t.seenDesign;
      var t1 := t.Go(Params, Designed(v, d));
      var t2 := t.(claims := Some(Claims(v, d))).Go(Params, Writing(v, t.hist[v].status.(param := True)));
      actions := Next(s, actions, t, GetDesign(Params, true), t1);
      actions := Next(s, actions, t1, ApplyClaims(true), t2);
      t := t2;
    } else {
      actions, t := DeviceReadEarly(s);
      actions, t := DesignChanges(s, actions, t);
      var v, d, c := t.device.pc.v, t.seenDesign, t.claims;
      var t1 := t.Go(Device, Designed(v, d));
      var t2 := t.Go(Device, Built(v, d, c));
      var t3 := t.(devices := Some(Devices(v, d, c))).Go(Device, Applied(v, d, c));
      actions := Next(s, actions, t, GetDesign(Device, true), t1);
      actions := Next(s, actions, t1, BuildDevices(true), t2);
      actions := Next(s, actions, t2, ApplyDevices(true), t3);
      t := t3;
    }
  }

  // ---------------------------------------------------------------- exactly

  predicate Stale(t: State)
    requires WellFormed(t)
  {
    t.net.pc.Deploying? && !DerivedFrom(t, t.net.pc.v, t.net.pc.d)
  }

  /** Starting with a, and without a risky step after it, the actions lead to a stale deployment. */
  ghost predicate LeadsToStale(s: State, a: Action, actions: seq<Action>) {
    WellFormed(s) && actions != [] && actions[0] == a && Leads(s, actions, Run(s, actions)) && Stale(Run(s, actions))
  }

  lemma {:induction false} RunAppend(s: State, a: seq<Action>, b: seq<Action>)
    requires WellFormed(s)
    ensures Run(s, a + b) == Run(Run(s, a), b)
  {
    if b == [] {
      assert a + b == a;
    } else {
      var front := b[..|b| - 1];
      assert (a + b)[..|a + b| - 1] == a + front;
      RunAppend(s, a, front);
    }
  }

  lemma DisciplinedAppend(s: State, before: seq<Action>, actions: seq<Action>)
    requires WellFormed(s) && Disciplined(s, before) && Leads(Run(s, before), actions, Run(Run(s, before), actions))
    requires !Risky(Run(s, before), actions[0])
    ensures Disciplined(s, before + actions)
  {
    hide Risky, Run;
    forall k | 0 <= k < |before + actions|
      ensures !Risky(Run(s, (before + actions)[..k]), (before + actions)[k])
    {
      if k < |before| {
        assert (before + actions)[..k] == before[..k];
      } else {
        assert (before + actions)[..k] == before + actions[..k - |before|];
        RunAppend(s, before, actions[..k - |before|]);
        if k == |before| {
          assert actions[..0] == [];
          RunNothing(Run(s, before));
        }
      }
    }
  }

  lemma RunNothing(s: State)
    requires WellFormed(s)
    ensures Run(s, []) == s
  {
  }

  /**
   Exactly the risky reads let a stale deployment in: after any disciplined run, an action can be continued to
   one, without a risky read later, if and only if the action itself is a risky read.
   */
  lemma StaleDeployExactly(s: State, before: seq<Action>, a: Action)
    requires Init(s) && Disciplined(s, before)
    ensures Risky(Run(s, before), a) <==> exists actions :: LeadsToStale(Run(s, before), a, actions)
  {
    var t := Run(s, before);
    if Risky(t, a) {
      RunKeepsPast(s, before);
      var actions, u := RiskyReadLeadsToStaleDeploy(t, a);
      assert LeadsToStale(t, a, actions);
    }
    if actions :| LeadsToStale(t, a, actions) {
      if !Risky(t, a) {
        DisciplinedAppend(s, before, actions);
        RunAppend(s, before, actions);
        NoStaleDeploy(s, before + actions);
      }
    }
  }
}
