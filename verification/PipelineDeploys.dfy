/**
 No stale deploy: what every run keeps that makes a deployment rest on current derivations, and exactly which
 reads would break it.
 */
module PipelineDeploys {
  import opened Options
  import opened Pipeline

  // ---------------------------------------------------------------- what every run keeps

  /** What the last write that counts left behind. */
  predicate Mark(s: State, c: Controller)
    requires WellFormed(s)
  {
    var k := s.W(c).own;
    k < |s.hist| && k <= s.seen + 1 &&
    (k > 0 ==>
       var o, n := s.hist[k - 1].status, s.hist[k].status;
       match c
       case Params => !o.param.True? && n.param.True? && !n.device.True?
       case Device => o.param.True? && !o.device.True? && n.param.True? && n.device.True?
       case Net =>
         && !n.device.True? && n.refs.Some? && o.refs != n.refs && n.refs.value.spec == s.hist[k - 1].spec
         && (o.refs.Some? ==> o.refs.value.design <= n.refs.value.design))
  }

  /** Beyond the version that the cache has yet to reach nobody has written a status. */
  ghost predicate QuietBeyond(s: State) {
    forall w :: s.seen + 1 < w < |s.hist| ==> s.hist[w].status == s.hist[w - 1].status
  }

  /** A condition that is True has been True since its controller last wrote it. */
  ghost predicate Since(s: State)
    requires WellFormed(s)
  {
    && (s.Last().status.param.True? ==>
          s.params.own > 0 && forall w :: s.params.own <= w < |s.hist| ==> s.hist[w].status.param.True?)
    && (s.Last().status.device.True? ==>
          s.device.own > 0 && forall w :: s.device.own <= w < |s.hist| ==> s.hist[w].status.device.True?)
  }

  /** Once the devices are ready, only a reset changes the stage. */
  ghost predicate Frozen(s: State) {
    forall u, w :: s.net.own <= u <= w < |s.hist| && s.hist[u].status.device.True? ==>
             Stage(s.hist[w]) == Stage(s.hist[u])
  }

  ghost predicate Past(s: State) {
    && Base(s) && Mark(s, Params) && Mark(s, Device) && Mark(s, Net)
    && QuietBeyond(s) && Since(s) && Frozen(s)
    && (!s.net.pc.Idle? ==> s.net.own <= s.net.pc.v + 1)
  }

  /** A write that counts leaves its mark, since its controller only writes from a snapshot that called for it. */
  lemma NewMark(s: State, o: Network, n: Network, c: Controller)
    requires Staged(o.status) && Proceeds(c, o.status) && MayWrite(c, o, n.status, s.seenDesign) &&
             Counts(c, o, n.status)
    ensures match c
            case Params => !o.status.param.True? && n.status.param.True? && !n.status.device.True?
            case Device => o.status.param.True? && !o.status.device.True? && n.status.param.True? &&
                           n.status.device.True?
            case Net => !n.status.device.True? && Resets(o, n.status, s.seenDesign)
  {
  }

  lemma StepKeepsMark(s: State, a: Action, t: State, c: Controller)
    requires Past(s) && Effect(s, a, t)
    ensures Mark(t, c)
  {
    hide Frozen, Since, QuietBeyond, HistInv;
    assert Mark(s, c) && OwnEffect(s, a, t, c);
    if a == WriteStatus(c) && t.hist != s.hist && Counts(c, s.Last(), t.Last().status) {
      CountedWrite(s, a, t, c);
    } else {
      hide MayWrite, Proceeds, PcInv, Appends, WriteEffect;
      var k := s.W(c).own;
      assert t.hist[k] == s.hist[k] && (k > 0 ==> t.hist[k - 1] == s.hist[k - 1]);
    }
  }

  lemma CountedWrite(s: State, a: Action, t: State, c: Controller)
    requires Past(s) && Effect(s, a, t)
    requires a == WriteStatus(c) && t.hist != s.hist && Counts(c, s.Last(), t.Last().status)
    ensures Mark(t, c)
  {
    hide Frozen, Since, QuietBeyond, Mark;
    assert PcInv(s, c) && Staged(s.Last().status) && Snapped(s.W(c).pc, s.seen) && OwnEffect(s, a, t, c);
    assert t.Last() == s.Last().(status := s.W(c).pc.status);
    NewMark(s, s.Last(), t.Last(), c);
    MarkOf(s, t, c);
  }

  lemma MarkOf(s: State, t: State, c: Controller)
    requires WellFormed(s) && WellFormed(t) && t.hist == s.hist + [t.Last()] && t.Last().spec == s.Last().spec
    requires t.W(c).own == |s.hist| && |s.hist| <= t.seen + 1
    requires var o, n := s.Last().status, t.Last().status;
             match c
             case Params => !o.param.True? && n.param.True? && !n.device.True?
             case Device => o.param.True? && !o.device.True? && n.param.True? && n.device.True?
             case Net => !n.device.True? && Resets(s.Last(), n, s.seenDesign)
    ensures Mark(t, c)
  {
  }

  lemma StepKeepsQuiet(s: State, a: Action, t: State)
    requires Past(s) && Effect(s, a, t)
    ensures QuietBeyond(t)
  {
    if t.hist != s.hist && a.WriteStatus? {
      assert Snapped(s.W(a.c).pc, s.seen);
    }
  }

  lemma StepKeepsSince(s: State, a: Action, t: State)
    requires Past(s) && Effect(s, a, t)
    ensures Since(t)
  {
    hide Frozen, QuietBeyond, Mark, PcInv;
    assert OwnEffect(s, a, t, Params) && OwnEffect(s, a, t, Device) && Staged(s.Last().status);
    assert s.W(Params) == s.params && t.W(Params) == t.params && s.W(Device) == s.device && t.W(Device) == t.device;
  }

  lemma StepKeepsFrozen(s: State, a: Action, t: State)
    requires Past(s) && Effect(s, a, t)
    ensures Frozen(t)
  {
    assert OwnEffect(s, a, t, Net) && s.W(Net) == s.net && t.W(Net) == t.net && Staged(s.Last().status);
    forall u, w | t.net.own <= u <= w < |t.hist| && t.hist[u].status.device.True?
      ensures Stage(t.hist[w]) == Stage(t.hist[u])
    {
      if w == |s.hist| && u < w {
        assert Stage(s.hist[|s.hist| - 1]) == Stage(s.hist[u]);
      }
    }
  }

  lemma StepKeepsPast(s: State, a: Action, t: State)
    requires Past(s) && t == Step(s, a)
    ensures Past(t) && Effect(s, a, t)
  {
    StepKeepsBase(s, a);
    StepEffect(s, a, t);
    hide Step, Base;
    StepKeepsMark(s, a, t, Params);
    StepKeepsMark(s, a, t, Device);
    StepKeepsMark(s, a, t, Net);
    StepKeepsQuiet(s, a, t);
    StepKeepsSince(s, a, t);
    StepKeepsFrozen(s, a, t);
    NetNotFarBehind(s, a, t);
  }

  lemma NetNotFarBehind(s: State, a: Action, t: State)
    requires Past(s) && Effect(s, a, t)
    ensures !t.net.pc.Idle? ==> t.net.own <= t.net.pc.v + 1
  {
    assert OwnEffect(s, a, t, Net) && s.W(Net) == s.net && t.W(Net) == t.net && Mark(s, Net);
  }

  lemma InitPast(s: State)
    requires Init(s)
    ensures Past(s)
  {
    RunKeepsBase(s, []);
    assert Run(s, []) == s;
  }

  lemma {:induction false} RunKeepsPast(s: State, actions: seq<Action>)
    requires Init(s)
    ensures Past(Run(s, actions))
  {
    if actions == [] {
      InitPast(s);
    } else {
      RunKeepsPast(s, actions[..|actions| - 1]);
      StepKeepsPast(Run(s, actions[..|actions| - 1]), actions[|actions| - 1], Run(s, actions));
    }
  }

  // ---------------------------------------------------------------- which reads are risky

  /** The references name the stored spec and the design the cache has reached. */
  predicate LiveNow(s: State)
    requires WellFormed(s)
  {
    s.Last().status.refs == Some(Refs(s.Last().spec, s.seenDesign))
  }

  /** They did so, for the design now in the cache, where the devices were last declared ready. */
  predicate LiveThen(s: State)
    requires WellFormed(s)
  {
    s.device.own < |s.hist| && s.hist[s.device.own].status.refs == Some(Refs(s.hist[s.device.own].spec, s.seenDesign))
  }

  /**
   The worker of a deriving controller starts from a snapshot older than its controller's own write of True,
   while the references are such that a deployment may follow that write.
   */
  predicate Risky(s: State, a: Action)
    requires WellFormed(s)
  {
    a.Get? && a.c != Net && Starts(s, a.c) && s.seen < s.W(a.c).own && if a.c == Params then LiveNow(s) else LiveThen(s)
  }

  ghost predicate Disciplined(s: State, actions: seq<Action>)
    requires WellFormed(s)
  {
    forall k :: 0 <= k < |actions| ==> !Risky(Run(s, actions[..k]), actions[k])
  }

  // ---------------------------------------------------------------- what disciplined runs keep

  /** A derivation from version v and design d is no older than the references. */
  predicate NotBehind(s: State, st: Status, v: nat, d: nat) {
    v < |s.hist| && d <= s.seenDesign &&
    (st.refs.Some? ==> st.refs.value.spec <= s.hist[v].spec && st.refs.value.design <= d)
  }

  predicate GoodClaims(s: State)
    requires WellFormed(s)
  {
    && s.params.own > 0 && s.claims.Some? && s.claims.value.version == s.params.own - 1
    && NotBehind(s, s.Last().status, s.params.own - 1, s.claims.value.design)
  }

  predicate GoodDevices(s: State)
    requires WellFormed(s)
  {
    && s.device.own > 0 && s.devices.Some? && s.devices.value.version == s.device.own - 1
    && s.devices.value.claims == s.claims
    && NotBehind(s, s.Last().status, s.device.own - 1, s.devices.value.design)
  }

  predicate ClaimsStage(s: State)
    requires WellFormed(s)
  {
    s.Last().status.param.True? && !s.Last().status.device.True? && LiveNow(s) ==> s.params.pc.Idle? && GoodClaims(s)
  }

  predicate DevicesStage(s: State)
    requires WellFormed(s)
  {
    s.Last().status.device.True? && LiveThen(s) ==>
      s.params.pc.Idle? && s.device.pc.Idle? && GoodClaims(s) && GoodDevices(s)
  }

  predicate ParamsPc(s: State)
    requires WellFormed(s)
  {
    s.params.pc.Writing? && s.params.pc.status.param.True? ==>
      s.claims.Some? && s.claims.value.version == s.params.pc.v &&
      NotBehind(s, s.params.pc.status, s.params.pc.v, s.claims.value.design)
  }

  /** What the device worker holds, and, while that can still be stored, that the claims are those it read. */
  predicate DevicePc(s: State)
    requires WellFormed(s)
  {
    match s.device.pc
    case Applied(v, d, c) => s.devices == Some(Devices(v, d, c))
    case Writing(v, st) =>
      st.device.True? ==> s.devices.Some? && s.devices.value.version == v && NotBehind(s, st, v, s.devices.value.design)
    case _ => true
  }

  predicate DeviceClaims(s: State)
    requires WellFormed(s)
  {
    var last := |s.hist| - 1;
    LiveNow(s) ==>
      match s.device.pc
      case Built(v, _, c) => v == last ==> c == s.claims
      case Applied(v, _, c) => v == last ==> c == s.claims
      case Writing(v, st) => st.device.True? && v == last && s.devices.Some? ==> s.devices.value.claims == s.claims
      case _ => true
  }

  /** The stored claims and device specs were derived from the spec in version v and from design d. */
  predicate DerivedFrom(s: State, v: nat, d: nat) {
    && v < |s.hist| && s.claims.Some? && s.devices.Some?
    && s.claims.value.version < |s.hist| && s.hist[s.claims.value.version].spec == s.hist[v].spec
    && s.claims.value.design == d
    && s.devices.value.version < |s.hist| && s.hist[s.devices.value.version].spec == s.hist[v].spec
    && s.devices.value.design == d && s.devices.value.claims == s.claims
  }

  predicate DeployStage(s: State)
    requires WellFormed(s)
  {
    s.net.pc.Deploying? ==>
      var v := s.net.pc.v;
      && s.net.own <= v && s.hist[v].status.device.True? && s.device.own <= v && s.params.own <= v
      && s.params.pc.Idle? && s.device.pc.Idle? && DerivedFrom(s, v, s.net.pc.d)
  }

  ghost predicate Full(s: State) {
    Past(s) && ClaimsStage(s) && DevicesStage(s) && ParamsPc(s) && DevicePc(s) && DeviceClaims(s) && DeployStage(s)
  }

  /** While the devices are ready, the claims were declared ready before the devices were. */
  lemma ClaimsBeforeDevices(s: State)
    requires Past(s) && s.Last().status.device.True?
    ensures 0 < s.params.own < s.device.own <= s.seen + 1
    ensures s.Last().status.param.True?
  {
    assert Mark(s, Params) && Mark(s, Device) && s.W(Params) == s.params && s.W(Device) == s.device;
    assert Staged(s.Last().status) && Staged(s.hist[s.params.own - 1].status);
  }

  /** Live references stay as they are until a reset, so they were live before the step. */
  lemma LiveBefore(s: State, a: Action, t: State)
    requires Past(s) && Effect(s, a, t) && t.Last().status.refs == s.Last().status.refs
    ensures LiveNow(t) ==> LiveNow(s)
  {
    assert RefsBehind(s.Last(), s.seenDesign);
  }

  lemma LiveThenBefore(s: State, a: Action, t: State)
    requires Past(s) && Effect(s, a, t) && t.device.own == s.device.own
    ensures LiveThen(t) ==> LiveThen(s)
  {
    assert Mark(s, Device) && s.W(Device) == s.device && t.hist[s.device.own] == s.hist[s.device.own];
    assert RefsBehind(s.hist[s.device.own], s.seenDesign);
  }

  /** A worker whose condition is True in what the cache shows does not start. */
  lemma ParamsRest(s: State, a: Action, t: State)
    requires Past(s) && Effect(s, a, t) && s.Last().status.param.True? && s.params.pc.Idle?
    requires !Risky(s, a) && (s.params.own <= s.seen || LiveNow(s))
    ensures t.params.pc.Idle?
  {
    assert OwnEffect(s, a, t, Params) && s.W(Params) == s.params && t.W(Params) == t.params;
  }

  lemma DeviceRest(s: State, a: Action, t: State)
    requires Past(s) && Effect(s, a, t) && s.Last().status.device.True? && s.device.pc.Idle?
    requires !Risky(s, a) && (s.device.own <= s.seen || LiveThen(s))
    ensures t.device.pc.Idle?
  {
    assert OwnEffect(s, a, t, Device) && s.W(Device) == s.device && t.W(Device) == t.device;
  }

  lemma GoodStays(s: State, t: State)
    requires WellFormed(s) && WellFormed(t) && s.hist <= t.hist && s.seenDesign <= t.seenDesign
    requires t.Last().status.refs == s.Last().status.refs && t.claims == s.claims && t.devices == s.devices
    requires t.params.own == s.params.own && t.device.own == s.device.own
    ensures GoodClaims(s) ==> GoodClaims(t)
    ensures GoodDevices(s) ==> GoodDevices(t)
  {
  }

  lemma StepKeepsParamsPc(s: State, a: Action, t: State)
    requires Full(s) && t == Step(s, a) && Effect(s, a, t)
    ensures ParamsPc(t)
  {
    assert s.W(Params) == s.params && t.W(Params) == t.params;
    assert PcInv(s, Params) && OwnEffect(s, a, t, Params);
    if t.params.pc.Writing? && t.params.pc.status.param.True? && t.params.pc != s.params.pc {
      assert a.ApplyClaims? && s.params.pc.Designed?;
      assert RefsBehind(s.hist[s.params.pc.v], s.seenDesign);
    }
  }

  lemma StepKeepsDevicePc(s: State, a: Action, t: State)
    requires Full(s) && t == Step(s, a) && Effect(s, a, t)
    ensures DevicePc(t)
  {
    assert s.W(Device) == s.device && t.W(Device) == t.device;
    assert PcInv(s, Device) && OwnEffect(s, a, t, Device);
    if !t.device.pc.Idle? && !t.device.pc.Read? && !t.device.pc.Designed? {
      assert RefsBehind(s.hist[s.device.pc.v], s.seenDesign);
    }
  }

  lemma StepKeepsDeviceClaims(s: State, a: Action, t: State)
    requires Full(s) && t == Step(s, a) && Effect(s, a, t)
    ensures DeviceClaims(t)
  {
    hide Frozen, Since, QuietBeyond, Mark, DerivedFrom, NotBehind, DevicesStage, DeployStage, ParamsPc;
    assert s.W(Device) == s.device && t.W(Device) == t.device;
    assert PcInv(s, Device) && OwnEffect(s, a, t, Device);
    if LiveNow(t) && !t.device.pc.Idle? && !s.device.pc.Idle? && t.device.pc.v == |t.hist| - 1 {
      assert Snapped(s.device.pc, s.seen);
      assert t.hist == s.hist;
      LiveBefore(s, a, t);
      assert t.claims == s.claims;
    }
  }

  lemma StepKeepsClaimsStage(s: State, a: Action, t: State)
    requires Full(s) && Effect(s, a, t) && !Risky(s, a)
    ensures ClaimsStage(t)
  {
    hide Frozen, QuietBeyond, DerivedFrom, DevicesStage, DeployStage, DeviceClaims, DevicePc;
    if t.Last().status.param.True? && !t.Last().status.device.True? && LiveNow(t) {
      assert OwnEffect(s, a, t, Params) && s.W(Params) == s.params && t.W(Params) == t.params;
      assert t.Last().status.refs == s.Last().status.refs;
      LiveBefore(s, a, t);
      if s.Last().status.param.True? {
        assert !s.Last().status.device.True?;
        ParamsRest(s, a, t);
        assert t.claims == s.claims && t.params.own == s.params.own;
      } else {
        assert a == WriteStatus(Params) && s.params.pc.status.param.True?;
      }
    }
  }

  lemma StepKeepsDevicesStage(s: State, a: Action, t: State)
    requires Full(s) && Effect(s, a, t) && !Risky(s, a)
    ensures DevicesStage(t)
  {
    hide Frozen, Since, QuietBeyond, HistInv, GoodClaims, GoodDevices, DeviceClaims, DevicePc, ClaimsStage,
         DerivedFrom, RefsBehind;
    if t.Last().status.device.True? && LiveThen(t) {
      assert OwnEffect(s, a, t, Device) && s.W(Device) == s.device && t.W(Device) == t.device;
      assert OwnEffect(s, a, t, Params) && s.W(Params) == s.params && t.W(Params) == t.params;
      assert t.Last().status.refs == s.Last().status.refs;
      if s.Last().status.device.True? {
        ClaimsBeforeDevices(s);
        assert PcInv(s, Params) && PcInv(s, Device);
        LiveThenBefore(s, a, t);
        ParamsRest(s, a, t);
        DeviceRest(s, a, t);
        GoodStays(s, t);
      } else {
        DevicesBecomeReady(s, a, t);
      }
    }
  }

  lemma DevicesBecomeReady(s: State, a: Action, t: State)
    requires Full(s) && Effect(s, a, t)
    requires !s.Last().status.device.True? && t.Last().status.device.True? && LiveThen(t)
    ensures t.params.pc.Idle? && t.device.pc.Idle? && GoodClaims(t) && GoodDevices(t)
  {
    hide Frozen, Since, QuietBeyond, DerivedFrom, DeployStage, Mark, Stage;
    assert a == WriteStatus(Device) && s.device.pc.status.device.True? && s.device.pc.v == |s.hist| - 1;
    assert PcInv(s, Device) && s.W(Device) == s.device && t.W(Device) == t.device && OwnEffect(s, a, t, Device);
    assert OwnEffect(s, a, t, Params) && s.W(Params) == s.params && t.W(Params) == t.params;
    assert RefsBehind(s.Last(), s.seenDesign);
    assert LiveNow(s);
  }

  /** References that match now did not mismatch an older design: the snapshot is not one that was then reset. */
  lemma NoResetSince(s: State, v: nat)
    requires Past(s) && s.net.pc == Read(v) && s.hist[v].status.refs == Some(Refs(s.hist[v].spec, s.seenDesign))
    ensures s.net.own <= v
  {
    hide Frozen, Since, QuietBeyond;
    assert Mark(s, Net) && s.W(Net) == s.net;
    assert RefsBehind(s.hist[s.net.own], s.seenDesign);
  }

  /** Where the network controller decides to deploy, the references were current when the devices became ready. */
  lemma DeploysLive(s: State, v: nat)
    requires Past(s) && s.net.pc == Read(v)
    requires s.hist[v].status.device.True? && s.hist[v].status.refs == Some(Refs(s.hist[v].spec, s.seenDesign))
    ensures s.net.own <= v && s.Last().status.device.True? && Stage(s.Last()) == Stage(s.hist[v])
    ensures s.device.own <= v && LiveThen(s)
  {
    assert Mark(s, Net) && s.W(Net) == s.net && Mark(s, Device) && s.W(Device) == s.device;
    assert s.net.own <= v by {
      NoResetSince(s, v);
    }
    assert Stage(s.Last()) == Stage(s.hist[v]);
    var k := s.device.own;
    assert k - 1 < v ==> k <= v;
    assert forall w :: v <= w < |s.hist| ==> Stage(s.hist[w]) == Stage(s.hist[v]);
    assert k <= v && k < |s.hist|;
    assert !s.hist[s.net.own].status.device.True? || s.net.own == 0;
    assert Stage(s.hist[k]) == Stage(s.hist[v]) by {
      assert Stage(s.Last()) == Stage(s.hist[k]);
    }
    assert RefsBehind(s.hist[k], s.seenDesign);
  }

  /** Where it decides to deploy, the stored derivations match its snapshot. */
  lemma DeploysFresh(s: State, v: nat)
    requires Full(s) && s.net.pc == Read(v)
    requires s.hist[v].status.device.True? && s.hist[v].status.refs == Some(Refs(s.hist[v].spec, s.seenDesign))
    ensures DerivedFrom(s, v, s.seenDesign) && s.params.pc.Idle? && s.device.pc.Idle?
    ensures s.net.own <= v && s.device.own <= v && s.params.own <= v
  {
    DeploysLive(s, v);
    ClaimsBeforeDevices(s);
    var k, j := s.params.own, s.device.own;
    assert s.hist[k - 1].spec <= s.hist[v].spec && s.hist[j - 1].spec <= s.hist[v].spec;
  }

  lemma StepKeepsDeployStage(s: State, a: Action, t: State)
    requires Full(s) && t == Step(s, a) && Effect(s, a, t) && !Risky(s, a)
    ensures DeployStage(t)
  {
    hide Frozen, Since, QuietBeyond, Mark, NotBehind, DevicesStage, ClaimsStage, DeviceClaims, DevicePc, ParamsPc,
         HistInv;
    assert OwnEffect(s, a, t, Net) && s.W(Net) == s.net && t.W(Net) == t.net;
    if t.net.pc.Deploying? {
      if s.net.pc.Deploying? && t.net.pc == s.net.pc {
        DeployGoesOn(s, a, t);
      } else {
        var v := s.net.pc.v;
        assert a.GetDesign? && a.c == Net && s.net.pc == Read(v);
        DeploysFresh(s, v);
      }
    }
  }

  lemma DeployGoesOn(s: State, a: Action, t: State)
    requires Full(s) && Effect(s, a, t) && !Risky(s, a) && s.net.pc.Deploying? && t.net.pc == s.net.pc
    ensures DeployStage(t)
  {
    var v := s.net.pc.v;
    assert Snapped(s.net.pc, s.seen) && Stage(s.Last()) == Stage(s.hist[v]) && Staged(s.Last().status);
    ParamsRest(s, a, t);
    DeviceRest(s, a, t);
    assert OwnEffect(s, a, t, Net) && s.W(Net) == s.net && t.W(Net) == t.net;
    assert OwnEffect(s, a, t, Params) && s.W(Params) == s.params && t.W(Params) == t.params;
    assert OwnEffect(s, a, t, Device) && s.W(Device) == s.device && t.W(Device) == t.device;
  }

  lemma StepKeepsFull(s: State, a: Action, t: State)
    requires Full(s) && !Risky(s, a) && t == Step(s, a)
    ensures Full(t)
  {
    StepKeepsPast(s, a, t);
    StepKeepsParamsPc(s, a, t);
    StepKeepsDevicePc(s, a, t);
    StepKeepsDeviceClaims(s, a, t);
    StepKeepsClaimsStage(s, a, t);
    StepKeepsDevicesStage(s, a, t);
    StepKeepsDeployStage(s, a, t);
  }

  lemma InitFull(s: State)
    requires Init(s)
    ensures Full(s)
  {
    InitPast(s);
  }

  lemma DisciplinedFront(s: State, actions: seq<Action>)
    requires WellFormed(s) && actions != [] && Disciplined(s, actions)
    ensures var front := actions[..|actions| - 1];
            Disciplined(s, front) && !Risky(Run(s, front), actions[|actions| - 1])
  {
    hide Risky, Run;
    var k := |actions| - 1;
    forall i | 0 <= i < k
      ensures !Risky(Run(s, actions[..k][..i]), actions[..k][i])
    {
      assert actions[..k][..i] == actions[..i];
    }
  }

  lemma {:induction false} RunKeepsFull(s: State, actions: seq<Action>)
    requires Init(s) && Disciplined(s, actions)
    ensures Full(Run(s, actions))
  {
    hide Full, Past, Risky, Disciplined;
    if actions == [] {
      InitFull(s);
    } else {
      var front := actions[..|actions| - 1];
      DisciplinedFront(s, actions);
      RunKeepsFull(s, front);
      StepKeepsFull(Run(s, front), actions[|actions| - 1], Run(s, actions));
    }
  }

  /**
   No stale deploy: in every interleaving without a risky read, whenever the network controller is deploying, the
   references in its snapshot name that snapshot's spec and the design it read, and the stored claims and device
   specs were derived from exactly that spec and that design (the device specs from exactly those claims).
   */
  lemma NoStaleDeploy(s: State, actions: seq<Action>)
    requires Init(s) && Disciplined(s, actions)
    requires Run(s, actions).net.pc.Deploying?
    ensures var t := Run(s, actions);
            t.hist[t.net.pc.v].status.refs == Some(Refs(t.hist[t.net.pc.v].spec, t.net.pc.d)) &&
            DerivedFrom(t, t.net.pc.v, t.net.pc.d)
  {
    RunKeepsFull(s, actions);
    assert PcInv(Run(s, actions), Net);
  }
}
