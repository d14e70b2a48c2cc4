/**
 The three controllers that share one Network object: networkparams derives the claims, networkdevice
 derives the device specs, network deploys them. Each Reconcile reads a snapshot, reads the design, makes a
 side effect and writes the status back under the resource-version check; every one of these is a step.

 The object's resource version is its index in the history of stored objects. Reads go through one shared
 cache that only moves forward: `seen` and `seenDesign` are the versions the cache has reached.
 */
module Pipeline {
  import opened Options

  /** A child condition: absent counts as False. */
  datatype Condition = Absent | Processing | Failed | True

  /** The hash of the spec and the resource version of the design a status was last reset for. */
  datatype Refs = Refs(spec: nat, design: nat)

  datatype Status = Status(refs: Option<Refs>, param: Condition, device: Condition, ready: bool)

  /** The spec is a value that no edit ever repeats, and the hash is injective. */
  datatype Network = Network(spec: nat, status: Status)

  /** What stored claims were derived from: the version of the snapshot, and the design. */
  datatype Claims = Claims(version: nat, design: nat)

  /** What stored device specs were derived from: the claims as well. */
  datatype Devices = Devices(version: nat, design: nat, claims: Option<Claims>)

  datatype Pc =
    | Idle
    | Read(v: nat)
    | Designed(v: nat, d: nat)
    | Built(v: nat, d: nat, claims: Option<Claims>)
    | Applied(v: nat, d: nat, claims: Option<Claims>)
    | Deploying(v: nat, d: nat)
    | Writing(v: nat, status: Status)

  /**
   A controller's one worker, and the version of its last status write that counts: the last one that set the
   controller's own condition True, or, for the network controller, that reset the conditions.
   */
  datatype Worker = Worker(pc: Pc, own: nat)

  datatype Controller = Params | Device | Net

  datatype State = State(hist: seq<Network>, seen: nat, design: nat, seenDesign: nat,
                         claims: Option<Claims>, devices: Option<Devices>,
                         params: Worker, device: Worker, net: Worker)
  {
    function W(c: Controller): Worker {
      match c
      case Params => params
      case Device => device
      case Net => net
    }

    function Put(c: Controller, w: Worker): State {
      match c
      case Params => this.(params := w)
      case Device => this.(device := w)
      case Net => this.(net := w)
    }

    function Go(c: Controller, pc: Pc): State {
      Put(c, W(c).(pc := pc))
    }

    function Last(): Network
      requires hist != []
    {
      hist[|hist| - 1]
    }
  }

  datatype Outcome = AllReady | StillProcessing | SomeFailed | CallFailed

  datatype Action =
    | EditSpec(more: nat)
    | TouchNetwork
    | EditDesign
    | SyncNetwork(to: nat)
    | SyncDesign(to: nat)
    | Get(c: Controller)
    | GetDesign(c: Controller, found: bool)
    | ApplyClaims(ok: bool)
    | BuildDevices(ok: bool)
    | ApplyDevices(ok: bool)
    | CheckDevices(r: Outcome)
    | Deploy(r: Outcome)
    | WriteStatus(c: Controller)
    | Crash(c: Controller)

  /** SetOverallStatus: Ready is recomputed from the child conditions alone. */
  function SetOverallStatus(st: Status): Status {
    st.(ready := st.param.True? && st.device.True?)
  }

  /** The Ready condition set from the outcome of the deployment, which SetOverallStatus then overwrites. */
  function NoteOutcome(st: Status, r: Outcome): Status {
    st.(ready := r.AllReady?)
  }

  /** hasConfigChanged, and the reset of both child conditions that follows it. */
  function NoteReferences(o: Network, d: nat): Status {
    if o.status.refs == Some(Refs(o.spec, d)) then o.status
    else o.status.(refs := Some(Refs(o.spec, d)), param := Processing, device := Processing)
  }

  /** NetworkDeviceFailed writes the *param* condition. */
  function DeviceFailed(st: Status): Status {
    st.(param := Failed)
  }

  /** The early returns after the first read. */
  predicate Proceeds(c: Controller, st: Status) {
    match c
    case Params => !st.param.True?
    case Device => st.param.True? && !st.device.True?
    case Net => true
  }

  function GetDesignStep(s: State, c: Controller, v: nat, found: bool): State
    requires v < |s.hist|
  {
    if c != Net then s.Go(c, if found then Designed(v, s.seenDesign) else Idle)
    else if !found then s.Go(c, Writing(v, SetOverallStatus(s.hist[v].status)))
    else
      var st := NoteReferences(s.hist[v], s.seenDesign);
      if st.param.True? && st.device.True? then s.Go(c, Deploying(v, s.seenDesign))
      else s.Go(c, Writing(v, SetOverallStatus(st)))
  }

  function CheckDevicesStep(s: State, v: nat, r: Outcome): State
    requires v < |s.hist|
  {
    var st := s.hist[v].status;
    s.Go(Device, Writing(v, match r
                            case AllReady => st.(device := True)
                            case StillProcessing => st.(device := Processing)
                            case SomeFailed => DeviceFailed(st)
                            case CallFailed => DeviceFailed(st)))
  }

  /** The writes that count: see Worker. */
  predicate Counts(c: Controller, o: Network, st: Status) {
    match c
    case Params => st.param.True?
    case Device => st.device.True?
    case Net => st.refs != o.status.refs
  }

  /** The status update: dropped whole when the snapshot is no longer the stored version. */
  function WriteStep(s: State, c: Controller, v: nat, st: Status): State
    requires v < |s.hist|
  {
    if v != |s.hist| - 1 then s.Go(c, Idle)
    else
      s.(hist := s.hist + [s.hist[v].(status := st)])
       .Put(c, Worker(Idle, if Counts(c, s.hist[v], st) then |s.hist| else s.W(c).own))
  }

  function Step(s: State, a: Action): State
    requires WellFormed(s)
  {
    match a
    case EditSpec(more) => s.(hist := s.hist + [s.Last().(spec := s.Last().spec + more + 1)])
    case TouchNetwork => s.(hist := s.hist + [s.Last()])
    case EditDesign => s.(design := s.design + 1)
    case SyncNetwork(to) => if s.seen <= to < |s.hist| then s.(seen := to) else s
    case SyncDesign(to) => if s.seenDesign <= to <= s.design then s.(seenDesign := to) else s
    case Get(c) =>
      if s.W(c).pc.Idle? && Proceeds(c, s.hist[s.seen].status) then s.Go(c, Read(s.seen)) else s
    case GetDesign(c, found) =>
      if s.W(c).pc.Read? then GetDesignStep(s, c, s.W(c).pc.v, found) else s
    case ApplyClaims(ok) =>
      (match s.params.pc
       case Designed(v, d) =>
         var st := s.hist[v].status;
         if ok then s.(claims := Some(Claims(v, d))).Go(Params, Writing(v, st.(param := True)))
         else s.(claims := None).Go(Params, Writing(v, st.(param := Failed)))
       case _ => s)
    case BuildDevices(ok) =>
      (match s.device.pc
       case Designed(v, d) =>
         if ok then s.Go(Device, Built(v, d, s.claims))
         else s.Go(Device, Writing(v, DeviceFailed(s.hist[v].status)))
       case _ => s)
    case ApplyDevices(ok) =>
      (match s.device.pc
       case Built(v, d, c) =>
         if ok then s.(devices := Some(Devices(v, d, c))).Go(Device, Applied(v, d, c))
         else s.(devices := None).Go(Device, Writing(v, DeviceFailed(s.hist[v].status)))
       case _ => s)
    case CheckDevices(r) => if s.device.pc.Applied? then CheckDevicesStep(s, s.device.pc.v, r) else s
    case Deploy(r) =>
      (match s.net.pc
       case Deploying(v, _) => s.Go(Net, Writing(v, SetOverallStatus(NoteOutcome(s.hist[v].status, r))))
       case _ => s)
    case WriteStatus(c) => if s.W(c).pc.Writing? then WriteStep(s, c, s.W(c).pc.v, s.W(c).pc.status) else s
    case Crash(c) => s.Go(c, Idle)
  }

  /** Cache positions and snapshots exist. */
  predicate WellFormed(s: State) {
    && s.hist != [] && s.seen < |s.hist| && s.seenDesign <= s.design
    && Snapped(s.params.pc, s.seen) && Snapped(s.device.pc, s.seen) && Snapped(s.net.pc, s.seen)
  }

  predicate Snapped(pc: Pc, seen: nat) {
    pc.Idle? || pc.v <= seen
  }

  /** The controller whose worker takes the step, if any. */
  function Actor(a: Action): Option<Controller> {
    match a
    case Get(c) => Some(c)
    case GetDesign(c, _) => Some(c)
    case ApplyClaims(_) => Some(Params)
    case BuildDevices(_) => Some(Device)
    case ApplyDevices(_) => Some(Device)
    case CheckDevices(_) => Some(Device)
    case Deploy(_) => Some(Net)
    case WriteStatus(c) => Some(c)
    case Crash(c) => Some(c)
    case _ => None
  }

  /** A read by the controller's worker would start a reconcile that goes on. */
  predicate Starts(s: State, c: Controller)
    requires WellFormed(s)
  {
    s.W(c).pc.Idle? && Proceeds(c, s.hist[s.seen].status)
  }

  /** What a step does to a controller's own worker: its version record and its snapshot. */
  predicate OwnEffect(s: State, a: Action, t: State, c: Controller)
    requires WellFormed(s)
  {
    && (Actor(a) != Some(c) ==> t.W(c) == s.W(c))
    && t.W(c).own == (if a == WriteStatus(c) && t.hist != s.hist && t.hist != [] && Counts(c, s.Last(), t.Last().status)
                      then |s.hist| else s.W(c).own)
    && (t.W(c).pc.Idle? || (a == Get(c) && Starts(s, c) && t.W(c).pc == Read(s.seen)) ||
        (!s.W(c).pc.Idle? && t.W(c).pc.v == s.W(c).pc.v))
  }

  lemma OwnWrite(s: State, t: State, c: Controller)
    requires WellFormed(s) && t == Step(s, WriteStatus(c))
    ensures OwnEffect(s, WriteStatus(c), t, c)
  {
  }

  lemma OwnWork(s: State, a: Action, t: State, c: Controller)
    requires WellFormed(s) && t == Step(s, a) && Actor(a) == Some(c) && !a.WriteStatus?
    ensures OwnEffect(s, a, t, c)
  {
    hide NoteReferences, Counts;
  }

  lemma OwnEffects(s: State, a: Action, t: State, c: Controller)
    requires WellFormed(s) && t == Step(s, a)
    ensures OwnEffect(s, a, t, c)
  {
    hide GetDesignStep, CheckDevicesStep, WriteStep, Counts, Proceeds;
    if Actor(a) == Some(c) {
      hide Step;
      if a.WriteStatus? {
        OwnWrite(s, t, c);
      } else {
        OwnWork(s, a, t, c);
      }
    } else {
      OthersKeepWorker(s, a, t, c);
    }
  }

  lemma OthersKeepWorker(s: State, a: Action, t: State, c: Controller)
    requires WellFormed(s) && t == Step(s, a) && Actor(a) != Some(c)
    ensures OwnEffect(s, a, t, c)
  {
    hide NoteReferences, Counts;
  }

  lemma StepMovesForward(s: State, a: Action, t: State)
    requires WellFormed(s) && t == Step(s, a)
    ensures s.hist <= t.hist && s.seen <= t.seen < |t.hist| && s.seenDesign <= t.seenDesign <= t.design
  {
  }

  lemma StepWellFormed(s: State, a: Action, t: State)
    requires WellFormed(s) && t == Step(s, a)
    ensures WellFormed(t) && s.hist <= t.hist && s.seenDesign <= t.seenDesign
    ensures OwnEffect(s, a, t, Params) && OwnEffect(s, a, t, Device) && OwnEffect(s, a, t, Net)
  {
    StepMovesForward(s, a, t);
    OwnEffects(s, a, t, Params);
    OwnEffects(s, a, t, Device);
    OwnEffects(s, a, t, Net);
  }

  ghost function Run(s: State, actions: seq<Action>): (t: State)
    requires WellFormed(s)
    ensures WellFormed(t)
  {
    if actions == [] then s
    else
      var t := Run(s, actions[..|actions| - 1]);
      var u := Step(t, actions[|actions| - 1]);
      StepWellFormed(t, actions[|actions| - 1], u);
      u
  }

  /** A start: a freshly created Network, nothing derived, no worker running. */
  predicate Init(s: State) {
    && |s.hist| == 1 && s.hist[0].status == Status(None, Absent, Absent, false)
    && s.seen == 0 && s.seenDesign <= s.design && s.claims.None? && s.devices.None?
    && s.params == s.device == s.net == Worker(Idle, 0)
  }

  // ---------------------------------------------------------------- what every run keeps

  predicate Staged(st: Status) {
    st.device.True? ==> st.param.True?
  }

  /** References are never ahead of the object they are on, nor of the design the cache has reached. */
  predicate RefsBehind(o: Network, seenDesign: nat) {
    o.status.refs.Some? ==> o.status.refs.value.spec <= o.spec && o.status.refs.value.design <= seenDesign
  }

  ghost predicate HistInv(s: State) {
    && (forall i, j :: 0 <= i <= j < |s.hist| ==> s.hist[i].spec <= s.hist[j].spec)
    && (forall i :: 0 <= i < |s.hist| ==> Staged(s.hist[i].status) && RefsBehind(s.hist[i], s.seenDesign))
  }

  /** What a controller may be about to write, given the snapshot it read. */
  predicate MayWrite(c: Controller, o: Network, st: Status, seenDesign: nat) {
    match c
    case Params => st == o.status.(param := True) || st == o.status.(param := Failed)
    case Device =>
      st == o.status.(device := True) || st == o.status.(device := Processing) || st == DeviceFailed(o.status)
    case Net =>
      st == SetOverallStatus(o.status) || Resets(o, st, seenDesign)
  }

  /** The references have changed, which the new status notes while it resets both children. */
  predicate Resets(o: Network, st: Status, seenDesign: nat) {
    && st.refs.Some? && st.refs.value.spec == o.spec && st.refs.value.design <= seenDesign
    && st == Status(st.refs, Processing, Processing, false)
    && o.status.refs != st.refs && (o.status.refs.Some? ==> o.status.refs.value.design <= st.refs.value.design)
  }

  predicate PcInv(s: State, c: Controller)
    requires WellFormed(s)
  {
    var pc := s.W(c).pc;
    if pc.Idle? then true
    else
      var o := s.hist[pc.v];
      && Proceeds(c, o.status)
      && (match pc
          case Read(_) => true
          case Designed(_, d) => c != Net && d <= s.seenDesign &&
                                 (o.status.refs.Some? ==> o.status.refs.value.design <= d)
          case Built(_, d, _) => c == Device && d <= s.seenDesign &&
                                 (o.status.refs.Some? ==> o.status.refs.value.design <= d)
          case Applied(_, d, _) => c == Device && d <= s.seenDesign &&
                                   (o.status.refs.Some? ==> o.status.refs.value.design <= d)
          case Deploying(_, d) =>
            c == Net && o.status.param.True? && o.status.device.True? && o.status.refs == Some(Refs(o.spec, d))
          case Writing(_, st) => MayWrite(c, o, st, s.seenDesign))
  }

  ghost predicate Base(s: State) {
    WellFormed(s) && HistInv(s) && forall c :: PcInv(s, c)
  }

  /** The step appends at most one object: an edit, a touch, or one controller's status on the last version. */
  predicate Appends(s: State, a: Action, t: State)
    requires WellFormed(s)
  {
    t.hist == s.hist ||
    (t.hist != [] && t.hist == s.hist + [t.Last()] && s.Last().spec <= t.Last().spec &&
     (t.Last().status == s.Last().status ||
      (a.WriteStatus? && MayWrite(a.c, s.Last(), t.Last().status, s.seenDesign) && Proceeds(a.c, s.Last().status))))
  }

  lemma StepAppends(s: State, a: Action, t: State)
    requires Base(s) && t == Step(s, a)
    ensures Appends(s, a, t)
  {
    if a.WriteStatus? {
      assert PcInv(s, a.c);
    }
  }

  lemma AppendKeepsHist(s: State, a: Action, t: State)
    requires Base(s) && Appends(s, a, t) && s.seenDesign <= t.seenDesign
    ensures HistInv(t)
  {
    assert Staged(s.Last().status) && RefsBehind(s.Last(), s.seenDesign);
    if t.hist != s.hist {
      assert Staged(t.Last().status) && RefsBehind(t.Last(), t.seenDesign);
    }
  }

  lemma PcMonotone(s: State, t: State, c: Controller)
    requires WellFormed(s) && WellFormed(t) && PcInv(s, c)
    requires t.W(c) == s.W(c) && s.hist <= t.hist && s.seenDesign <= t.seenDesign
    ensures PcInv(t, c)
  {
    if !s.W(c).pc.Idle? {
      assert t.hist[s.W(c).pc.v] == s.hist[s.W(c).pc.v];
    }
  }

  lemma OthersKeepPc(s: State, a: Action, c: Controller, t: State)
    requires WellFormed(s) && PcInv(s, c) && Actor(a) != Some(c) && t == Step(s, a)
    ensures WellFormed(t) && PcInv(t, c)
  {
    StepWellFormed(s, a, t);
    PcMonotone(s, t, c);
  }

  lemma ReadsKeepPc(s: State, a: Action, c: Controller)
    requires Base(s) && (a == Get(c) || a == GetDesign(c, true) || a == GetDesign(c, false))
    ensures PcInv(Step(s, a), c)
  {
    assert PcInv(s, c);
    if !s.W(c).pc.Idle? {
      assert RefsBehind(s.hist[s.W(c).pc.v], s.seenDesign);
    }
  }

  lemma WorkKeepsPc(s: State, a: Action, c: Controller, t: State)
    requires WellFormed(s) && WellFormed(t) && PcInv(s, c) && t == Step(s, a) && Actor(a) == Some(c)
    requires a.ApplyClaims? || a.BuildDevices? || a.ApplyDevices? || a.CheckDevices? || a.Deploy?
    ensures PcInv(t, c)
  {
  }

  lemma StepKeepsPc(s: State, a: Action, c: Controller, t: State)
    requires Base(s) && t == Step(s, a)
    ensures WellFormed(t) && PcInv(t, c)
  {
    StepWellFormed(s, a, t);
    if Actor(a) != Some(c) {
      OthersKeepPc(s, a, c, t);
    } else if a.Get? || a.GetDesign? {
      ReadsKeepPc(s, a, c);
    } else if a.WriteStatus? || a.Crash? {
      assert t.W(c).pc.Idle? || t.W(c) == s.W(c);
    } else {
      WorkKeepsPc(s, a, c, t);
    }
  }

  lemma StepKeepsBase(s: State, a: Action)
    requires Base(s)
    ensures Base(Step(s, a))
  {
    var t := Step(s, a);
    StepWellFormed(s, a, t);
    StepAppends(s, a, t);
    AppendKeepsHist(s, a, t);
    forall c {
      StepKeepsPc(s, a, c, t);
    }
  }

  lemma {:induction false} RunKeepsBase(s: State, actions: seq<Action>)
    requires Init(s)
    ensures Base(Run(s, actions))
  {
    if actions != [] {
      RunKeepsBase(s, actions[..|actions| - 1]);
      StepKeepsBase(Run(s, actions[..|actions| - 1]), actions[|actions| - 1]);
    }
  }

  /** Stage order, over every run: no stored object has its devices ready while its parameters are not. */
  lemma StageOrder(s: State, actions: seq<Action>, i: nat)
    requires Init(s) && i < |Run(s, actions).hist|
    ensures var st := Run(s, actions).hist[i].status;
            st.device.True? ==> st.param.True?
  {
    RunKeepsBase(s, actions);
  }

  /** After every status write by the network controller, Ready is true exactly when both children are. */
  lemma ReadyAfterNetworkWrite(s: State, actions: seq<Action>)
    requires Init(s)
    ensures var t := Run(s, actions);
            var u := Step(t, WriteStatus(Net));
            |t.hist| < |u.hist| ==>
              (u.Last().status.ready <==> u.Last().status.param.True? && u.Last().status.device.True?)
  {
    RunKeepsBase(s, actions);
    assert PcInv(Run(s, actions), Net);
  }

  /** What a step can do to the parts of the state the invariants speak of. */
  predicate Effect(s: State, a: Action, t: State)
    requires WellFormed(s)
  {
    && WellFormed(t) && s.hist <= t.hist && s.seen <= t.seen && s.seenDesign <= t.seenDesign
    && Appends(s, a, t) && WriteEffect(s, a, t)
    && OwnEffect(s, a, t, Params) && OwnEffect(s, a, t, Device) && OwnEffect(s, a, t, Net)
    && (t.claims == s.claims || (a.ApplyClaims? && !s.params.pc.Idle?))
    && (t.devices == s.devices || (a.ApplyDevices? && !s.device.pc.Idle?))
  }

  predicate WriteEffect(s: State, a: Action, t: State)
    requires WellFormed(s)
  {
    t.hist != s.hist ==>
      if a.WriteStatus? then
        var pc := s.W(a.c).pc;
        && pc.Writing? && pc.v == |s.hist| - 1 && t.W(a.c).pc.Idle?
        && t.hist == s.hist + [s.Last().(status := pc.status)]
      else t.hist != [] && t.Last().status == s.Last().status
  }

  lemma StepWrites(s: State, a: Action, t: State)
    requires Base(s) && t == Step(s, a)
    ensures WriteEffect(s, a, t)
    ensures t.claims == s.claims || (a.ApplyClaims? && !s.params.pc.Idle?)
    ensures t.devices == s.devices || (a.ApplyDevices? && !s.device.pc.Idle?)
  {
  }

  lemma StepEffect(s: State, a: Action, t: State)
    requires Base(s) && t == Step(s, a)
    ensures Effect(s, a, t)
  {
    StepWellFormed(s, a, t);
    StepMovesForward(s, a, t);
    StepAppends(s, a, t);
    StepWrites(s, a, t);
  }

  // ---------------------------------------------------------------- the outcome of the deployment

  /**
   Ready does not speak of the deployment: the condition set from the outcome of the deploy call says whether it
   succeeded, but the status written after it is Ready in every case, because SetOverallStatus overwrites it.
   */
  lemma FailedDeployIsReportedReady(s: State, actions: seq<Action>, r: Outcome)
    requires Init(s)
    requires Run(s, actions).net.pc.Deploying?
    ensures var t := Run(s, actions);
            var noted := NoteOutcome(t.hist[t.net.pc.v].status, r);
            && (noted.ready <==> r.AllReady?)
            && Step(t, Deploy(r)).net.pc == Writing(t.net.pc.v, SetOverallStatus(noted)) &&
               SetOverallStatus(noted).ready
  {
    RunKeepsBase(s, actions);
    assert PcInv(Run(s, actions), Net);
  }

  /**
   A failure of the device stage sends the pipeline back to its first stage: it writes the parameter condition,
   so the params controller derives the claims anew and the device controller stops.
   */
  lemma DeviceFailureRestartsClaims(s: State)
    requires Base(s) && s.device.pc == Writing(|s.hist| - 1, DeviceFailed(s.Last().status))
    ensures var t := Step(s, WriteStatus(Device));
            && s.Last().status.param.True? && t.hist == s.hist + [s.Last().(status := DeviceFailed(s.Last().status))]
            && Proceeds(Params, t.Last().status) && !Proceeds(Device, t.Last().status)
            && Rank(t.Last(), t.seenDesign) == Rank(s.Last(), s.seenDesign) + 1
  {
    assert PcInv(s, Device) && s.W(Device) == s.device;
  }

  // ---------------------------------------------------------------- progress

  /** The part of an object the other controllers act on. */
  function Stage(o: Network): (Option<Refs>, bool, bool) {
    (o.status.refs, o.status.param.True?, o.status.device.True?)
  }

  /** How many stage-changing status writes are still needed before a deploy. */
  function Rank(o: Network, design: nat): nat {
    (if o.status.refs == Some(Refs(o.spec, design)) then 0 else 3) +
    (if !o.status.param.True? then 2 else if !o.status.device.True? then 1 else 0)
  }

  /** No edit of the spec or the design, and nothing fails. */
  predicate Calm(a: Action) {
    match a
    case EditSpec(_) => false
    case EditDesign => false
    case GetDesign(_, found) => found
    case ApplyClaims(ok) => ok
    case BuildDevices(ok) => ok
    case ApplyDevices(ok) => ok
    case CheckDevices(r) => r.AllReady? || r.StillProcessing?
    case _ => true
  }

  /** The cache has the current design, and no worker holds the result of a failure or of an older design. */
  ghost predicate Settled(s: State) {
    && Base(s) && s.seenDesign == s.design
    && (s.params.pc.Writing? ==> s.params.pc.status.param.True?)
    && (s.device.pc.Writing? ==> s.device.pc.status.param.True?)
    && (s.net.pc.Writing? ==>
          var o, st := s.hist[s.net.pc.v], s.net.pc.status;
          st == SetOverallStatus(o.status) ||
          (st.refs == Some(Refs(o.spec, s.design)) && o.status.refs != st.refs && !st.param.True? && !st.device.True?))
  }

  lemma CalmStepSettled(s: State, a: Action, t: State)
    requires Settled(s) && Calm(a) && t == Step(s, a)
    ensures Settled(t) && t.design == s.design
  {
    StepKeepsBase(s, a);
    StepWellFormed(s, a, t);
    assert PcInv(s, Params) && PcInv(s, Device) && PcInv(s, Net);
  }

  lemma CalmWriteLowersRank(s: State, c: Controller, st: Status)
    requires Settled(s) && s.W(c).pc == Writing(|s.hist| - 1, st)
    ensures var o := s.Last().(status := st);
            Stage(o) == Stage(s.Last()) || Rank(o, s.design) < Rank(s.Last(), s.design)
  {
    assert PcInv(s, c) && Staged(s.Last().status);
  }

  /** Every calm step leaves the stage of the stored object alone or lowers its rank. */
  lemma CalmStepLowersRank(s: State, a: Action, t: State)
    requires Settled(s) && Calm(a) && t == Step(s, a)
    ensures t.hist != []
    ensures (Stage(t.Last()) == Stage(s.Last()) && t.Last().spec == s.Last().spec) ||
            Rank(t.Last(), s.design) < Rank(s.Last(), s.design)
  {
    hide Rank, Stage, HistInv, PcInv;
    StepWellFormed(s, a, t);
    if a.WriteStatus? && t.hist != s.hist {
      CalmWriteLowersRank(s, a.c, s.W(a.c).pc.status);
      assert t.Last() == s.Last().(status := s.W(a.c).pc.status);
    }
  }

  /** How many steps of a run change the stage of the stored object. */
  ghost function Moves(s: State, actions: seq<Action>): nat
    requires WellFormed(s)
  {
    if actions == [] then 0
    else
      var k := |actions| - 1;
      Moves(s, actions[..k]) +
      (if Stage(Run(s, actions).Last()) != Stage(Run(s, actions[..k]).Last()) then 1 else 0)
  }

  /**
   Pipeline progress: with spec and design fixed and no failure, every status write that changes the stage
   lowers the rank, so there are at most as many as the rank at the start: five at most, and two once the
   references are current.
   */
  lemma {:induction false} MovesBoundedByRank(s: State, actions: seq<Action>)
    requires Settled(s)
    requires forall k :: 0 <= k < |actions| ==> Calm(actions[k])
    ensures Settled(Run(s, actions)) && Run(s, actions).design == s.design
    ensures Moves(s, actions) + Rank(Run(s, actions).Last(), s.design) <= Rank(s.Last(), s.design) <= 5
    ensures s.Last().status.refs == Some(Refs(s.Last().spec, s.design)) ==> Moves(s, actions) <= 2
  {
    if actions != [] {
      var k := |actions| - 1;
      MovesBoundedByRank(s, actions[..k]);
      var t := Run(s, actions[..k]);
      CalmStepSettled(t, actions[k], Run(s, actions));
      CalmStepLowersRank(t, actions[k], Run(s, actions));
    }
  }

  /** Rank zero is exactly readiness to deploy: a reconcile that reads the stored object then deploys. */
  lemma DeploysExactlyAtRankZero(s: State)
    requires Settled(s) && s.net.pc.Idle? && s.seen == |s.hist| - 1
    ensures Step(Step(s, Get(Net)), GetDesign(Net, true)).net.pc.Deploying? <==> Rank(s.Last(), s.design) == 0
  {
    assert s.W(Net) == s.net;
    assert Staged(s.Last().status);
  }
}
