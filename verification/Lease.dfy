/**
 The lease protocol of pkg/reconcilers/lease/lease.go: any number of clients run AcquireLease against
 one stored lease object and one clock. Every API call is its own step, so calls of different clients
 interleave freely; the object's resource version is its position in the history of stored values.
 */
module Lease {
  import opened Options

  /** Times are microseconds (NowMicro); a lease lasts defaultLeaseInterval, one second. */
  const SECOND: nat := 1_000_000
  const INTERVAL_SECONDS: nat := 1

  /** The fields of a LeaseSpec the code reads; each is a pointer that a foreign writer may leave nil. */
  datatype LeaseSpec = LeaseSpec(holder: Option<string>, renew: Option<nat>, seconds: Option<nat>)

  datatype Client = Client(worker: nat, identity: string)

  /** Where a client is inside AcquireLease. */
  datatype Pc =
    | Idle
    | Creating(stamp: nat)
    | Rereading
    | Checking(seen: LeaseSpec, version: nat)
    | Updating(version: nat, reading: nat)

  datatype State = State(clock: nat, history: seq<LeaseSpec>, pcs: map<Client, Pc>) {
    function At(c: Client): Pc {
      if c in pcs then pcs[c] else Idle
    }

    function Go(c: Client, pc: Pc): State {
      this.(pcs := pcs[c := pc])
    }
  }

  datatype Action =
    | Tick(elapsed: nat)
    | ApiError(c: Client)
    | FirstGet(c: Client)
    | Create(c: Client)
    | SecondGet(c: Client)
    | Check(c: Client)
    | Update(c: Client)

  function Held(identity: string, reading: nat): LeaseSpec {
    LeaseSpec(Some(identity), Some(reading), Some(INTERVAL_SECONDS))
  }

  /** The expiry test: true when another identity still holds the lease at this reading. */
  predicate Refused(seen: LeaseSpec, identity: string, reading: nat) {
    seen.holder.None? ||
    (seen.holder.value != identity && seen.renew.Some? &&
     (seen.seconds.None? || reading <= seen.renew.value + seen.seconds.value * SECOND))
  }

  /** One step of AcquireLease, or of the clock. A step taken at the wrong place changes nothing. */
  function Step(s: State, a: Action): State {
    match a
    case Tick(elapsed) => s.(clock := s.clock + elapsed)
    case ApiError(c) => s.Go(c, Idle)
    case FirstGet(c) =>
      if !s.At(c).Idle? then s
      else if s.history == [] then s.Go(c, Creating(s.clock))
      else s.Go(c, Rereading)
    case Create(c) =>
      if !s.At(c).Creating? then s
      else if s.history != [] then s.Go(c, Idle)
      else s.(history := [Held(c.identity, s.At(c).stamp)]).Go(c, Rereading)
    case SecondGet(c) =>
      if !s.At(c).Rereading? then s
      else if s.history == [] then s.Go(c, Idle)
      else s.Go(c, Checking(s.history[|s.history| - 1], |s.history|))
    case Check(c) =>
      if !s.At(c).Checking? then s
      else if Refused(s.At(c).seen, c.identity, s.clock) then s.Go(c, Idle)
      else s.Go(c, Updating(s.At(c).version, s.clock))
    case Update(c) =>
      if !s.At(c).Updating? then s
      else if s.At(c).version != |s.history| then s.Go(c, Idle)
      else s.(history := s.history + [Held(c.identity, s.At(c).reading)]).Go(c, Idle)
  }

  function Run(s: State, actions: seq<Action>): State {
    if actions == [] then s
    else Step(Run(s, actions[..|actions| - 1]), actions[|actions| - 1])
  }

  /** A start: nobody is inside AcquireLease, and at most one lease, written by anybody, is stored. */
  predicate Init(s: State) {
    s.pcs == map[] && |s.history| <= 1
  }

  /** Consecutive stored leases of different holders: the later interval starts after the earlier one ended. */
  predicate Handover(prev: LeaseSpec, next: LeaseSpec) {
    prev.holder.Some? && next.holder.Some? && prev.holder != next.holder && prev.renew.Some? ==>
      next.renew.Some? && prev.seconds.Some? &&
      prev.renew.value + prev.seconds.value * SECOND < next.renew.value
  }

  /** What every step keeps; entries from `base` on were written by this code. */
  ghost predicate Inv(s: State, base: nat) {
    && HistoryInv(s.history, s.clock, base)
    && (forall c :: c in s.pcs ==> PcInv(s.history, s.clock, base, c, s.pcs[c]))
  }

  ghost predicate HistoryInv(h: seq<LeaseSpec>, clock: nat, base: nat) {
    && (forall i :: base <= i < |h| ==> Written(h[i], clock))
    && (forall i :: 0 < i < |h| ==> Handover(h[i - 1], h[i]))
    && (forall i :: base < i < |h| ==> h[i - 1].renew.value <= h[i].renew.value)
  }

  predicate Written(l: LeaseSpec, clock: nat) {
    l.holder.Some? && l.renew.Some? && l.renew.value <= clock && l.seconds == Some(INTERVAL_SECONDS)
  }

  ghost predicate PcInv(h: seq<LeaseSpec>, clock: nat, base: nat, c: Client, pc: Pc) {
    match pc
    case Creating(stamp) => stamp <= clock
    case Checking(seen, v) => 0 < v <= |h| && seen == h[v - 1]
    case Updating(v, reading) =>
      && 0 < v <= |h| && reading <= clock
      && !Refused(h[v - 1], c.identity, reading)
      && (base < v ==> h[v - 1].renew.Some? && h[v - 1].renew.value <= reading)
    case _ => true
  }

  /** Storing a lease whose check passed on the last stored one keeps the history's invariant. */
  lemma AppendKeepsHistory(h: seq<LeaseSpec>, clock: nat, base: nat, c: Client, reading: nat)
    requires HistoryInv(h, clock, base) && base <= 1
    requires PcInv(h, clock, base, c, Updating(|h|, reading))
    ensures HistoryInv(h + [Held(c.identity, reading)], clock, base)
  {
    var t := h + [Held(c.identity, reading)];
    forall i | 0 < i < |t|
      ensures Handover(t[i - 1], t[i])
    {
      if i < |h| {
        assert Handover(h[i - 1], h[i]);
      }
    }
  }

  lemma StepKeepsHistory(s: State, base: nat, a: Action)
    requires Inv(s, base) && base <= 1 && (s.history == [] ==> base == 0)
    ensures HistoryInv(Step(s, a).history, Step(s, a).clock, base)
    ensures Step(s, a).history == [] ==> base == 0
  {
    if a.Update? && Step(s, a).history != s.history {
      AppendKeepsHistory(s.history, s.clock, base, a.c, s.At(a.c).reading);
    }
  }

  lemma StepKeepsPc(s: State, base: nat, a: Action, c: Client)
    requires Inv(s, base) && (s.history == [] ==> base == 0) && c in Step(s, a).pcs
    ensures PcInv(Step(s, a).history, Step(s, a).clock, base, c, Step(s, a).pcs[c])
  {
    if c in s.pcs {
      assert PcInv(s.history, s.clock, base, c, s.pcs[c]);
    }
  }

  lemma StepKeepsInv(s: State, base: nat, a: Action)
    requires Inv(s, base) && base <= 1 && (s.history == [] ==> base == 0)
    ensures Inv(Step(s, a), base)
    ensures Step(s, a).history == [] ==> base == 0
  {
    hide Step, PcInv, HistoryInv;
    StepKeepsHistory(s, base, a);
    forall c | c in Step(s, a).pcs
      ensures PcInv(Step(s, a).history, Step(s, a).clock, base, c, Step(s, a).pcs[c])
    {
      StepKeepsPc(s, base, a, c);
    }
  }

  lemma {:induction false} RunKeepsInv(s: State, actions: seq<Action>)
    requires Init(s)
    ensures Inv(Run(s, actions), |s.history|)
    ensures Run(s, actions).history == [] ==> s.history == []
  {
    if actions != [] {
      RunKeepsInv(s, actions[..|actions| - 1]);
      StepKeepsInv(Run(s, actions[..|actions| - 1]), |s.history|, actions[|actions| - 1]);
    }
  }

  /** Two different holders among the leases written by this code are more than one interval apart. */
  lemma {:induction false} HoldersApart(s: State, base: nat, i: nat, j: nat)
    requires Inv(s, base) && base <= i < j < |s.history|
    ensures s.history[i].renew.value <= s.history[j].renew.value
    ensures s.history[i].holder != s.history[j].holder ==>
              s.history[i].renew.value + INTERVAL_SECONDS * SECOND < s.history[j].renew.value
  {
    assert Handover(s.history[j - 1], s.history[j]);
    if i + 1 < j {
      HoldersApart(s, base, i, j - 1);
    }
  }

  /**
   Mutual exclusion over all runs: once an identity has stored the lease with clock reading n, no other
   identity stores it later with a reading of n plus one second or less; and any two consecutive stored
   leases with different holders, whoever wrote the first, have disjoint intervals.
   */
  lemma MutualExclusion(s: State, actions: seq<Action>)
    requires Init(s)
    ensures var h := Run(s, actions).history;
            && (forall i :: |s.history| <= i < |h| ==> h[i].holder.Some? && h[i].renew.Some?)
            && (forall i, j :: |s.history| <= i < j < |h| && h[i].holder != h[j].holder ==>
                  h[i].renew.value + INTERVAL_SECONDS * SECOND < h[j].renew.value)
            && (forall i :: 0 < i < |h| ==> Handover(h[i - 1], h[i]))
  {
    RunKeepsInv(s, actions);
    var t := Run(s, actions);
    forall i, j | |s.history| <= i < j < |t.history|
      ensures t.history[i].holder != t.history[j].holder ==>
                t.history[i].renew.value + INTERVAL_SECONDS * SECOND < t.history[j].renew.value
    {
      HoldersApart(t, |s.history|, i, j);
    }
  }

  /**
   The version check carries the property: a client whose check passed on an object that has since been
   replaced changes nothing, and a client that does write replaces exactly the object it checked.
   */
  lemma UpdateReplacesWhatWasChecked(s: State, actions: seq<Action>, c: Client)
    requires Init(s)
    requires Run(s, actions).At(c).Updating?
    ensures var t := Run(s, actions);
            var u := Step(t, Update(c));
            u.history != t.history ==>
              && t.history != []
              && u.history == t.history + [LeaseSpec(Some(c.identity), Some(t.At(c).reading), Some(1))]
              && var last := t.history[|t.history| - 1];
                 && last.holder.Some?
                 && (last.holder.value == c.identity || last.renew.None? ||
                     (last.seconds.Some? && last.renew.value + last.seconds.value * 1_000_000 < t.At(c).reading))
  {
    RunKeepsInv(s, actions);
    var t := Run(s, actions);
    assert PcInv(t.history, t.clock, |s.history|, c, t.pcs[c]);
  }

  // ---------------------------------------------------------------- exactly when a call takes the lease

  /** No step of client c, so c stays where it is inside its call. */
  ghost predicate Elsewhere(actions: seq<Action>, c: Client) {
    forall k :: 0 <= k < |actions| ==> actions[k].Tick? || actions[k].c != c
  }

  lemma {:induction false} OthersLeaveClient(s: State, actions: seq<Action>, c: Client)
    requires Elsewhere(actions, c)
    ensures Run(s, actions).At(c) == s.At(c) && s.history <= Run(s, actions).history
  {
    if actions != [] {
      OthersLeaveClient(s, actions[..|actions| - 1], c);
    }
  }

  /** The call of client c on a stored lease, with the steps of others and of the clock in between. */
  function Call(c: Client, first: seq<Action>, second: seq<Action>, third: seq<Action>): seq<Action> {
    [FirstGet(c)] + first + [SecondGet(c)] + second + [Check(c)] + third + [Update(c)]
  }

  lemma {:induction false} RunAppend(s: State, a: seq<Action>, b: seq<Action>)
    ensures Run(s, a + b) == Run(Run(s, a), b)
  {
    if b == [] {
      assert a + b == a;
    } else {
      assert (a + b)[..|a + b| - 1] == a + b[..|b| - 1];
      RunAppend(s, a, b[..|b| - 1]);
    }
  }

  lemma RunOne(s: State, actions: seq<Action>, a: Action)
    ensures Run(s, actions + [a]) == Step(Run(s, actions), a)
  {
    assert (actions + [a])[..|actions|] == actions;
  }

  /** The states a call goes through. */
  lemma CallStates(s: State, c: Client, first: seq<Action>, second: seq<Action>, third: seq<Action>)
    ensures var r := Run(Step(s, FirstGet(c)), first);
            var k := Run(Step(r, SecondGet(c)), second);
            var u := Run(Step(k, Check(c)), third);
            Run(s, Call(c, first, second, third)) == Step(u, Update(c))
  {
    hide Step;
    var a := [FirstGet(c)];
    RunOne(s, [], FirstGet(c));
    assert [] + a == a && Run(s, []) == s;
    RunAppend(s, a, first);
    RunOne(s, a + first, SecondGet(c));
    RunAppend(s, a + first + [SecondGet(c)], second);
    RunOne(s, a + first + [SecondGet(c)] + second, Check(c));
    RunAppend(s, a + first + [SecondGet(c)] + second + [Check(c)], third);
    RunOne(s, a + first + [SecondGet(c)] + second + [Check(c)] + third, Update(c));
  }

  /**
   Exactly when a call takes the lease: if nobody else writes between its read and its update, the caller's lease of
   one second from its clock reading is stored if and only if the last stored lease has a holder, which is the caller
   itself, or has no renew time, or has run out before that reading. Otherwise nothing is stored.
   */
  lemma TakeoverExactly(s: State, c: Client, first: seq<Action>, second: seq<Action>, third: seq<Action>)
    requires s.At(c).Idle? && s.history != []
    requires Elsewhere(first, c) && Elsewhere(second, c) && Elsewhere(third, c)
    requires var r := Run(Step(s, FirstGet(c)), first);
             Run(Step(Run(Step(r, SecondGet(c)), second), Check(c)), third).history == r.history
    ensures Run(Step(s, FirstGet(c)), first).history != []
    ensures var r := Run(Step(s, FirstGet(c)), first);
            var last, now := r.history[|r.history| - 1], Run(Step(r, SecondGet(c)), second).clock;
            Run(s, Call(c, first, second, third)).history ==
            if last.holder.Some? &&
               (last.holder.value == c.identity || last.renew.None? ||
                (last.seconds.Some? && last.renew.value + last.seconds.value * 1_000_000 < now))
            then r.history + [LeaseSpec(Some(c.identity), Some(now), Some(1))]
            else r.history
  {
    var s1 := Step(s, FirstGet(c));
    var r := Run(s1, first);
    OthersLeaveClient(s1, first, c);
    var s2 := Step(r, SecondGet(c));
    var k := Run(s2, second);
    OthersLeaveClient(s2, second, c);
    var s3 := Step(k, Check(c));
    OthersLeaveClient(s3, third, c);
    CallStates(s, c, first, second, third);
    assert r.history <= k.history <= Run(s3, third).history;
  }

  /** A call that finds no lease stores one from its first reading of the clock, unless another is created before. */
  lemma CreateExactly(s: State, c: Client, first: seq<Action>)
    requires s.At(c).Idle? && s.history == [] && Elsewhere(first, c)
    ensures var r := Run(Step(s, FirstGet(c)), first);
            Step(r, Create(c)).history ==
            if r.history == [] then [LeaseSpec(Some(c.identity), Some(s.clock), Some(1))] else r.history
  {
    OthersLeaveClient(Step(s, FirstGet(c)), first, c);
  }
}
