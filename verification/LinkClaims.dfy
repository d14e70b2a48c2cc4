/**
 The link controller of pkg/reconcilers/link/reconciler.go: a claim on up to two endpoints with rollback,
 run by any number of links, one worker per link, against shared endpoints. Every read and every
 version-checked update is its own step.

 An endpoint's resource version is its index in the history of its owners. Reads go through the manager's
 cache, which per endpoint only moves forward and may be behind the store.
 */
module LinkClaims {
  import opened Options

  type Name = string

  /** The endpoints a link names: GetEndPointIDA and GetEndPointIDB, either of which may be nil. */
  datatype LinkSpec = LinkSpec(a: Option<Name>, b: Option<Name>)

  function EndpointsOf(l: LinkSpec): seq<Name> {
    (if l.a.Some? then [l.a.value] else []) + (if l.b.Some? then [l.b.value] else [])
  }

  /** An endpoint object in a worker's hands: its name and the version it was read at. */
  datatype Copy = Copy(ep: Name, version: nat)

  datatype Result = Ready | NotFound | RolledBack | RollbackFailed

  /** Where a link's worker is inside Reconcile. */
  datatype Pc =
    | Idle
    | Reading(got: seq<Copy>, todo: seq<Name>, failed: bool)
    | Applying(claimed: seq<Name>, copies: seq<Copy>)
    | Releasing(done: seq<Name>, todo: seq<Name>, failed: bool)
    | ReleaseWrite(done: seq<Name>, copy: Copy, todo: seq<Name>, failed: bool)
    | Finishing(result: Result)

  /**
   `hist` is the owner of every stored version of an endpoint, `seen` the version the cache has, and `own` the
   version of a link's last write. `spoiled` holds the links whose worker crashed or failed a release since they
   were last Ready or rolled back; `missed` the link and endpoint pairs whose last release read was shown another
   owner than the link, although the link owned the endpoint.
   */
  datatype State = State(links: map<Name, LinkSpec>, hist: map<Name, seq<Option<Name>>>, seen: map<Name, nat>,
                         pcs: map<Name, Pc>, own: map<(Name, Name), nat>,
                         spoiled: set<Name>, missed: set<(Name, Name)>) {
    function At(l: Name): Pc {
      if l in pcs then pcs[l] else Idle
    }

    function Go(l: Name, pc: Pc): State {
      this.(pcs := pcs[l := pc])
    }

    function Names(l: Name): seq<Name> {
      if l in links then EndpointsOf(links[l]) else []
    }

    function OwnOf(l: Name, ep: Name): nat {
      if (l, ep) in own then own[(l, ep)] else 0
    }

    predicate Owns(l: Name, ep: Name) {
      ep in hist && hist[ep] != [] && hist[ep][|hist[ep]| - 1] == Some(l)
    }

    predicate InCache(ep: Name) {
      ep in seen && ep in hist && seen[ep] < |hist[ep]|
    }

    /** The cache shows the endpoint as owned by l. */
    predicate ShownOwned(l: Name, ep: Name) {
      InCache(ep) && hist[ep][seen[ep]] == Some(l)
    }

    predicate Fresh(c: Copy) {
      c.ep in hist && hist[c.ep] != [] && c.version == |hist[c.ep]| - 1
    }

    /** The API server's update by l: it takes effect when the copy is of the stored version. */
    function Write(l: Name, c: Copy, owner: Option<Name>): State {
      if Fresh(c)
      then this.(hist := hist[c.ep := hist[c.ep] + [owner]], own := own[(l, c.ep) := c.version + 1])
      else this
    }
  }

  /** How an update call ends: it may also fail with the reply, or with the write itself, lost. */
  datatype Reply = Answered | ReplyLost | WriteLost

  datatype Action =
    | AddEndpoint(ep: Name)
    | TouchEndpoint(ep: Name)
    | Sync(ep: Name, to: nat)
    | Start(l: Name, deleting: bool)
    | Read(l: Name, error: bool)
    | Claim(l: Name, reply: Reply)
    | ReleaseRead(l: Name, error: bool)
    | Release(l: Name, reply: Reply)
    | Finish(l: Name)
    | Crash(l: Name)

  function AfterRead(got: seq<Copy>, todo: seq<Name>, failed: bool): Pc {
    if todo != [] then Reading(got, todo, failed)
    else if failed then Finishing(NotFound)
    else AfterClaim([], got)
  }

  function AfterClaim(claimed: seq<Name>, todo: seq<Copy>): Pc {
    if todo == [] then Finishing(Ready) else Applying(claimed, todo)
  }

  function AfterRelease(done: seq<Name>, todo: seq<Name>, failed: bool): Pc {
    if todo != [] then Releasing(done, todo, failed)
    else Finishing(if failed then RollbackFailed else RolledBack)
  }

  /** An update of an endpoint: by which link, from which copy, to which owner. */
  datatype Update = Update(link: Name, copy: Copy, owner: Option<Name>)

  function UpdateOf(s: State, a: Action): Option<Update> {
    match a
    case Claim(l, reply) =>
      if s.At(l).Applying? && s.At(l).copies != [] && !reply.WriteLost? then Some(Update(l, s.At(l).copies[0], Some(l)))
      else None
    case Release(l, reply) =>
      if s.At(l).ReleaseWrite? && !reply.WriteLost? then Some(Update(l, s.At(l).copy, None)) else None
    case _ => None
  }

  /** The store after the step. */
  function Stored(s: State, a: Action): State {
    if UpdateOf(s, a).Some? then
      var u := UpdateOf(s, a).value;
      s.Write(u.link, u.copy, u.owner)
    else
      match a
      case AddEndpoint(ep) => if ep in s.hist then s else s.(hist := s.hist[ep := [None]])
      case TouchEndpoint(ep) =>
        if ep in s.hist && s.hist[ep] != [] then s.(hist := s.hist[ep := s.hist[ep] + [s.hist[ep][|s.hist[ep]| - 1]]])
        else s
      case _ => s
  }

  /** Only the worker of l has moved, and only marks of l have changed. */
  ghost predicate Local(s: State, t: State, l: Name) {
    && t.links == s.links && t.hist == s.hist && t.own == s.own
    && (forall k :: k != l ==> t.At(k) == s.At(k) && (k in t.spoiled <==> k in s.spoiled))
    && (forall k, ep :: k != l ==> ((k, ep) in t.missed <==> (k, ep) in s.missed))
  }

  /** getEndpoints takes an endpoint that the cache shows free or its own; any other is an error, like a failed read. */
  function ReadStep(s: State, l: Name, pc: Pc, error: bool): (t: State)
    requires pc.Reading? && pc.todo != []
    ensures Local(s, t, l)
  {
    var ep := pc.todo[0];
    if !error && s.InCache(ep) && (s.hist[ep][s.seen[ep]].None? || s.ShownOwned(l, ep))
    then s.Go(l, AfterRead(pc.got + [Copy(ep, s.seen[ep])], pc.todo[1..], pc.failed))
    else s.Go(l, AfterRead(pc.got, pc.todo[1..], true))
  }

  /** apply claims the copies in turn; the first error starts the rollback over all named endpoints. */
  function ClaimStep(s: State, t: State, l: Name, pc: Pc, reply: Reply): (u: State)
    requires pc.Applying? && pc.copies != []
    ensures Local(t, u, l)
  {
    var c := pc.copies[0];
    t.Go(l, if reply.Answered? && s.Fresh(c) then AfterClaim(pc.claimed + [c.ep], pc.copies[1..])
            else AfterRelease([], s.Names(l), false))
  }

  /**
   releaseEndpoint: an endpoint that the cache shows absent, free or foreign is left alone without error, an own
   one is written back free.
   */
  function ReleaseReadStep(s: State, l: Name, pc: Pc, error: bool): (t: State)
    requires pc.Releasing? && pc.todo != []
    ensures Local(s, t, l)
  {
    var ep := pc.todo[0];
    if error then s.Go(l, AfterRelease(pc.done + [ep], pc.todo[1..], true))
    else if s.ShownOwned(l, ep) then s.Go(l, ReleaseWrite(pc.done, Copy(ep, s.seen[ep]), pc.todo[1..], pc.failed))
    else
      s.(missed := if s.Owns(l, ep) then s.missed + {(l, ep)} else s.missed - {(l, ep)})
       .Go(l, AfterRelease(pc.done + [ep], pc.todo[1..], pc.failed))
  }

  function ReleaseStep(s: State, t: State, l: Name, pc: Pc, reply: Reply): (u: State)
    requires pc.ReleaseWrite?
    ensures Local(t, u, l)
  {
    var ok := reply.Answered? && s.Fresh(pc.copy);
    t.(missed := if ok then t.missed - {(l, pc.copy.ep)} else t.missed)
     .Go(l, AfterRelease(pc.done + [pc.copy.ep], pc.todo, pc.failed || !ok))
  }

  function FinishStep(s: State, l: Name, r: Result): (t: State)
    ensures Local(s, t, l)
  {
    var t := s.Go(l, Idle);
    match r
    case Ready => t.(spoiled := s.spoiled - {l})
    case RolledBack => t.(spoiled := s.spoiled - {l})
    case NotFound => t
    case RollbackFailed => t.(spoiled := s.spoiled + {l})
  }

  function Step(s: State, a: Action): State {
    match a
    case AddEndpoint(_) => Stored(s, a)
    case TouchEndpoint(_) => Stored(s, a)
    case Sync(ep, to) =>
      if ep in s.hist && to < |s.hist[ep]| && (ep in s.seen ==> s.seen[ep] <= to) then s.(seen := s.seen[ep := to])
      else s
    case Start(l, deleting) =>
      if !s.At(l).Idle? || l !in s.links then s
      else if deleting then s.Go(l, AfterRelease([], s.Names(l), false))
      else s.Go(l, AfterRead([], s.Names(l), false))
    case Read(l, error) => if s.At(l).Reading? && s.At(l).todo != [] then ReadStep(s, l, s.At(l), error) else s
    case Claim(l, reply) =>
      if s.At(l).Applying? && s.At(l).copies != [] then ClaimStep(s, Stored(s, a), l, s.At(l), reply) else s
    case ReleaseRead(l, error) =>
      if s.At(l).Releasing? && s.At(l).todo != [] then ReleaseReadStep(s, l, s.At(l), error) else s
    case Release(l, reply) => if s.At(l).ReleaseWrite? then ReleaseStep(s, Stored(s, a), l, s.At(l), reply) else s
    case Finish(l) => if s.At(l).Finishing? then FinishStep(s, l, s.At(l).result) else s
    case Crash(l) => if s.At(l).Idle? then s else s.Go(l, Idle).(spoiled := s.spoiled + {l})
  }

  function Run(s: State, actions: seq<Action>): State {
    if actions == [] then s
    else Step(Run(s, actions[..|actions| - 1]), actions[|actions| - 1])
  }

  /** The cache holds versions that exist. */
  ghost predicate SeenExists(s: State) {
    forall ep :: ep in s.seen ==> ep in s.hist && s.seen[ep] < |s.hist[ep]|
  }

  /** A start: no worker is running, and no version of an endpoint is claimed. */
  ghost predicate Init(s: State) {
    && s.pcs == map[] && s.own == map[] && s.spoiled == {} && s.missed == {}
    && (forall ep :: ep in s.hist ==> s.hist[ep] != []) && SeenExists(s)
    && (forall ep, v :: ep in s.hist && 0 <= v < |s.hist[ep]| ==> s.hist[ep][v].None?)
  }

  ghost predicate OwnsAll(s: State, l: Name, names: seq<Name>) {
    forall ep :: ep in names ==> s.Owns(l, ep)
  }

  /** Of these endpoints the link owns exactly those that a release read missed. */
  ghost predicate OwnsMissed(s: State, l: Name, names: seq<Name>) {
    forall ep :: ep in names ==> (s.Owns(l, ep) <==> (l, ep) in s.missed)
  }

  ghost predicate Sound(s: State, l: Name) {
    OwnsAll(s, l, s.Names(l)) || OwnsMissed(s, l, s.Names(l))
  }

  /** A copy in l's hands was free or l's own when it was read. */
  ghost predicate CopyInv(s: State, l: Name, c: Copy, owned: bool) {
    c.ep in s.hist && c.version < |s.hist[c.ep]| &&
    (s.hist[c.ep][c.version] == Some(l) || (!owned && s.hist[c.ep][c.version].None?))
  }

  ghost predicate CopiesInv(s: State, l: Name, cs: seq<Copy>) {
    forall i :: 0 <= i < |cs| ==> CopyInv(s, l, cs[i], false)
  }

  function Eps(cs: seq<Copy>): seq<Name> {
    seq(|cs|, i requires 0 <= i < |cs| => cs[i].ep)
  }

  /** What l's own position implies; `sound` adds what holds when l is not spoiled. */
  ghost predicate PcInv(s: State, l: Name, pc: Pc, sound: bool) {
    match pc
    case Idle => sound ==> Sound(s, l)
    case Reading(got, todo, failed) =>
      && CopiesInv(s, l, got) && todo != []
      && (!failed ==> Eps(got) + todo == s.Names(l))
      && (sound ==> Sound(s, l))
    case Applying(claimed, todo) =>
      && CopiesInv(s, l, todo) && todo != []
      && claimed + Eps(todo) == s.Names(l)
      && OwnsAll(s, l, claimed)
    case Releasing(done, todo, failed) =>
      && todo != [] && done + todo == s.Names(l)
      && (!failed ==> OwnsMissed(s, l, done))
    case ReleaseWrite(done, copy, todo, failed) =>
      && CopyInv(s, l, copy, true)
      && done + [copy.ep] + todo == s.Names(l)
      && (!failed ==> OwnsMissed(s, l, done))
    case Finishing(Ready) => OwnsAll(s, l, s.Names(l))
    case Finishing(RolledBack) => OwnsMissed(s, l, s.Names(l))
    case Finishing(NotFound) => sound ==> Sound(s, l)
    case Finishing(RollbackFailed) => true
  }

  /** From a link's last write on, its own versions are all alike: nobody else takes or frees what it owns. */
  ghost predicate OwnInv(s: State, l: Name, ep: Name) {
    if ep !in s.hist then s.OwnOf(l, ep) == 0
    else
      s.hist[ep] != [] && s.OwnOf(l, ep) < |s.hist[ep]| &&
      forall v :: s.OwnOf(l, ep) <= v < |s.hist[ep]| ==> (s.hist[ep][v] == Some(l) <==> s.Owns(l, ep))
  }

  ghost predicate Inv(s: State) {
    && (forall l :: PcInv(s, l, s.At(l), l !in s.spoiled))
    && (forall l, ep :: OwnInv(s, l, ep))
  }

  /** What other links' steps leave alone for l. */
  ghost predicate SameFor(s: State, t: State, l: Name) {
    && t.links == s.links && t.At(l) == s.At(l) && (l in s.spoiled <==> l in t.spoiled)
    && Extends(s, t)
    && (forall ep :: t.Owns(l, ep) <==> s.Owns(l, ep))
    && (forall ep :: (l, ep) in t.missed <==> (l, ep) in s.missed)
  }

  ghost predicate Extends(s: State, t: State) {
    forall ep :: ep in s.hist ==> ep in t.hist && s.hist[ep] <= t.hist[ep]
  }

  lemma OthersKeepPcInv(s: State, t: State, l: Name)
    requires PcInv(s, l, s.At(l), l !in s.spoiled) && SameFor(s, t, l)
    ensures PcInv(t, l, t.At(l), l !in t.spoiled)
  {
    assert t.Names(l) == s.Names(l);
  }

  /** The link whose worker takes the step, if any. */
  function Actor(a: Action): Option<Name> {
    match a
    case AddEndpoint(_) => None
    case TouchEndpoint(_) => None
    case Sync(_, _) => None
    case Start(l, _) => Some(l)
    case Read(l, _) => Some(l)
    case Claim(l, _) => Some(l)
    case ReleaseRead(l, _) => Some(l)
    case Release(l, _) => Some(l)
    case Finish(l) => Some(l)
    case Crash(l) => Some(l)
  }

  lemma StoredKeeps(s: State, a: Action)
    ensures var t := Stored(s, a);
            t.pcs == s.pcs && t.spoiled == s.spoiled && t.missed == s.missed && t.links == s.links && t.seen == s.seen
  {
  }

  /** A step is an update of the store, and a move of the link whose worker takes it. */
  lemma StepIsLocal(s: State, a: Action)
    ensures Actor(a).Some? ==> Local(Stored(s, a), Step(s, a), Actor(a).value)
    ensures Actor(a).None? ==> Step(s, a).(seen := s.seen) == Stored(s, a)
  {
    hide AfterRead, AfterRelease, ReadStep, ClaimStep, ReleaseReadStep, ReleaseStep, FinishStep;
  }

  /** An update that takes effect claims what was free or already the link's, or frees what was the link's. */
  lemma UpdatesAreFair(s: State, a: Action)
    requires Inv(s) && UpdateOf(s, a).Some?
    ensures var u := UpdateOf(s, a).value;
            && (u.owner == Some(u.link) || u.owner.None?)
            && (s.Fresh(u.copy) ==>
                  s.hist[u.copy.ep][u.copy.version] == Some(u.link) ||
                  (u.owner.Some? && s.hist[u.copy.ep][u.copy.version].None?))
  {
    hide OwnInv;
    var l := UpdateOf(s, a).value.link;
    assert PcInv(s, l, s.At(l), l !in s.spoiled);
    if a.Claim? {
      assert CopyInv(s, l, s.At(l).copies[0], false);
    }
  }

  /** An owner changes only from free to the link that claims, or from the link that releases to free. */
  ghost predicate FairChange(s: State, a: Action, t: State, ep: Name)
    requires ep in s.hist && s.hist[ep] != [] && ep in t.hist && t.hist[ep] != []
  {
    var o, n := s.hist[ep][|s.hist[ep]| - 1], t.hist[ep][|t.hist[ep]| - 1];
    o != n ==> Actor(a).Some? && ((a.Claim? && o.None? && n == Actor(a)) || (a.Release? && o == Actor(a) && n.None?))
  }

  lemma WritesOnlyOwnOrFree(s: State, a: Action, ep: Name)
    requires Inv(s) && ep in s.hist
    ensures var t := Step(s, a);
            ep in t.hist && s.hist[ep] != [] && s.hist[ep] <= t.hist[ep] && FairChange(s, a, t, ep)
  {
    hide Step, PcInv;
    assert OwnInv(s, "", ep);
    StepIsLocal(s, a);
    if UpdateOf(s, a).Some? {
      UpdatesAreFair(s, a);
    }
  }

  lemma NewIsFree(s: State, a: Action, ep: Name)
    requires ep !in s.hist
    ensures ep in Step(s, a).hist ==> Step(s, a).hist[ep] == [None]
  {
    hide Step;
    StepIsLocal(s, a);
  }

  lemma OthersUnaffected(s: State, a: Action, l: Name)
    requires Inv(s) && Actor(a) != Some(l)
    ensures SameFor(s, Step(s, a), l)
  {
    hide Step, Inv;
    StepIsLocal(s, a);
    StoredKeeps(s, a);
    forall ep
      ensures Step(s, a).Owns(l, ep) <==> s.Owns(l, ep)
      ensures ep in s.hist ==> ep in Step(s, a).hist && s.hist[ep] <= Step(s, a).hist[ep]
    {
      if ep in s.hist {
        WritesOnlyOwnOrFree(s, a, ep);
      } else {
        NewIsFree(s, a, ep);
      }
    }
  }

  lemma AfterReadInv(t: State, l: Name, got: seq<Copy>, todo: seq<Name>, failed: bool, sound: bool)
    requires CopiesInv(t, l, got)
    requires !failed ==> Eps(got) + todo == t.Names(l)
    requires sound ==> Sound(t, l)
    ensures PcInv(t, l, AfterRead(got, todo, failed), sound)
  {
    assert Eps(got) + [] == Eps(got) == [] + Eps(got);
  }

  lemma AfterReleaseInv(t: State, l: Name, done: seq<Name>, todo: seq<Name>, failed: bool, sound: bool)
    requires done + todo == t.Names(l)
    requires !failed ==> OwnsMissed(t, l, done)
    ensures PcInv(t, l, AfterRelease(done, todo, failed), sound)
  {
    assert done + [] == done;
  }

  lemma SoundStays(s: State, t: State, l: Name)
    requires t.hist == s.hist && t.missed == s.missed && t.links == s.links
    ensures Sound(s, l) ==> Sound(t, l)
  {
    assert t.Names(l) == s.Names(l) && forall ep :: t.Owns(l, ep) <==> s.Owns(l, ep);
  }

  lemma OwnRead(s: State, l: Name, error: bool)
    requires Inv(s) && s.At(l).Reading?
    ensures var t := ReadStep(s, l, s.At(l), error);
            PcInv(t, l, t.At(l), l !in t.spoiled)
  {
    hide OwnInv, Sound;
    assert PcInv(s, l, s.At(l), l !in s.spoiled);
    var t, pc := ReadStep(s, l, s.At(l), error), s.At(l);
    var ep := pc.todo[0];
    SoundStays(s, t, l);
    if !error && s.InCache(ep) && (s.hist[ep][s.seen[ep]].None? || s.ShownOwned(l, ep)) {
      var got := pc.got + [Copy(ep, s.seen[ep])];
      assert Eps(got) + pc.todo[1..] == Eps(pc.got) + pc.todo;
      AfterReadInv(t, l, got, pc.todo[1..], pc.failed, l !in t.spoiled);
    } else {
      AfterReadInv(t, l, pc.got, pc.todo[1..], true, l !in t.spoiled);
    }
  }

  lemma OwnStart(s: State, l: Name, deleting: bool)
    requires Inv(s)
    ensures var t := Step(s, Start(l, deleting));
            PcInv(t, l, t.At(l), l !in t.spoiled)
  {
    hide OwnInv, Sound;
    assert PcInv(s, l, s.At(l), l !in s.spoiled);
    var t := Step(s, Start(l, deleting));
    SoundStays(s, t, l);
    NoneMissed(t, l);
    if s.At(l).Idle? && l in s.links {
      assert [] + s.Names(l) == s.Names(l);
      if deleting {
        AfterReleaseInv(t, l, [], s.Names(l), false, l !in t.spoiled);
      } else {
        assert Eps([]) == [];
        AfterReadInv(t, l, [], s.Names(l), false, l !in t.spoiled);
      }
    }
  }

  lemma ClaimTakes(s: State, t: State, l: Name, claimed: seq<Name>, copies: seq<Copy>)
    requires copies != [] && CopiesInv(s, l, copies) && OwnsAll(s, l, claimed)
    requires s.Fresh(copies[0]) && t == s.Write(l, copies[0], Some(l))
    ensures OwnsAll(t, l, claimed + [copies[0].ep]) && CopiesInv(t, l, copies[1..])
  {
    forall i | 0 <= i < |copies[1..]|
      ensures CopyInv(t, l, copies[1..][i], false)
    {
      assert CopyInv(s, l, copies[i + 1], false);
    }
  }

  lemma OwnClaim(s: State, l: Name, reply: Reply)
    requires Inv(s) && s.At(l).Applying?
    ensures var t := ClaimStep(s, Stored(s, Claim(l, reply)), l, s.At(l), reply);
            PcInv(t, l, t.At(l), l !in t.spoiled)
  {
    hide OwnInv, Sound, OwnsMissed;
    assert PcInv(s, l, s.At(l), l !in s.spoiled);
    var u, pc := Stored(s, Claim(l, reply)), s.At(l);
    var t, c := ClaimStep(s, u, l, pc, reply), pc.copies[0];
    assert t.Names(l) == s.Names(l);
    if reply.Answered? && s.Fresh(c) {
      ClaimTakes(s, u, l, pc.claimed, pc.copies);
      ClaimNext(s, t, u, l, pc.claimed, pc.copies);
    } else {
      assert [] + s.Names(l) == s.Names(l);
      NoneMissed(t, l);
      AfterReleaseInv(t, l, [], s.Names(l), false, l !in t.spoiled);
    }
  }

  lemma NoneMissed(t: State, l: Name)
    ensures OwnsMissed(t, l, [])
  {
  }

  lemma ClaimNext(s: State, t: State, u: State, l: Name, claimed: seq<Name>, copies: seq<Copy>)
    requires copies != [] && claimed + Eps(copies) == s.Names(l) && t.Names(l) == s.Names(l) && t.hist == u.hist
    requires OwnsAll(u, l, claimed + [copies[0].ep]) && CopiesInv(u, l, copies[1..])
    ensures PcInv(t, l, AfterClaim(claimed + [copies[0].ep], copies[1..]), l !in t.spoiled)
  {
    hide Sound, OwnsMissed;
    assert Eps(copies) == [copies[0].ep] + Eps(copies[1..]);
    assert (claimed + [copies[0].ep]) + Eps(copies[1..]) == claimed + Eps(copies);
  }

  lemma OwnReleaseRead(s: State, l: Name, error: bool)
    requires Inv(s) && s.At(l).Releasing?
    ensures var t := ReleaseReadStep(s, l, s.At(l), error);
            PcInv(t, l, t.At(l), l !in t.spoiled)
  {
    assert PcInv(s, l, s.At(l), l !in s.spoiled);
    var t, pc := ReleaseReadStep(s, l, s.At(l), error), s.At(l);
    var ep := pc.todo[0];
    assert (pc.done + [ep]) + pc.todo[1..] == pc.done + pc.todo;
    assert t.Names(l) == s.Names(l) && forall e :: t.Owns(l, e) <==> s.Owns(l, e);
    if error {
      AfterReleaseInv(t, l, pc.done + [ep], pc.todo[1..], true, l !in t.spoiled);
    } else if !s.ShownOwned(l, ep) {
      assert !pc.failed ==> OwnsMissed(t, l, pc.done + [ep]);
      AfterReleaseInv(t, l, pc.done + [ep], pc.todo[1..], pc.failed, l !in t.spoiled);
    } else {
      assert pc.done + [ep] + pc.todo[1..] == t.Names(l);
    }
  }

  lemma OwnRelease(s: State, l: Name, reply: Reply)
    requires Inv(s) && s.At(l).ReleaseWrite?
    ensures var t := ReleaseStep(s, Stored(s, Release(l, reply)), l, s.At(l), reply);
            PcInv(t, l, t.At(l), l !in t.spoiled)
  {
    assert PcInv(s, l, s.At(l), l !in s.spoiled);
    var t, pc := ReleaseStep(s, Stored(s, Release(l, reply)), l, s.At(l), reply), s.At(l);
    var ok := reply.Answered? && s.Fresh(pc.copy);
    AfterReleaseInv(t, l, pc.done + [pc.copy.ep], pc.todo, pc.failed || !ok, l !in t.spoiled);
  }

  lemma OwnFinish(s: State, l: Name)
    requires Inv(s)
    ensures var t := Step(s, Finish(l));
            PcInv(t, l, t.At(l), l !in t.spoiled)
  {
    assert PcInv(s, l, s.At(l), l !in s.spoiled);
  }

  lemma StepKeepsPcInv(s: State, a: Action, l: Name)
    requires Inv(s)
    ensures var t := Step(s, a);
            PcInv(t, l, t.At(l), l !in t.spoiled)
  {
    hide PcInv, OwnInv;
    if Actor(a) != Some(l) {
      OthersUnaffected(s, a, l);
      assert PcInv(s, l, s.At(l), l !in s.spoiled);
      OthersKeepPcInv(s, Step(s, a), l);
    } else {
      match a
      case Start(_, deleting) => OwnStart(s, l, deleting);
      case Read(_, error) => OwnReadAction(s, l, error);
      case Claim(_, reply) => OwnClaimAction(s, l, reply);
      case ReleaseRead(_, error) => OwnReleaseReadAction(s, l, error);
      case Release(_, reply) => OwnReleaseAction(s, l, reply);
      case Finish(_) => OwnFinish(s, l);
      case Crash(_) => OwnCrash(s, l);
    }
  }

  lemma OwnClaimAction(s: State, l: Name, reply: Reply)
    requires Inv(s)
    ensures var t := Step(s, Claim(l, reply));
            PcInv(t, l, t.At(l), l !in t.spoiled)
  {
    hide OwnInv, ClaimStep, Stored;
    assert PcInv(s, l, s.At(l), l !in s.spoiled);
    if s.At(l).Applying? {
      OwnClaim(s, l, reply);
    }
  }

  lemma OwnReadAction(s: State, l: Name, error: bool)
    requires Inv(s)
    ensures var t := Step(s, Read(l, error));
            PcInv(t, l, t.At(l), l !in t.spoiled)
  {
    assert PcInv(s, l, s.At(l), l !in s.spoiled);
    if s.At(l).Reading? {
      OwnRead(s, l, error);
    }
  }

  lemma OwnReleaseReadAction(s: State, l: Name, error: bool)
    requires Inv(s)
    ensures var t := Step(s, ReleaseRead(l, error));
            PcInv(t, l, t.At(l), l !in t.spoiled)
  {
    assert PcInv(s, l, s.At(l), l !in s.spoiled);
    if s.At(l).Releasing? {
      OwnReleaseRead(s, l, error);
    }
  }

  lemma OwnReleaseAction(s: State, l: Name, reply: Reply)
    requires Inv(s)
    ensures var t := Step(s, Release(l, reply));
            PcInv(t, l, t.At(l), l !in t.spoiled)
  {
    assert PcInv(s, l, s.At(l), l !in s.spoiled);
    if s.At(l).ReleaseWrite? {
      OwnRelease(s, l, reply);
    }
  }

  lemma OwnCrash(s: State, l: Name)
    requires Inv(s)
    ensures var t := Step(s, Crash(l));
            PcInv(t, l, t.At(l), l !in t.spoiled)
  {
    assert PcInv(s, l, s.At(l), l !in s.spoiled);
  }

  /** An update by c of endpoint e keeps every link's record of its own versions. */
  lemma WriteKeepsOwnInv(s: State, c: Name, copy: Copy, owner: Option<Name>, l: Name, ep: Name)
    requires OwnInv(s, l, ep) && (owner == Some(c) || owner.None?)
    requires s.Fresh(copy) ==> s.hist[copy.ep][copy.version].None? || s.hist[copy.ep][copy.version] == Some(c)
    ensures OwnInv(s.Write(c, copy, owner), l, ep)
  {
  }

  lemma StoredKeepsOwnInv(s: State, a: Action, l: Name, ep: Name)
    requires Inv(s)
    ensures OwnInv(Stored(s, a), l, ep)
  {
    hide PcInv;
    assert OwnInv(s, l, ep);
    if UpdateOf(s, a).Some? {
      var u := UpdateOf(s, a).value;
      UpdatesAreFair(s, a);
      WriteKeepsOwnInv(s, u.link, u.copy, u.owner, l, ep);
    }
  }

  lemma SameOwnInv(s: State, t: State, l: Name, ep: Name)
    requires OwnInv(s, l, ep) && t.hist == s.hist && t.own == s.own
    ensures OwnInv(t, l, ep)
  {
  }

  lemma StepKeepsOwnInv(s: State, a: Action, l: Name, ep: Name)
    requires Inv(s)
    ensures OwnInv(Step(s, a), l, ep)
  {
    hide Step, Stored, Inv, OwnInv;
    StoredKeepsOwnInv(s, a, l, ep);
    StepIsLocal(s, a);
    SameOwnInv(Stored(s, a), Step(s, a), l, ep);
  }

  lemma StepKeepsInv(s: State, a: Action)
    requires Inv(s)
    ensures Inv(Step(s, a))
  {
    hide Step, PcInv, OwnInv;
    var t := Step(s, a);
    forall l
      ensures PcInv(t, l, t.At(l), l !in t.spoiled)
    {
      StepKeepsPcInv(s, a, l);
    }
    forall l, ep
      ensures OwnInv(t, l, ep)
    {
      StepKeepsOwnInv(s, a, l, ep);
    }
  }

  lemma LinksStay(s: State, a: Action)
    ensures Step(s, a).links == s.links
  {
    hide Step;
    StepIsLocal(s, a);
    StoredKeeps(s, a);
  }

  lemma {:induction false} RunKeepsInv(s: State, actions: seq<Action>)
    requires Init(s)
    ensures Inv(Run(s, actions)) && Run(s, actions).links == s.links
  {
    if actions != [] {
      RunKeepsInv(s, actions[..|actions| - 1]);
      StepKeepsInv(Run(s, actions[..|actions| - 1]), actions[|actions| - 1]);
      LinksStay(Run(s, actions[..|actions| - 1]), actions[|actions| - 1]);
    }
  }

  /**
   Ownership transfer, over every step of every run: an owner changes only from free to the link that is
   claiming, or from the link that is releasing to free. No link ever takes an endpoint from another.
   */
  lemma OwnerChangesOnlyThroughFree(s: State, actions: seq<Action>, a: Action, ep: Name)
    requires Init(s) && ep in Run(s, actions).hist
    ensures var t := Run(s, actions);
            var u := Step(t, a);
            && t.hist[ep] != [] && ep in u.hist && t.hist[ep] <= u.hist[ep] && u.hist[ep] != []
            && FairChange(t, a, u, ep)
  {
    hide Run, Init;
    RunKeepsInv(s, actions);
    WritesOnlyOwnOrFree(Run(s, actions), a, ep);
  }

  /** At the step where a link's worker writes Ready, the link owns every endpoint it names. */
  lemma ReadyOwnsEverything(s: State, actions: seq<Action>, l: Name, ep: Name)
    requires Init(s)
    requires Run(s, actions).At(l) == Finishing(Ready)
    ensures ep in s.Names(l) ==> Step(Run(s, actions), Finish(l)).Owns(l, ep)
  {
    hide Run, Init;
    RunKeepsInv(s, actions);
    var t := Run(s, actions);
    assert PcInv(t, l, t.At(l), l !in t.spoiled);
    assert t.Names(l) == s.Names(l);
  }
}
