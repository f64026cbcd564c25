// The staged withdrawal of a tenant's providers as a transition system: one
// controller worker, the tenant's ExtProc pods, Envoy's rules, and requests in
// flight. Rules are written one HTTPRoute at a time; every other action is one
// read or write. Everything else can happen between any two of them, and the
// controller can fail between any two.
module WithdrawalProtocol {
  import opened Drain
  import opened Overlays
  import Rollout
  import opened Routes
  import opened StableIds
  import opened Wrappers

  type PodId = Rollout.Uid

  // A request that some pod routed to a candidate. Its rule times out 300 s
  // after Envoy takes it, which may lag the pod's choice by the safety margin.
  datatype Request = Request(candidate: Source, deadline: int)

  datatype Phase =
    | Idle
    | Staged(desired: set<Source>, union: set<Bound>, pending: bool)
    | Applied(desired: set<Source>, pending: bool)
    | Published(desired: set<Source>, pending: bool)
    | Drained(desired: set<Source>)
    | Pruned

  // installed: the applied rules. first: the candidates whose rules stand ahead
  // of the kept ones, because they were desired when the rules were written.
  datatype State = State(
    now: int,
    published: Option<Content>,
    pods: map<PodId, Content>,
    installed: set<Bound>,
    first: set<Source>,
    inFlight: set<Request>,
    drain: Annotation,
    phase: Phase)

  // What a reconcile finds when it stages: the candidates whose provider object
  // is gone, and the applied rules it reads back.
  datatype Reading = Reading(gone: set<Source>, read: set<Bound>)

  datatype Action =
    // Environment.
    | Tick(elapsed: nat)
    | Load(pods: set<PodId>)
    | Stop(pods: set<PodId>)
    | Arrive(pod: PodId, request: Request)
    | Finish(request: Request)
    // The home reconcile of the tenant, in its fixed order. Applying and
    // pruning write the rules of some models, then all of them.
    | Stage(desired: set<Source>, reading: Reading)
    | ApplySome(models: set<string>)
    | Apply
    | Publish(attached: set<StableId>, rest: string)
    | Observe(verdict: Rollout.Verdict, recorded: bool)
    | PruneSome(models: set<string>)
    | Prune
    | Clear(attachmentPending: bool)
    | Abort
    // Reconciles of models attached from other namespaces. They keep the
    // tenant's own local candidates, and share the drain annotation; a
    // candidate of another namespace goes with its reference.
    | AttachmentPublish(own: set<Source>, attached: set<StableId>, rest: string)
    | AttachmentObserve(verdict: Rollout.Verdict, recorded: bool)

  function OwnOf(published: Option<Content>): set<Source> {
    if published.Some? then published.value.own else {}
  }

  /******* Staging *******/

  // A rule is read back unless its Service or its identity is not recognised.
  // One that was relabelled names no provider namespace any more, so its
  // provider is looked up.
  predicate Readable(x: Bound, gone: set<Source>) {
    !SinkLike(x.target) && if x.id == x.target then !Hashed(x.target) else x.target !in gone
  }

  // One readable rule of each label; that of the local provider, when there is
  // one, because its profile replaces what the others say.
  ghost predicate IsRead(rules: set<Bound>, reading: Reading) {
    && (forall x :: x in reading.read ==> x in rules && Readable(x, reading.gone))
    && (forall x, y :: x in reading.read && y in reading.read && x.id == y.id ==> x == y)
    && (forall x :: x in rules && Readable(x, reading.gone) ==> x.id in Ids(reading.read))
    && (forall x :: x in rules && Readable(x, reading.gone) && x.id == x.target ==> x in reading.read)
  }

  // Every identity a desired candidate goes by.
  function Current(desired: set<Source>): set<Source> {
    desired + set d | d in desired :: LocalForm(d)
  }

  // A kept rule has its identity from the published overlay, else the local
  // form, which is all that is read back.
  function Relabelled(s: State, x: Bound): Bound {
    if x.id in OwnOf(s.published) then x else Bound(LocalForm(x.id), x.target)
  }

  function Kept(s: State, desired: set<Source>, reading: Reading): set<Bound> {
    set x | x in reading.read && x.id !in Current(desired) :: Relabelled(s, x)
  }

  // The published candidates that no rule was read back for.
  function Restaged(s: State, desired: set<Source>, reading: Reading): set<Source> {
    set c | c in OwnOf(s.published) && !Hashed(c) && c !in Current(desired) && c !in Ids(reading.read)
            && c !in reading.gone
  }

  function Union(s: State, desired: set<Source>, reading: Reading): set<Bound> {
    Native(desired) + Kept(s, desired, reading) + Native(Restaged(s, desired, reading))
  }

  predicate Pending(s: State, desired: set<Source>, reading: Reading) {
    Kept(s, desired, reading) != {} || Restaged(s, desired, reading) != {}
  }

  /******* Actions *******/

  // A safe verdict is only returned while pods serve, and every one of them
  // serves what is published; see SafeVerdictIsTrue.
  ghost predicate Truthful(s: State, verdict: Rollout.Verdict) {
    verdict.Safe? ==>
      s.published.Some? && s.pods != map[] && forall p :: p in s.pods ==> s.pods[p] == s.published.value
  }

  // The annotation after an observation, when its write was accepted.
  function DrainAfter(s: State, verdict: Rollout.Verdict): (Annotation, int) {
    if verdict.Unknown? || s.published.None? then (s.drain, REQUEUE)
    else Observed(s.drain, s.published.value, verdict.Safe?, s.now)
  }

  ghost predicate Enabled(s: State, a: Action) {
    match a
    case Tick(_) => true
    case Load(_) => s.published.Some?
    case Stop(_) => true
    // A pod routes only to the candidates of the overlay it serves, over the
    // candidate's own rule.
    case Arrive(p, r) =>
      && p in s.pods && r.candidate in s.pods[p].own && Bound(r.candidate, r.candidate) in s.installed
      && s.now < r.deadline <= s.now + DRAIN
    case Finish(_) => true
    // Without any desired candidate the reconcile takes another path.
    case Stage(desired, reading) => s.phase.Idle? && desired != {} && IsRead(s.installed, reading)
    case ApplySome(_) => s.phase.Staged?
    case Apply => s.phase.Staged?
    case Publish(_, _) => s.phase.Applied?
    case Observe(v, _) => s.phase.Published? && s.phase.pending && Truthful(s, v)
    case PruneSome(_) => s.phase.Drained?
    case Prune => s.phase.Drained?
    case Clear(_) => s.phase.Pruned? || (s.phase.Published? && !s.phase.pending)
    case Abort => true
    case AttachmentPublish(own, _, _) =>
      s.phase.Idle? && own <= OwnOf(s.published) && forall c :: c in OwnOf(s.published) && c.Local? ==> c in own
    case AttachmentObserve(v, _) => s.phase.Idle? && Truthful(s, v)
  }

  // The rules of some models replaced by those of another list.
  function Partly(rules: set<Bound>, next: set<Bound>, models: set<string>): set<Bound> {
    (set x | x in rules && x.target.model !in models) + set x | x in next && x.target.model in models
  }

  function PartlyFirst(first: set<Source>, next: set<Source>, models: set<string>): set<Source> {
    (set c | c in first && c.model !in models) + set c | c in next && c.model in models
  }

  function Next(s: State, a: Action): State {
    match a
    case Tick(d) =>
      s.(now := s.now + d, inFlight := set r | r in s.inFlight && s.now + d < r.deadline)
    case Load(ps) =>
      if s.published.None? then s else s.(pods := s.pods + map p | p in ps :: s.published.value)
    case Stop(ps) => s.(pods := s.pods - ps)
    case Arrive(_, r) => s.(inFlight := s.inFlight + {r})
    case Finish(r) => s.(inFlight := s.inFlight - {r})
    case Stage(desired, reading) =>
      s.(phase := Staged(desired, Union(s, desired, reading), Pending(s, desired, reading)))
    case ApplySome(models) =>
      if s.phase.Staged? then
        s.(installed := Partly(s.installed, s.phase.union, models),
           first := PartlyFirst(s.first, s.phase.desired, models))
      else s
    case Apply =>
      if s.phase.Staged? then
        s.(installed := s.phase.union, first := s.phase.desired, phase := Applied(s.phase.desired, s.phase.pending))
      else s
    case Publish(attached, rest) =>
      if s.phase.Applied? then
        s.(published := Some(Content(s.phase.desired, attached, rest)),
           phase := Published(s.phase.desired, s.phase.pending))
      else s
    case Observe(v, recorded) =>
      var (drain, wait) := DrainAfter(s, v);
      if !recorded && drain != s.drain then s.(phase := Idle)
      else s.(drain := drain, phase := if wait == 0 && s.phase.Published? then Drained(s.phase.desired) else Idle)
    case PruneSome(models) =>
      if s.phase.Drained? then
        s.(installed := Partly(s.installed, Native(s.phase.desired), models),
           first := PartlyFirst(s.first, s.phase.desired, models))
      else s
    case Prune =>
      if s.phase.Drained? then
        s.(installed := Native(s.phase.desired), first := s.phase.desired, phase := Pruned)
      else s
    case Clear(attachmentPending) =>
      s.(drain := if attachmentPending then s.drain else Absent, phase := Idle)
    case Abort => s.(phase := Idle)
    case AttachmentPublish(own, attached, rest) => s.(published := Some(Content(own, attached, rest)))
    case AttachmentObserve(v, recorded) =>
      var drain := DrainAfter(s, v).0;
      if recorded then s.(drain := drain) else s
  }

  // The clock moves only with a recorded observation that is known, of the
  // published overlay, and when it is cleared while no attachment is being
  // withdrawn: a safe one starts it unless it runs for this overlay, an unsafe
  // one stops it.
  lemma {:induction false} ClockIsExact(s: State, a: Action)
    requires Enabled(s, a)
    ensures var clock := Next(s, a).drain;
      if (a.Observe? || a.AttachmentObserve?) && a.recorded && !a.verdict.Unknown? && s.published.Some? then
        if a.verdict == Rollout.Unsafe then clock == (if s.drain.Draining? then Absent else s.drain)
        else if s.drain.Draining? && s.drain.revision == s.published.value then clock == s.drain
        else clock == Draining(s.published.value, s.now)
      else if a.Clear? && !a.attachmentPending then clock == Absent
      else clock == s.drain
  {
  }

  // The transport is given up for pruning exactly when a safe observation finds
  // the clock running for the published overlay since 310 seconds; that needs
  // no write.
  lemma {:induction false} DrainsExactly(s: State, a: Action)
    requires Enabled(s, a) && !s.phase.Drained?
    ensures Next(s, a).phase.Drained? <==>
      && a.Observe? && a.verdict == Rollout.Safe && s.published.Some?
      && s.drain.Draining? && s.drain.revision == s.published.value && s.now - s.drain.startedAt >= 310 * SECOND
  {
  }

  // The overlay an action publishes, if it publishes one.
  function Publishes(s: State, a: Action): Option<Content> {
    match a
    case Publish(attached, rest) => if s.phase.Applied? then Some(Content(s.phase.desired, attached, rest)) else None
    case AttachmentPublish(own, attached, rest) => Some(Content(own, attached, rest))
    case _ => None
  }

  // Republishing an overlay whose drain clock is still stored, after another
  // overlay was published in between without a recorded observation.
  predicate Stale(s: State, next: Content) {
    s.drain.Draining? && s.drain.revision == next && s.published != Some(next)
  }

  predicate Fresh(s: State, a: Action) {
    match Publishes(s, a)
    case Some(next) => !Stale(s, next)
    case None => true
  }

  /******* Runs *******/

  datatype Run = Run(states: seq<State>, actions: seq<Action>)

  ghost predicate ValidRun(r: Run) {
    && |r.states| == |r.actions| + 1
    && forall i :: 0 <= i < |r.actions| ==> Steps(r.states[i], r.actions[i], r.states[i + 1])
  }

  ghost predicate Steps(s: State, a: Action, t: State) {
    Enabled(s, a) && t == Next(s, a)
  }

  ghost predicate AllFresh(r: Run)
    requires |r.states| == |r.actions| + 1
  {
    forall i :: 0 <= i < |r.actions| ==> Fresh(r.states[i], r.actions[i])
  }

  function End(r: Run): State
    requires |r.states| == |r.actions| + 1
  {
    r.states[|r.actions|]
  }

  // One rule for each target, under its own identity or the local form of it.
  ghost predicate Rendered(rules: set<Bound>) {
    && (forall x, y :: x in rules && y in rules && x.target == y.target ==> x == y)
    && (forall x :: x in rules ==> x.id == x.target || x.id == LocalForm(x.target))
  }

  ghost predicate Init(s: State) {
    && s.published.None? && s.pods == map[] && s.inFlight == {} && s.drain.Absent? && s.phase.Idle?
    && Rendered(s.installed)
  }

  lemma {:induction false} Extend(r: Run, a: Action) returns (longer: Run)
    requires ValidRun(r) && Enabled(End(r), a)
    ensures ValidRun(longer) && |longer.actions| == |r.actions| + 1
    ensures longer.states[..|r.states|] == r.states && longer.actions == r.actions + [a]
    ensures longer.states[0] == r.states[0]
    ensures End(longer) == Next(End(r), a)
  {
    longer := Run(r.states + [Next(End(r), a)], r.actions + [a]);
    forall i | 0 <= i < |longer.actions| ensures Steps(longer.states[i], longer.actions[i], longer.states[i + 1]) {
      if i < |r.actions| { assert Steps(r.states[i], r.actions[i], r.states[i + 1]); }
    }
  }

  // One run after another.
  lemma {:induction false} Join(a: Run, b: Run) returns (r: Run)
    requires ValidRun(a) && ValidRun(b) && b.states[0] == End(a)
    ensures ValidRun(r) && r.states[0] == a.states[0] && |r.actions| == |a.actions| + |b.actions|
    ensures forall i :: 0 <= i < |b.actions| ==>
      r.states[|a.actions| + i] == b.states[i] && r.actions[|a.actions| + i] == b.actions[i]
  {
    r := Run(a.states + b.states[1..], a.actions + b.actions);
    var n := |a.actions|;
    forall i | 0 <= i < |r.actions| ensures Steps(r.states[i], r.actions[i], r.states[i + 1]) {
      if i < n {
        assert Steps(a.states[i], a.actions[i], a.states[i + 1]);
      } else {
        assert r.states[i] == b.states[i - n] && r.states[i + 1] == b.states[i - n + 1];
        assert Steps(b.states[i - n], b.actions[i - n], b.states[i - n + 1]);
      }
    }
  }

  /******* The rules of every reachable state *******/

  // A published candidate's rule carries its own identity.
  ghost predicate Named(s: State, rules: set<Bound>) {
    forall x :: x in rules && x.target in OwnOf(s.published) ==> x.id == x.target
  }

  // The desired candidates have their rules, ahead of the kept ones.
  ghost predicate Leads(rules: set<Bound>, first: set<Source>, desired: set<Source>) {
    Native(desired) <= rules && desired <= first
  }

  ghost predicate Sound(s: State) {
    && Rendered(s.installed) && Named(s, s.installed)
    && match s.phase
       case Idle => true
       case Staged(desired, union, pending) =>
         && Rendered(union) && Named(s, union) && Native(desired) <= union
         && (!pending ==> union == Native(desired))
       case Applied(desired, pending) =>
         Leads(s.installed, s.first, desired) && (!pending ==> s.installed == Native(desired))
       case Published(desired, pending) =>
         && s.published.Some? && desired == s.published.value.own
         && Leads(s.installed, s.first, desired) && (!pending ==> s.installed == Native(desired))
       case Drained(desired) =>
         && s.published.Some? && desired == s.published.value.own && Leads(s.installed, s.first, desired)
         && (forall p :: p in s.pods ==> s.pods[p] == s.published.value)
       case Pruned => true
  }

  // Where a kept rule comes from.
  lemma {:induction false} KeptFrom(s: State, desired: set<Source>, reading: Reading, y: Bound) returns (x: Bound)
    requires Sound(s) && IsRead(s.installed, reading) && y in Kept(s, desired, reading)
    ensures x in reading.read && x in s.installed && x.id !in Current(desired)
    ensures y == Relabelled(s, x) && y.target == x.target
    ensures y.target !in desired && (y.id == y.target || y.id == LocalForm(y.target))
  {
    x :| x in reading.read && x.id !in Current(desired) && y == Relabelled(s, x);
    assert x in s.installed;
  }

  lemma {:induction false} KeptOrRestaged(s: State, desired: set<Source>, reading: Reading, y: Bound)
    requires Sound(s) && IsRead(s.installed, reading) && y in Kept(s, desired, reading)
    ensures y.target !in Restaged(s, desired, reading)
  {
    var x := KeptFrom(s, desired, reading, y);
    assert x.id in Ids(reading.read);
    assert x.target in OwnOf(s.published) ==> x.id == x.target;
  }

  // A kept rule is the only one of its target.
  lemma {:induction false} OneTarget(s: State, desired: set<Source>, reading: Reading, x: Bound, y: Bound)
    requires Sound(s) && IsRead(s.installed, reading)
    requires x in Union(s, desired, reading) && y in Union(s, desired, reading) && x.target == y.target
    ensures x == y
  {
    var kept := Kept(s, desired, reading);
    if x in kept {
      var x0 := KeptFrom(s, desired, reading, x);
      KeptOrRestaged(s, desired, reading, x);
      if y in kept { var y0 := KeptFrom(s, desired, reading, y); }
    } else if y in kept {
      var y0 := KeptFrom(s, desired, reading, y);
      KeptOrRestaged(s, desired, reading, y);
    }
  }

  lemma {:induction false} UnionIsRendered(s: State, desired: set<Source>, reading: Reading)
    requires Sound(s) && IsRead(s.installed, reading)
    ensures Rendered(Union(s, desired, reading)) && Named(s, Union(s, desired, reading))
  {
    var union := Union(s, desired, reading);
    forall x, y | x in union && y in union && x.target == y.target ensures x == y {
      OneTarget(s, desired, reading, x, y);
    }
    forall y | y in union
      ensures y.id == y.target || y.id == LocalForm(y.target)
      ensures y.target in OwnOf(s.published) ==> y.id == y.target
    {
      if y in Kept(s, desired, reading) {
        var x := KeptFrom(s, desired, reading, y);
        assert x.target in OwnOf(s.published) ==> x.id == x.target;
      }
    }
  }

  lemma {:induction false} RenderedPart(rules: set<Bound>, next: set<Bound>, models: set<string>)
    requires Rendered(rules) && Rendered(next)
    ensures Rendered(Partly(rules, next, models))
  {
  }

  lemma {:induction false} SoundStep(s: State, a: Action)
    requires Sound(s) && Enabled(s, a)
    ensures Sound(Next(s, a))
  {
    match a
    case Stage(desired, reading) => UnionIsRendered(s, desired, reading);
    case ApplySome(models) => RenderedPart(s.installed, s.phase.union, models);
    case PruneSome(models) => RenderedPart(s.installed, Native(s.phase.desired), models);
    case Publish(attached, rest) => PublishIsNamed(s, s.phase.desired);
    case _ =>
  }

  lemma {:induction false} PublishIsNamed(s: State, desired: set<Source>)
    requires Rendered(s.installed) && Native(desired) <= s.installed
    ensures forall x :: x in s.installed && x.target in desired ==> x.id == x.target
  {
    forall x | x in s.installed && x.target in desired ensures x.id == x.target {
      assert Bound(x.target, x.target) in Native(desired);
    }
  }

  lemma {:induction false} SoundAlways(r: Run, i: nat)
    requires ValidRun(r) && Sound(r.states[0]) && i < |r.states|
    ensures Sound(r.states[i])
  {
    if i > 0 {
      SoundAlways(r, i - 1);
      assert Steps(r.states[i - 1], r.actions[i - 1], r.states[i - 1 + 1]);
      SoundStep(r.states[i - 1], r.actions[i - 1]);
    }
  }

  /******* Make before break *******/

  // A request for the candidate reaches its provider and no other: the rule
  // for it is there, and stands first or alone.
  ghost predicate Routed(rules: set<Bound>, first: set<Source>, c: Source) {
    && Bound(c, c) in rules
    && (c in first || forall x :: x in rules && x.id == c ==> x.target == c)
  }

  // Now, and once what is staged is applied.
  ghost predicate StaysRouted(s: State, c: Source) {
    && Routed(s.installed, s.first, c)
    && (s.phase.Staged? ==> Routed(s.phase.union, s.phase.desired, c))
  }

  ghost predicate Served(s: State, c: Source) {
    exists p :: p in s.pods && c in s.pods[p].own
  }

  // Every candidate the published overlay may select is routed.
  ghost predicate PublishedRoutable(s: State) {
    forall c :: c in OwnOf(s.published) ==> StaysRouted(s, c)
  }

  // So is every candidate that some pod still serves.
  ghost predicate MakeBeforeBreak(s: State) {
    PublishedRoutable(s) && forall c :: Served(s, c) ==> StaysRouted(s, c)
  }

  // A desired provider of another namespace goes by the same local name, so
  // the candidate counts as desired.
  predicate Hidden(desired: set<Source>, c: Source) {
    c !in desired && c in Current(desired)
  }

  // A provider of another namespace with the same name is read back under the
  // candidate's identity.
  ghost predicate Clashes(s: State, desired: set<Source>, reading: Reading, c: Source) {
    exists x :: x in reading.read && x.target != c && x.id !in Current(desired) && Relabelled(s, x).id == c
  }

  // Staging does not keep the rule of a candidate under its identity, or not
  // for it alone.
  ghost predicate Drops(s: State, desired: set<Source>, reading: Reading, c: Source) {
    && c !in desired
    && (|| Hidden(desired, c)
        || Clashes(s, desired, reading, c)
        || if c in OwnOf(s.published) then Hashed(c) || (SinkLike(c) && c in reading.gone)
           else c.Scoped? || SinkLike(c))
  }

  // No rule is read back under an identity whose own rule would not be.
  lemma {:induction false} UnreadName(s: State, reading: Reading, c: Source)
    requires Rendered(s.installed) && IsRead(s.installed, reading) && !ReadsBack(c) && !Hashed(c)
    ensures c !in Ids(reading.read)
  {
    forall y | y in reading.read ensures y.id != c {
      assert y in s.installed && !SinkLike(y.target);
    }
  }

  // The rule stays, whatever else there is.
  lemma {:induction false} OwnRuleStays(s: State, desired: set<Source>, reading: Reading, c: Source)
    requires Sound(s) && IsRead(s.installed, reading) && Bound(c, c) in s.installed
    requires c !in Current(desired)
    requires if c in OwnOf(s.published) then !Hashed(c) && !(SinkLike(c) && c in reading.gone)
             else c.Local? && !SinkLike(c)
    ensures Bound(c, c) in Union(s, desired, reading)
  {
    var x := Bound(c, c);
    if ReadsBack(c) {
      assert x in reading.read && Relabelled(s, x) == x;
    } else {
      UnreadName(s, reading, c);
      assert c in Restaged(s, desired, reading);
    }
  }

  // And only then.
  lemma {:induction false} OwnRuleGoes(s: State, desired: set<Source>, reading: Reading, c: Source)
    requires Sound(s) && IsRead(s.installed, reading) && Bound(c, c) in s.installed && c !in desired
    requires Bound(c, c) in Union(s, desired, reading)
    ensures c !in Current(desired)
    ensures if c in OwnOf(s.published) then !Hashed(c) && !(SinkLike(c) && c in reading.gone)
            else c.Local? && !SinkLike(c)
  {
    if Bound(c, c) in Kept(s, desired, reading) {
      var x := KeptFrom(s, desired, reading, Bound(c, c));
      assert x == Bound(c, c);
    }
  }

  lemma {:induction false} OthersOfName(s: State, desired: set<Source>, reading: Reading, c: Source)
    requires Sound(s) && IsRead(s.installed, reading) && c !in desired
    ensures Clashes(s, desired, reading, c) <==>
      exists y :: y in Union(s, desired, reading) && y.id == c && y.target != c
  {
    if Clashes(s, desired, reading, c) {
      var x :| x in reading.read && x.target != c && x.id !in Current(desired) && Relabelled(s, x).id == c;
      assert Relabelled(s, x) in Kept(s, desired, reading);
    }
    if y :| y in Union(s, desired, reading) && y.id == c && y.target != c {
      var x := KeptFrom(s, desired, reading, y);
    }
  }

  // A routed candidate stays routed if and only if staging does not drop it.
  lemma {:induction false} RoutedIffNotDropped(s: State, desired: set<Source>, reading: Reading, c: Source)
    requires Sound(s) && IsRead(s.installed, reading) && Bound(c, c) in s.installed
    ensures Routed(Union(s, desired, reading), desired, c) <==> !Drops(s, desired, reading, c)
  {
    if c !in desired {
      OthersOfName(s, desired, reading, c);
      if !Drops(s, desired, reading, c) {
        OwnRuleStays(s, desired, reading, c);
      } else if Bound(c, c) in Union(s, desired, reading) {
        OwnRuleGoes(s, desired, reading, c);
      }
    }
  }

  lemma {:induction false} RoutedInPart(rules: set<Bound>, next: set<Bound>, first: set<Source>, desired: set<Source>,
                                        models: set<string>, c: Source)
    requires Rendered(rules) && Rendered(next) && Routed(rules, first, c) && Routed(next, desired, c)
    ensures Routed(Partly(rules, next, models), PartlyFirst(first, desired, models), c)
  {
    var part := Partly(rules, next, models);
    forall x | x in part && x.id == c
      ensures x.target.model == c.model && (if c.model in models then x in next else x in rules)
    {
      assert x.id == x.target || x.id == LocalForm(x.target);
    }
  }

  // One step keeps a candidate routed, unless it stages it away or prunes it.
  lemma {:induction false} RoutedStep(s: State, a: Action, c: Source)
    requires Sound(s) && Enabled(s, a) && StaysRouted(s, c)
    requires a.Stage? ==> !Drops(s, a.desired, a.reading, c)
    requires a.Prune? || a.PruneSome? ==> c in s.phase.desired
    ensures StaysRouted(Next(s, a), c)
  {
    match a
    case Stage(desired, reading) => RoutedIffNotDropped(s, desired, reading, c);
    case ApplySome(models) =>
      RoutedInPart(s.installed, s.phase.union, s.first, s.phase.desired, models, c);
    case PruneSome(models) =>
      RoutedInPart(s.installed, Native(s.phase.desired), s.first, s.phase.desired, models, c);
    case _ =>
  }

  ghost predicate KeepsPublished(s: State, a: Action) {
    a.Stage? ==> forall c :: c in OwnOf(s.published) ==> !Drops(s, a.desired, a.reading, c)
  }

  ghost predicate KeepsServed(s: State, a: Action) {
    && KeepsPublished(s, a)
    && (a.Stage? ==> forall c :: Served(s, c) ==> !Drops(s, a.desired, a.reading, c))
  }

  ghost predicate AllKeepPublished(r: Run)
    requires |r.states| == |r.actions| + 1
  {
    forall i :: 0 <= i < |r.actions| ==> KeepsPublished(r.states[i], r.actions[i])
  }

  ghost predicate AllKeepServed(r: Run)
    requires |r.states| == |r.actions| + 1
  {
    forall i :: 0 <= i < |r.actions| ==> KeepsServed(r.states[i], r.actions[i])
  }

  lemma {:induction false} PublishedStep(s: State, a: Action)
    requires Sound(s) && PublishedRoutable(s) && Enabled(s, a) && KeepsPublished(s, a)
    ensures PublishedRoutable(Next(s, a))
  {
    var t := Next(s, a);
    forall c | c in OwnOf(t.published) ensures StaysRouted(t, c) {
      if a.Publish? {
        assert Bound(c, c) in Native(s.phase.desired);
      } else {
        RoutedStep(s, a, c);
      }
    }
  }

  lemma {:induction false} ServedStep(s: State, a: Action, c: Source)
    requires Sound(s) && MakeBeforeBreak(s) && Enabled(s, a) && KeepsServed(s, a) && Served(Next(s, a), c)
    ensures StaysRouted(Next(s, a), c)
  {
    var t := Next(s, a);
    var p :| p in t.pods && c in t.pods[p].own;
    assert Served(s, c) || c in OwnOf(s.published) by {
      if p in s.pods && s.pods[p] == t.pods[p] { assert Served(s, c); }
    }
    RoutedStep(s, a, c);
  }

  // In every run in which staging drops no published candidate, all of them
  // stay routed.
  lemma {:induction false} PublishedAlwaysRoutable(r: Run, i: nat)
    requires ValidRun(r) && Init(r.states[0]) && AllKeepPublished(r) && i < |r.states|
    ensures PublishedRoutable(r.states[i])
  {
    if i > 0 {
      PublishedAlwaysRoutable(r, i - 1);
      SoundAlways(r, i - 1);
      assert Steps(r.states[i - 1], r.actions[i - 1], r.states[i - 1 + 1]);
      PublishedStep(r.states[i - 1], r.actions[i - 1]);
    }
  }

  // And so does whatever the pods still serve, when staging drops none of that
  // either.
  lemma {:induction false} MakeBeforeBreakAlways(r: Run, i: nat)
    requires ValidRun(r) && Init(r.states[0]) && AllKeepServed(r) && i < |r.states|
    ensures MakeBeforeBreak(r.states[i])
  {
    PublishedAlwaysRoutable(r, i);
    if i > 0 {
      MakeBeforeBreakAlways(r, i - 1);
      SoundAlways(r, i - 1);
      var s, a := r.states[i - 1], r.actions[i - 1];
      assert Steps(s, a, r.states[i - 1 + 1]);
      forall c | Served(r.states[i], c) ensures StaysRouted(r.states[i], c) {
        ServedStep(s, a, c);
      }
    }
  }

  // The conditions are exact: staging and applying keep a candidate routed if
  // and only if staging does not drop it.
  lemma {:induction false} StrandingIsExact(s: State, desired: set<Source>, reading: Reading)
    requires Sound(s) && MakeBeforeBreak(s) && Enabled(s, Stage(desired, reading))
    ensures var t := Next(Next(s, Stage(desired, reading)), Apply);
      && (PublishedRoutable(t) <==> KeepsPublished(s, Stage(desired, reading)))
      && (MakeBeforeBreak(t) <==> KeepsServed(s, Stage(desired, reading)))
  {
    var t := Next(Next(s, Stage(desired, reading)), Apply);
    forall c | StaysRouted(s, c) ensures StaysRouted(t, c) <==> !Drops(s, desired, reading, c) {
      RoutedIffNotDropped(s, desired, reading, c);
    }
    forall c ensures Served(t, c) <==> Served(s, c) {
      if Served(s, c) {
        var p :| p in s.pods && c in s.pods[p].own;
        assert p in t.pods && c in t.pods[p].own;
      }
    }
  }

  /******* Names for which nothing is dropped *******/

  // No two candidates share their model and provider name, and every rule is
  // recognised when it is read back.
  ghost predicate Ordinary(names: set<Source>) {
    && (forall c :: c in names ==> ReadsBack(c))
    && (forall c, d :: c in names && d in names && LocalForm(c) == LocalForm(d) ==> c == d)
  }

  // Only these candidates occur.
  ghost predicate Within(s: State, names: set<Source>) {
    && Targets(s.installed) <= names && OwnOf(s.published) <= names
    && (forall p :: p in s.pods ==> s.pods[p].own <= names)
    && match s.phase
       case Staged(desired, union, _) => desired <= names && Targets(union) <= names
       case Applied(desired, _) => desired <= names
       case Published(desired, _) => desired <= names
       case Drained(desired) => desired <= names
       case _ => true
  }

  ghost predicate StagesWithin(r: Run, names: set<Source>)
    requires |r.states| == |r.actions| + 1
  {
    forall i :: 0 <= i < |r.actions| && r.actions[i].Stage? ==> r.actions[i].desired <= names
  }

  lemma {:induction false} UnionWithin(s: State, desired: set<Source>, reading: Reading, names: set<Source>)
    requires Sound(s) && IsRead(s.installed, reading) && Within(s, names) && desired <= names
    ensures Targets(Union(s, desired, reading)) <= names
  {
    forall y | y in Union(s, desired, reading) ensures y.target in names {
      if y in Kept(s, desired, reading) {
        var x := KeptFrom(s, desired, reading, y);
        assert x.target in Targets(s.installed);
      }
    }
  }

  lemma {:induction false} WithinPart(rules: set<Bound>, next: set<Bound>, models: set<string>, names: set<Source>)
    requires Targets(rules) <= names && Targets(next) <= names
    ensures Targets(Partly(rules, next, models)) <= names
  {
    forall x | x in Partly(rules, next, models) ensures x.target in names {
      assert x in rules ==> x.target in Targets(rules);
      assert x in next ==> x.target in Targets(next);
    }
  }

  lemma {:induction false} NativeTargets(desired: set<Source>)
    ensures Targets(Native(desired)) == desired
  {
    forall c | c in desired ensures c in Targets(Native(desired)) { assert Bound(c, c) in Native(desired); }
  }

  lemma {:induction false} WithinStep(s: State, a: Action, names: set<Source>)
    requires Sound(s) && Within(s, names) && Enabled(s, a) && (a.Stage? ==> a.desired <= names)
    ensures Within(Next(s, a), names)
  {
    match a
    case Stage(desired, reading) => UnionWithin(s, desired, reading, names);
    case ApplySome(models) => WithinPart(s.installed, s.phase.union, models, names);
    case PruneSome(models) =>
      NativeTargets(s.phase.desired);
      WithinPart(s.installed, Native(s.phase.desired), models, names);
    case Prune => NativeTargets(s.phase.desired);
    case _ =>
  }

  lemma {:induction false} WithinAlways(r: Run, names: set<Source>, i: nat)
    requires ValidRun(r) && Sound(r.states[0]) && Within(r.states[0], names) && StagesWithin(r, names)
    requires i < |r.states|
    ensures Within(r.states[i], names)
  {
    if i > 0 {
      WithinAlways(r, names, i - 1);
      SoundAlways(r, i - 1);
      assert Steps(r.states[i - 1], r.actions[i - 1], r.states[i - 1 + 1]);
      WithinStep(r.states[i - 1], r.actions[i - 1], names);
    }
  }

  lemma {:induction false} OrdinaryIsKept(s: State, desired: set<Source>, reading: Reading, names: set<Source>,
                                          c: Source)
    requires Sound(s) && IsRead(s.installed, reading) && Within(s, names) && desired <= names && Ordinary(names)
    requires c in names && (c in OwnOf(s.published) || c.Local?)
    ensures !Drops(s, desired, reading, c)
  {
    forall d | d in desired && LocalForm(d) == c ensures d == c {
      assert LocalForm(c) == c;
    }
    forall x | x in reading.read && Relabelled(s, x).id == c ensures x.target == c {
      assert x in s.installed && x.target in Targets(s.installed);
      assert LocalForm(x.target) == LocalForm(c);
    }
  }

  // With ordinary names what is published stays routable in every run, and so
  // does what pods serve when all providers are the tenant's own.
  lemma {:induction false} OrdinaryNamesSuffice(r: Run, names: set<Source>, i: nat)
    requires ValidRun(r) && Init(r.states[0]) && Targets(r.states[0].installed) <= names && StagesWithin(r, names)
    requires Ordinary(names) && i < |r.states|
    ensures PublishedRoutable(r.states[i])
    ensures (forall c :: c in names ==> c.Local?) ==> MakeBeforeBreak(r.states[i])
  {
    forall k | 0 <= k < |r.actions|
      ensures KeepsPublished(r.states[k], r.actions[k])
      ensures (forall c :: c in names ==> c.Local?) ==> KeepsServed(r.states[k], r.actions[k])
    {
      var s, a := r.states[k], r.actions[k];
      assert Steps(s, a, r.states[k + 1]);
      SoundAlways(r, k);
      WithinAlways(r, names, k);
      if a.Stage? {
        forall c | c in names && (c in OwnOf(s.published) || c.Local?) ensures !Drops(s, a.desired, a.reading, c) {
          OrdinaryIsKept(s, a.desired, a.reading, names, c);
        }
      }
    }
    PublishedAlwaysRoutable(r, i);
    if forall c :: c in names ==> c.Local? {
      MakeBeforeBreakAlways(r, i);
    }
  }

  /******* No request is cut *******/

  // A stored clock for what is published proves that nothing else has been
  // selectable since it started.
  ghost predicate ClockSound(s: State) {
    && (forall r :: r in s.inFlight ==> s.now < r.deadline <= s.now + DRAIN)
    && (s.drain.Draining? ==> s.drain.startedAt <= s.now)
    && (s.drain.Draining? && s.published == Some(s.drain.revision) ==>
         && (forall p :: p in s.pods ==> s.pods[p] == s.drain.revision)
         && (forall r :: r in s.inFlight ==>
               r.candidate in s.drain.revision.own || r.deadline <= s.drain.startedAt + DRAIN))
    && (s.phase.Drained? ==>
         s.drain.Draining? && s.published == Some(s.drain.revision) && s.now - s.drain.startedAt >= DRAIN)
  }

  ghost predicate Inv(s: State) {
    Sound(s) && ClockSound(s)
  }

  // Pruning with a request to a withdrawn candidate in flight.
  ghost predicate PruneCuts(s: State, a: Action) {
    && (a.Prune? || a.PruneSome?) && s.phase.Drained?
    && exists r :: r in s.inFlight && r.candidate !in s.phase.desired
         && (a.PruneSome? ==> r.candidate.model in a.models)
  }

  // Applying a staged list without any rule to the provider of a request in
  // flight: the transport goes at once, without a drain.
  ghost predicate ApplyCuts(s: State, a: Action) {
    && (a.Apply? || a.ApplySome?) && s.phase.Staged?
    && exists r :: r in s.inFlight && r.candidate !in Targets(s.phase.union)
         && (a.ApplySome? ==> r.candidate.model in a.models)
  }

  ghost predicate Cuts(s: State, a: Action) {
    PruneCuts(s, a) || ApplyCuts(s, a)
  }

  lemma {:induction false} ClockSoundStep(s: State, a: Action)
    requires Inv(s) && Enabled(s, a) && Fresh(s, a)
    ensures ClockSound(Next(s, a))
  {
  }

  lemma {:induction false} InvAlways(r: Run, i: nat)
    requires ValidRun(r) && Inv(r.states[0]) && AllFresh(r) && i < |r.states|
    ensures Inv(r.states[i])
  {
    if i > 0 {
      InvAlways(r, i - 1);
      assert Steps(r.states[i - 1], r.actions[i - 1], r.states[i - 1 + 1]);
      SoundStep(r.states[i - 1], r.actions[i - 1]);
      ClockSoundStep(r.states[i - 1], r.actions[i - 1]);
    }
  }

  // In every run that never republishes an overlay over its own stored clock,
  // a pruned candidate has no request in flight.
  lemma {:induction false} PruneNeverCuts(r: Run, i: nat)
    requires ValidRun(r) && Init(r.states[0]) && AllFresh(r) && i < |r.actions|
    ensures !PruneCuts(r.states[i], r.actions[i])
  {
    InvAlways(r, i);
  }

  // Staging leaves an applied rule's provider without any rule: it is not
  // desired, the published overlay does not restore it, and its rule is not
  // read back or has an identity that a desired candidate goes by.
  ghost predicate Loses(s: State, desired: set<Source>, reading: Reading, x: Bound) {
    && x.target !in desired && x.target !in Restaged(s, desired, reading)
    && (x !in reading.read || x.id in Current(desired))
  }

  lemma {:induction false} LosingIsExact(s: State, desired: set<Source>, reading: Reading, x: Bound)
    requires Sound(s) && IsRead(s.installed, reading) && x in s.installed
    ensures x.target !in Targets(Union(s, desired, reading)) <==> Loses(s, desired, reading, x)
  {
    var union := Union(s, desired, reading);
    if x.target in Targets(union) {
      var y :| y in union && y.target == x.target;
      if y in Kept(s, desired, reading) {
        var x0 := KeptFrom(s, desired, reading, y);
      }
    } else {
      assert x.target in desired ==> Bound(x.target, x.target) in union;
      assert x.target in Restaged(s, desired, reading) ==> Bound(x.target, x.target) in union;
      assert x in reading.read && x.id !in Current(desired) ==> Relabelled(s, x) in Kept(s, desired, reading);
    }
  }

  // Requests may reach the candidate's provider, or already have.
  ghost predicate Live(s: State, c: Source) {
    c in OwnOf(s.published) || Served(s, c) || exists r :: r in s.inFlight && r.candidate == c
  }

  ghost predicate LosesNothing(s: State, a: Action) {
    a.Stage? ==> forall x :: x in s.installed && Live(s, x.target) ==> !Loses(s, a.desired, a.reading, x)
  }

  ghost predicate AllLoseNothing(r: Run)
    requires |r.states| == |r.actions| + 1
  {
    forall i :: 0 <= i < |r.actions| ==> LosesNothing(r.states[i], r.actions[i])
  }

  // Every request in flight has a rule to its provider, also among the staged
  // ones.
  ghost predicate Carried(s: State) {
    && (forall r :: r in s.inFlight ==> r.candidate in Targets(s.installed))
    && (s.phase.Staged? ==>
          forall x :: x in s.installed && Live(s, x.target) ==> x.target in Targets(s.phase.union))
  }

  lemma {:induction false} StageCarries(s: State, desired: set<Source>, reading: Reading)
    requires Sound(s) && Carried(s) && Enabled(s, Stage(desired, reading)) && LosesNothing(s, Stage(desired, reading))
    ensures Carried(Next(s, Stage(desired, reading)))
  {
    var t := Next(s, Stage(desired, reading));
    forall x | x in t.installed && Live(t, x.target) ensures x.target in Targets(t.phase.union) {
      assert Live(s, x.target) by { if Served(t, x.target) { assert Served(s, x.target); } }
      LosingIsExact(s, desired, reading, x);
    }
  }

  // Applying keeps the targets of live rules.
  lemma {:induction false} PartCarries(rules: set<Bound>, next: set<Bound>, models: set<string>, c: Source)
    requires c in Targets(rules) && c in Targets(next)
    ensures c in Targets(Partly(rules, next, models))
  {
    var x :| x in rules && x.target == c;
    var y :| y in next && y.target == c;
    assert (if c.model in models then y else x) in Partly(rules, next, models);
  }

  lemma {:induction false} ApplyCarries(s: State, a: Action)
    requires Carried(s) && s.phase.Staged? && (a.Apply? || a.ApplySome?)
    ensures Carried(Next(s, a)) && !ApplyCuts(s, a)
  {
    var t := Next(s, a);
    forall r | r in s.inFlight
      ensures r.candidate in Targets(s.phase.union) && r.candidate in Targets(t.installed)
    {
      var x :| x in s.installed && x.target == r.candidate;
      assert Live(s, x.target);
      if a.ApplySome? { PartCarries(s.installed, s.phase.union, a.models, r.candidate); }
    }
    if a.ApplySome? {
      forall x | x in t.installed && Live(t, x.target) ensures x.target in Targets(t.phase.union) {
        assert Live(s, x.target) by { if Served(t, x.target) { assert Served(s, x.target); } }
        assert x in s.phase.union ==> x.target in Targets(s.phase.union);
      }
    }
  }

  // Pruning happens when every request in flight is to a desired candidate.
  lemma {:induction false} PruneCarries(s: State, a: Action)
    requires Inv(s) && Carried(s) && s.phase.Drained? && (a.Prune? || a.PruneSome?)
    ensures Carried(Next(s, a))
  {
    var desired := s.phase.desired;
    NativeTargets(desired);
    forall r | r in s.inFlight ensures r.candidate in Targets(Next(s, a).installed) {
      assert r.candidate in desired;
      if a.PruneSome? { PartCarries(s.installed, Native(desired), a.models, r.candidate); }
    }
  }

  // Nothing else comes to life, or loses a rule.
  lemma {:induction false} OtherCarries(s: State, a: Action)
    requires Sound(s) && Carried(s) && Enabled(s, a)
    requires !a.Stage? && !a.Apply? && !a.ApplySome? && !a.Prune? && !a.PruneSome?
    ensures Carried(Next(s, a))
  {
    var t := Next(s, a);
    assert t.installed == s.installed;
    forall r | r in t.inFlight ensures r.candidate in Targets(t.installed) {
      if a.Arrive? && r == a.request { assert Bound(r.candidate, r.candidate) in s.installed; }
    }
    if t.phase.Staged? {
      forall x | x in t.installed && Live(t, x.target) ensures x.target in Targets(t.phase.union) {
        LiveBefore(s, a, x.target);
      }
    }
  }

  lemma {:induction false} LiveBefore(s: State, a: Action, c: Source)
    requires Enabled(s, a) && s.phase.Staged? && Next(s, a).phase.Staged? && Live(Next(s, a), c)
    ensures Live(s, c)
  {
    var t := Next(s, a);
    if Served(t, c) {
      var p :| p in t.pods && c in t.pods[p].own;
      if p in s.pods && s.pods[p] == t.pods[p] { assert Served(s, c); }
    }
  }

  lemma {:induction false} CarriedStep(s: State, a: Action)
    requires Inv(s) && Carried(s) && Enabled(s, a) && LosesNothing(s, a)
    ensures Carried(Next(s, a))
  {
    if a.Stage? {
      StageCarries(s, a.desired, a.reading);
    } else if a.Apply? || a.ApplySome? {
      ApplyCarries(s, a);
    } else if a.Prune? || a.PruneSome? {
      PruneCarries(s, a);
    } else {
      OtherCarries(s, a);
    }
  }

  lemma {:induction false} CarriedAlways(r: Run, i: nat)
    requires ValidRun(r) && Init(r.states[0]) && AllFresh(r) && AllLoseNothing(r) && i < |r.states|
    ensures Carried(r.states[i])
  {
    if i > 0 {
      CarriedAlways(r, i - 1);
      InvAlways(r, i - 1);
      var s, a := r.states[i - 1], r.actions[i - 1];
      assert Steps(s, a, r.states[i - 1 + 1]);
      CarriedStep(s, a);
    }
  }

  // So no request is ever cut, by a prune or by applying, in a run without a
  // stale republication in which staging loses no live rule.
  lemma {:induction false} NoRequestIsCut(r: Run, i: nat)
    requires ValidRun(r) && Init(r.states[0]) && AllFresh(r) && AllLoseNothing(r) && i < |r.actions|
    ensures !Cuts(r.states[i], r.actions[i])
  {
    PruneNeverCuts(r, i);
    CarriedAlways(r, i);
    assert Steps(r.states[i], r.actions[i], r.states[i + 1]);
    if r.states[i].phase.Staged? && (r.actions[i].Apply? || r.actions[i].ApplySome?) {
      ApplyCarries(r.states[i], r.actions[i]);
    }
  }

  // And that condition is exact as well: what is staged cuts a request in
  // flight if and only if it loses its rule.
  lemma {:induction false} CutIsExact(s: State, desired: set<Source>, reading: Reading)
    requires Sound(s) && Carried(s) && Enabled(s, Stage(desired, reading))
    ensures Cuts(Next(s, Stage(desired, reading)), Apply) <==>
      exists r, x :: r in s.inFlight && x in s.installed && x.target == r.candidate && Loses(s, desired, reading, x)
  {
    forall x | x in s.installed
      ensures x.target !in Targets(Union(s, desired, reading)) <==> Loses(s, desired, reading, x)
    {
      LosingIsExact(s, desired, reading, x);
    }
    var t := Next(s, Stage(desired, reading));
    if Cuts(t, Apply) {
      var r :| r in s.inFlight && r.candidate !in Targets(t.phase.union);
      var x :| x in s.installed && x.target == r.candidate;
      assert Loses(s, desired, reading, x);
    }
  }

  /******* Runs that meet the conditions *******/

  ghost function Reader(rules: set<Bound>, gone: set<Source>, id: Source): (x: Bound)
    requires exists x :: x in rules && Readable(x, gone) && x.id == id
    ensures x in rules && Readable(x, gone) && x.id == id
    ensures Bound(id, id) in rules && Readable(Bound(id, id), gone) ==> x == Bound(id, id)
  {
    if Bound(id, id) in rules && Readable(Bound(id, id), gone) then Bound(id, id)
    else var x :| x in rules && Readable(x, gone) && x.id == id; x
  }

  // What can be read back of a list of rules.
  ghost function ReadingOf(rules: set<Bound>, gone: set<Source>): (reading: Reading)
    ensures IsRead(rules, reading) && reading.gone == gone
  {
    var readable := set x | x in rules && Readable(x, gone);
    var read := set x | x in readable :: Reader(rules, gone, x.id);
    assert forall x :: x in readable ==> Reader(rules, gone, x.id) in read;
    Reading(gone, read)
  }

  // One reconcile that stages, applies and publishes, then fails.
  lemma {:induction false} PublishFrom(r: Run, next: Content) returns (longer: Run, reading: Reading)
    requires ValidRun(r) && End(r).phase.Idle? && next.own != {}
    ensures ValidRun(longer) && longer.states[0] == r.states[0]
    ensures reading.gone == {} && IsRead(End(r).installed, reading)
    ensures End(longer) == End(r).(
      installed := Union(End(r), next.own, reading), first := next.own, published := Some(next), phase := Idle)
  {
    reading := ReadingOf(End(r).installed, {});
    longer := Extend(r, Stage(next.own, reading));
    longer := Extend(longer, Apply);
    longer := Extend(longer, Publish(next.attached, next.rest));
    longer := Extend(longer, Abort);
  }

  lemma {:induction false} UnpublishedGoes(s: State, desired: set<Source>, reading: Reading, c: Source)
    requires Sound(s) && IsRead(s.installed, reading) && c !in desired && c !in OwnOf(s.published)
    requires c.Scoped? || SinkLike(c) || c in Current(desired)
    ensures Bound(c, c) !in Union(s, desired, reading)
  {
    if Bound(c, c) in Kept(s, desired, reading) {
      var x := KeptFrom(s, desired, reading, Bound(c, c));
    }
  }

  // A pod serves some candidates from the start.
  lemma {:induction false} Serve(with: Content) returns (r: Run)
    requires with.own != {}
    ensures ValidRun(r) && Init(r.states[0])
    ensures End(r) == State(0, Some(with), map["pod" := with], Native(with.own), with.own, {}, Absent, Idle)
  {
    var s := State(0, None, map[], {}, {}, {}, Absent, Idle);
    var none;
    r, none := PublishFrom(Run([s], []), with);
    assert none.read == {};
    assert Union(s, with.own, none) == Native(with.own);
    r := Extend(r, Load({"pod"}));
  }

  // For every candidate whose rule is not read back as it is, or whose name a
  // kept candidate shares: the reconcile that retries while a pod still serves
  // the old overlay leaves it without its rule.
  lemma {:induction false} StrandingIsReachable(c: Source, kept: Source) returns (r: Run)
    requires kept != c && (c.Scoped? || SinkLike(c) || LocalForm(kept) == c)
    ensures ValidRun(r) && Init(r.states[0])
    ensures Served(End(r), c) && Bound(c, c) !in End(r).installed
  {
    var with, reading := Content({kept, c}, {}, ""), Reading({}, {});
    r := Serve(with);
    assert Served(End(r), c) by { assert "pod" in End(r).pods && c in End(r).pods["pod"].own; }
    r, reading := PublishFrom(r, Content({kept}, {}, ""));
    SoundAlways(r, |r.actions|);
    var s := End(r);
    assert s.pods == map["pod" := with];
    reading := ReadingOf(s.installed, {});
    UnpublishedGoes(s, {kept}, reading, c);
    r := Extend(r, Stage({kept}, reading));
    r := Extend(r, Apply);
    assert "pod" in End(r).pods && c in End(r).pods["pod"].own;
  }

  // A provider of another namespace is read back under the name of a local one
  // that a pod still serves, when both are withdrawn.
  lemma {:induction false} ClashIsReachable(foreign: Source, kept: Source) returns (r: Run)
    requires foreign.Scoped? && ReadsBack(foreign) && kept != foreign && kept != LocalForm(foreign)
    ensures ValidRun(r) && Init(r.states[0])
    ensures var c := LocalForm(foreign);
      Served(End(r), c) && Bound(c, foreign) in End(r).installed && !Routed(End(r).installed, End(r).first, c)
  {
    var c, x := LocalForm(foreign), Bound(foreign, foreign);
    var with, reading := Content({kept, c, foreign}, {}, ""), Reading({}, {});
    r := Serve(with);
    var before := End(r);
    r, reading := PublishFrom(r, Content({kept}, {}, ""));
    assert x in before.installed && x in reading.read && Relabelled(before, x) == x;
    assert x in End(r).installed;
    r := WithdrawClashing(r, foreign, kept);
    assert "pod" in End(r).pods && c in End(r).pods["pod"].own;
  }

  lemma {:induction false} WithdrawClashing(r: Run, foreign: Source, kept: Source) returns (longer: Run)
    requires ValidRun(r) && End(r).phase.Idle? && OwnOf(End(r).published) == {kept}
    requires foreign.Scoped? && ReadsBack(foreign) && kept != foreign && kept != LocalForm(foreign)
    requires Bound(foreign, foreign) in End(r).installed
    ensures ValidRun(longer) && longer.states[0] == r.states[0] && End(longer).pods == End(r).pods
    ensures var c := LocalForm(foreign);
      Bound(c, foreign) in End(longer).installed && !Routed(End(longer).installed, End(longer).first, c)
  {
    var s, c, x := End(r), LocalForm(foreign), Bound(foreign, foreign);
    var reading := ReadingOf(s.installed, {});
    assert x in reading.read && Relabelled(s, x) == Bound(c, foreign);
    assert Bound(c, foreign) in Kept(s, {kept}, reading);
    longer := Extend(r, Stage({kept}, reading));
    longer := Extend(longer, Apply);
  }

  // A request in flight to a candidate whose rule staging loses is cut.
  lemma {:induction false} LosingCuts(r: Run, desired: set<Source>, reading: Reading, x: Bound, request: Request)
    returns (longer: Run)
    requires ValidRun(r) && Sound(End(r)) && Enabled(End(r), Stage(desired, reading))
    requires request in End(r).inFlight && x in End(r).installed && x.target == request.candidate
    requires Loses(End(r), desired, reading, x)
    ensures ValidRun(longer) && longer.states[0] == r.states[0] && |longer.actions| == |r.actions| + 2
    ensures Cuts(longer.states[|r.actions| + 1], longer.actions[|r.actions| + 1])
  {
    LosingIsExact(End(r), desired, reading, x);
    var staged := Extend(r, Stage(desired, reading));
    longer := Extend(staged, Apply);
    assert longer.states[..|staged.states|][|r.actions| + 1] == End(staged);
    assert request in End(staged).inFlight;
    assert ApplyCuts(longer.states[|r.actions| + 1], longer.actions[|r.actions| + 1]);
  }

  // For every candidate whose rule is never read back, or whose name a kept
  // candidate shares: its withdrawal cuts a request, without any drain.
  lemma {:induction false} LossIsReachable(c: Source, kept: Source) returns (r: Run, i: nat)
    requires kept != c && (!ReadsBack(c) || LocalForm(kept) == c)
    ensures ValidRun(r) && Init(r.states[0]) && i < |r.actions| && Cuts(r.states[i], r.actions[i])
  {
    var request, x := Request(c, 1), Bound(c, c);
    r := Serve(Content({kept, c}, {}, ""));
    assert x in Native({kept, c}) && "pod" in End(r).pods;
    r := Extend(r, Arrive("pod", request));
    SoundAlways(r, |r.actions|);
    if !Hashed(c) && c !in Current({kept}) {
      r := RestoredOnce(r, kept, c);
      SoundAlways(r, |r.actions|);
    }
    var reading := ReadingOf(End(r).installed, {});
    i := |r.actions| + 1;
    r := LosingCuts(r, {kept}, reading, x, request);
  }

  // The published overlay restores an unread rule, but only while it lists the
  // candidate.
  lemma {:induction false} RestoredOnce(r: Run, kept: Source, c: Source) returns (longer: Run)
    requires ValidRun(r) && End(r).phase.Idle? && Sound(End(r)) && c in OwnOf(End(r).published)
    requires !ReadsBack(c) && !Hashed(c) && c !in Current({kept})
    ensures ValidRun(longer) && longer.states[0] == r.states[0]
    ensures End(longer).phase.Idle? && End(longer).inFlight == End(r).inFlight
    ensures Bound(c, c) in End(longer).installed && OwnOf(End(longer).published) == {kept}
  {
    var reading;
    longer, reading := PublishFrom(r, Content({kept}, {}, ""));
    UnreadName(End(r), reading, c);
    assert c in Restaged(End(r), {kept}, reading);
  }

  /******* When a prune cuts *******/

  ghost predicate OnlyPublishes(r: Run, next: Content)
    requires |r.states| == |r.actions| + 1
  {
    forall i :: 0 <= i < |r.actions| && Publishes(r.states[i], r.actions[i]).Some? ==>
      Publishes(r.states[i], r.actions[i]) == Some(next)
  }

  // Some continuation of s that publishes nothing but next prunes under a
  // request.
  ghost predicate CanCut(s: State, next: Content) {
    exists r: Run, i :: CutsAt(r, i, s, next)
  }

  ghost predicate CutsAt(r: Run, i: int, s: State, next: Content) {
    && ValidRun(r) && r.states[0] == s && OnlyPublishes(r, next)
    && 0 <= i < |r.actions| && PruneCuts(r.states[i], r.actions[i])
  }

  // Something that next withdraws can still be selected, or has a request in
  // flight that outlasts the stored clock.
  ghost predicate Exposed(s: State, next: Content) {
    || !(OwnOf(s.published) <= next.own)
    || (exists p :: p in s.pods && !(s.pods[p].own <= next.own))
    || (s.drain.Draining? && exists r :: Outlasts(s, next, r))
  }

  predicate Outlasts(s: State, next: Content, r: Request)
    requires s.drain.Draining?
  {
    r in s.inFlight && r.candidate !in next.own && r.deadline > s.drain.startedAt + DRAIN
  }

  lemma {:induction false} NeverStaleUnlessAlready(r: Run, next: Content, i: nat)
    requires ValidRun(r) && OnlyPublishes(r, next) && !Stale(r.states[0], next) && i < |r.states|
    ensures !Stale(r.states[i], next)
  {
    if i > 0 {
      NeverStaleUnlessAlready(r, next, i - 1);
      var s, a := r.states[i - 1], r.actions[i - 1];
      assert Steps(s, a, r.states[i - 1 + 1]);
      assert Publishes(s, a).Some? ==> Publishes(s, a).value == next;
    }
  }

  // The run from s to t publishes nothing but next.
  ghost predicate GoesTo(r: Run, s: State, t: State, next: Content) {
    ValidRun(r) && r.states[0] == s && OnlyPublishes(r, next) && End(r) == t
  }

  lemma {:induction false} Go(r: Run, s: State, t: State, next: Content, a: Action) returns (longer: Run)
    requires GoesTo(r, s, t, next) && Enabled(t, a)
    requires Publishes(t, a).Some? ==> Publishes(t, a) == Some(next)
    ensures GoesTo(longer, s, Next(t, a), next)
    ensures |longer.actions| == |r.actions| + 1
    ensures longer.states[|r.actions|] == t && longer.actions[|r.actions|] == a
  {
    longer := Extend(r, a);
    assert forall i :: 0 <= i < |r.actions| ==> longer.states[i] == r.states[i] && longer.actions[i] == r.actions[i];
    assert longer.states[..|r.states|][|r.actions|] == t;
  }

  // The candidate gets its rule back, and nothing is published.
  lemma {:induction false} Reinstall(r: Run, s: State, t: State, next: Content, c: Source) returns (longer: Run,
                                     u: State)
    requires GoesTo(r, s, t, next) && t.phase.Idle?
    ensures GoesTo(longer, s, u, next) && Bound(c, c) in u.installed
    ensures u == t.(installed := u.installed, first := u.first)
  {
    var stage := Stage({c}, ReadingOf(t.installed, {}));
    longer := Go(r, s, t, next, stage);
    var t1 := Next(t, stage);
    longer := Go(longer, s, t1, next, Apply);
    var t2 := Next(t1, Apply);
    longer := Go(longer, s, t2, next, Abort);
    u := Next(t2, Abort);
    assert Bound(c, c) in Native({c});
  }

  // A pod that still serves a candidate routes a request to it when the stored
  // clock has long expired.
  lemma {:induction false} RouteLate(r: Run, s: State, t: State, next: Content, pod: PodId, c: Source)
    returns (longer: Run, u: State, request: Request)
    requires GoesTo(r, s, t, next) && t.phase.Idle? && t.drain.Draining? && t.drain.startedAt <= t.now
    requires pod in t.pods && c in t.pods[pod].own
    ensures GoesTo(longer, s, u, next) && u.phase.Idle? && u.drain == t.drain
    ensures request in u.inFlight && request.candidate == c && u.now - u.drain.startedAt >= DRAIN
  {
    longer, u := Reinstall(r, s, t, next, c);
    longer := Go(longer, s, u, next, Tick(DRAIN));
    u := Next(u, Tick(DRAIN));
    request := Request(c, u.now + DRAIN);
    longer := Go(longer, s, u, next, Arrive(pod, request));
    u := Next(u, Arrive(pod, request));
  }

  lemma {:induction false} FreshModel(models: set<string>) returns (x: string)
    ensures x !in models
  {
    if models == {} {
      x := "";
    } else {
      var longest := Longest(models);
      x := longest + "x";
    }
  }

  lemma {:induction false} Longest(models: set<string>) returns (x: string)
    requires models != {}
    ensures x in models && forall y :: y in models ==> |y| <= |x|
  {
    x :| x in models;
    if models != {x} {
      var rest := Longest(models - {x});
      if |rest| > |x| { x := rest; }
    }
  }

  // A candidate of the tenant that next withdraws and staging keeps.
  lemma {:induction false} Bystander(next: Content) returns (c: Source)
    ensures ReadsBack(c) && c !in Current(next.own)
  {
    var models := set d | d in next.own :: d.model;
    var model := FreshModel(models);
    c := Local(model, "provider");
    assert forall d :: d in next.own ==> d.model in models;
  }

  // Once the stored clock for next has expired, publishing next authorises the
  // prune as soon as the pods serve it, whatever is in flight.
  lemma {:induction false} ExpiredClockCuts(r: Run, s: State, t: State, next: Content, request: Request)
    requires GoesTo(r, s, t, next) && t.phase.Idle? && next.own != {}
    requires t.drain.Draining? && t.drain.revision == next && t.now - t.drain.startedAt >= DRAIN
    requires request in t.inFlight && request.candidate !in next.own
    ensures CanCut(s, next)
  {
    var c := Bystander(next);
    var run, u := Reinstall(r, s, t, next, c);
    run, u := Republish(run, s, u, next, c);
    var pods := u.pods.Keys + {"pod"};
    run := Go(run, s, u, next, Load(pods));
    var v := Next(u, Load(pods));
    assert "pod" in v.pods && forall p :: p in v.pods ==> v.pods[p] == next;
    run := Go(run, s, v, next, Observe(Rollout.Safe, true));
    var w := Next(v, Observe(Rollout.Safe, true));
    var i := |run.actions|;
    run := Go(run, s, w, next, Prune);
    assert request in w.inFlight && w.phase == Drained(next.own);
    assert CutsAt(run, i, s, next);
  }

  // Publishing next with the rule of a withdrawn candidate still applied.
  lemma {:induction false} Republish(r: Run, s: State, t: State, next: Content, c: Source) returns (longer: Run,
                                     u: State)
    requires GoesTo(r, s, t, next) && t.phase.Idle? && next.own != {}
    requires Bound(c, c) in t.installed && ReadsBack(c) && c !in Current(next.own)
    ensures GoesTo(longer, s, u, next)
    ensures u == t.(
      installed := u.installed, first := u.first, published := Some(next), phase := Published(next.own, true))
  {
    var reading := ReadingOf(t.installed, {});
    longer := Go(r, s, t, next, Stage(next.own, reading));
    var t1 := Next(t, Stage(next.own, reading));
    assert Relabelled(t, Bound(c, c)) in Kept(t, next.own, reading);
    longer := Go(longer, s, t1, next, Apply);
    var t2 := Next(t1, Apply);
    longer := Go(longer, s, t2, next, Publish(next.attached, next.rest));
    u := Next(t2, Publish(next.attached, next.rest));
  }

  lemma {:induction false} StaleCuts(s: State, next: Content)
    requires Inv(s) && s.phase.Idle? && next.own != {} && Stale(s, next) && Exposed(s, next)
    ensures CanCut(s, next)
  {
    var r, t, request := Run([s], []), s, Request(Local("", ""), 0);
    if !(OwnOf(s.published) <= next.own) {
      var c :| c in OwnOf(s.published) && c !in next.own;
      r := Go(r, s, t, next, Load({"pod"}));
      t := Next(s, Load({"pod"}));
      assert t.pods["pod"] == s.published.value;
      r, t, request := RouteLate(r, s, t, next, "pod", c);
    } else if p :| p in s.pods && !(s.pods[p].own <= next.own) {
      var c :| c in s.pods[p].own && c !in next.own;
      r, t, request := RouteLate(r, s, t, next, p, c);
    } else {
      request :| Outlasts(s, next, request);
      var wait := if s.drain.startedAt + DRAIN > s.now then s.drain.startedAt + DRAIN - s.now else 0;
      r := Go(r, s, t, next, Tick(wait));
      t := Next(s, Tick(wait));
    }
    ExpiredClockCuts(r, s, t, next, request);
  }

  // While only next is published and nothing was exposed, a request outside
  // next ends before the stored clock since t0 does.
  ghost predicate Sheltered(s: State, next: Content, t0: int) {
    && t0 <= s.now && (s.drain.Draining? ==> t0 <= s.drain.startedAt)
    && OwnOf(s.published) <= next.own && (forall p :: p in s.pods ==> s.pods[p].own <= next.own)
    && (forall r :: r in s.inFlight ==> s.now < r.deadline && (r.candidate in next.own || r.deadline <= t0 + DRAIN))
    && (s.phase.Published? ==> s.phase.desired == next.own)
    && (s.phase.Drained? ==> s.phase.desired == next.own && s.drain.Draining? && s.now - s.drain.startedAt >= DRAIN)
  }

  lemma {:induction false} ShelteredStep(s: State, a: Action, next: Content, t0: int)
    requires Sheltered(s, next, t0) && Enabled(s, a)
    requires Publishes(s, a).Some? ==> Publishes(s, a) == Some(next)
    ensures Sheltered(Next(s, a), next, t0)
  {
  }

  lemma {:induction false} ShelteredAlways(r: Run, next: Content, t0: int, i: nat)
    requires ValidRun(r) && OnlyPublishes(r, next) && Sheltered(r.states[0], next, t0) && i < |r.states|
    ensures Sheltered(r.states[i], next, t0)
  {
    if i > 0 {
      ShelteredAlways(r, next, t0, i - 1);
      assert Steps(r.states[i - 1], r.actions[i - 1], r.states[i - 1 + 1]);
      ShelteredStep(r.states[i - 1], r.actions[i - 1], next, t0);
    }
  }

  lemma {:induction false} UnexposedIsSheltered(s: State, next: Content)
    requires Inv(s) && s.phase.Idle? && Stale(s, next) && !Exposed(s, next)
    ensures Sheltered(s, next, s.drain.startedAt)
  {
    forall r | r in s.inFlight ensures r.candidate in next.own || r.deadline <= s.drain.startedAt + DRAIN {
      assert !Outlasts(s, next, r);
    }
  }

  // A reconcile that would publish no candidate of the tenant never gets to
  // prune.
  ghost predicate BeforePublishing(s: State) {
    match s.phase
    case Idle => true
    case Staged(desired, _, _) => desired != {}
    case Applied(desired, _) => desired != {}
    case _ => false
  }

  lemma {:induction false} NeverPublishesNone(r: Run, next: Content, i: nat)
    requires ValidRun(r) && OnlyPublishes(r, next) && next.own == {} && r.states[0].phase.Idle? && i < |r.states|
    ensures BeforePublishing(r.states[i])
  {
    if i > 0 {
      NeverPublishesNone(r, next, i - 1);
      var s, a := r.states[i - 1], r.actions[i - 1];
      assert Steps(s, a, r.states[i - 1 + 1]);
      assert Publishes(s, a).Some? ==> Publishes(s, a).value == next;
    }
  }

  lemma {:induction false} UncutWithoutBoth(r: Run, i: nat, s: State, next: Content)
    requires Inv(s) && s.phase.Idle? && !(next.own != {} && Stale(s, next) && Exposed(s, next))
    requires ValidRun(r) && r.states[0] == s && OnlyPublishes(r, next) && i < |r.actions|
    ensures !PruneCuts(r.states[i], r.actions[i])
  {
    if next.own == {} {
      NeverPublishesNone(r, next, i);
    } else if Stale(s, next) {
      UnexposedIsSheltered(s, next);
      ShelteredAlways(r, next, s.drain.startedAt, i);
    } else {
      forall k | 0 <= k < |r.actions| ensures Fresh(r.states[k], r.actions[k]) {
        NeverStaleUnlessAlready(r, next, k);
        assert Publishes(r.states[k], r.actions[k]).Some? ==> Publishes(r.states[k], r.actions[k]) == Some(next);
      }
      InvAlways(r, i);
    }
  }

  // From any sound state between two reconciles, publishing next can lead to a
  // prune under a request exactly when its clock is stale and something is
  // exposed.
  lemma {:induction false} StaleIsExact(s: State, next: Content)
    requires Inv(s) && s.phase.Idle?
    ensures CanCut(s, next) <==> next.own != {} && Stale(s, next) && Exposed(s, next)
  {
    if next.own != {} && Stale(s, next) && Exposed(s, next) {
      StaleCuts(s, next);
    } else {
      forall r: Run, i ensures !CutsAt(r, i, s, next) {
        if ValidRun(r) && r.states[0] == s && OnlyPublishes(r, next) && 0 <= i < |r.actions| {
          UncutWithoutBoth(r, i, s, next);
        }
      }
    }
  }

  // Such a state is reached: publish, withdraw, observe the withdrawal once as
  // safe, publish again.
  lemma {:induction false} StaleIsReachable(x: Source, y: Source) returns (r: Run, next: Content)
    requires y !in Current({x}) && !Hashed(y)
    ensures ValidRun(r) && Init(r.states[0])
    ensures var s := End(r);
      Inv(s) && s.phase.Idle? && next.own != {} && Stale(s, next) && Exposed(s, next)
  {
    var s, reading := State(0, None, map[], {}, {}, {}, Absent, Idle), Reading({}, {});
    var both := Content({x, y}, {}, "");
    next := Content({x}, {}, "");
    r, reading := PublishFrom(Run([s], []), both);
    r := WithdrawAndObserve(r, next, y);
    r, reading := PublishFrom(r, both);
    assert y in both.own && y !in next.own;
    SoundAlways(r, |r.actions|);
  }

  // A withdrawal whose first observation is safe starts the clock.
  lemma {:induction false} WithdrawAndObserve(r: Run, next: Content, c: Source) returns (longer: Run)
    requires ValidRun(r) && End(r).phase.Idle? && End(r).pods == map[] && End(r).drain.Absent?
    requires next.own != {} && c in OwnOf(End(r).published) && c !in Current(next.own) && !Hashed(c)
    ensures ValidRun(longer) && longer.states[0] == r.states[0]
    ensures var s, t := End(r), End(longer);
      t == s.(installed := t.installed, first := next.own, published := Some(next), pods := map["pod" := next],
              drain := Draining(next, s.now), phase := Idle)
  {
    var s := End(r);
    var reading := ReadingOf(s.installed, {});
    longer := Extend(r, Stage(next.own, reading));
    WithdrawalPends(s, next.own, reading, c);
    longer := Extend(longer, Apply);
    longer := Extend(longer, Publish(next.attached, next.rest));
    longer := LoadAndObserve(longer, next);
  }

  lemma {:induction false} WithdrawalPends(s: State, desired: set<Source>, reading: Reading, c: Source)
    requires c in OwnOf(s.published) && c !in Current(desired) && !Hashed(c) && reading.gone == {}
    ensures Pending(s, desired, reading)
  {
    if c in Ids(reading.read) {
      var x :| x in reading.read && x.id == c;
      assert Relabelled(s, x) in Kept(s, desired, reading);
    } else {
      assert c in Restaged(s, desired, reading);
    }
  }

  lemma {:induction false} LoadAndObserve(r: Run, next: Content) returns (longer: Run)
    requires ValidRun(r) && End(r).phase.Published? && End(r).phase.pending
    requires End(r).pods == map[] && End(r).drain.Absent? && End(r).published == Some(next)
    ensures ValidRun(longer) && longer.states[0] == r.states[0]
    ensures End(longer) == End(r).(pods := map["pod" := next], drain := Draining(next, End(r).now), phase := Idle)
  {
    longer := Extend(r, Load({"pod"}));
    assert End(longer).pods == map["pod" := next] && "pod" in End(longer).pods;
    longer := Extend(longer, Observe(Rollout.Safe, true));
  }

  // So the cut is a run of the system, not only of an invariant.
  lemma {:induction false} CutIsReachable() returns (r: Run, i: nat)
    ensures ValidRun(r) && Init(r.states[0]) && i < |r.actions| && PruneCuts(r.states[i], r.actions[i])
  {
    var a, next := StaleIsReachable(Local("m", "x"), Local("m", "y"));
    StaleIsExact(End(a), next);
    var b: Run, k: int :| CutsAt(b, k, End(a), next);
    r := Join(a, b);
    i := |a.actions| + k;
  }

  /******* A safe verdict *******/

  // The snapshot shows the serving pods as endpoints, and a pod's last report
  // is what it serves.
  ghost predicate Faithful(snapshot: Rollout.Snapshot, s: State) {
    var endpoints := Rollout.AllEndpoints(snapshot.slices);
    && s.pods.Keys == Rollout.ServedUids(endpoints)
    && (forall k :: 0 <= k < |snapshot.pods| && snapshot.pods[k].uid in s.pods && snapshot.pods[k].logs.Some? ==>
          match Rollout.LastReport(snapshot.pods[k].logs.value)
          case Some(Report(_, serving)) => serving == s.pods[snapshot.pods[k].uid]
          case _ => true)
  }

  lemma {:induction false} SafeVerdictIsTrue(snapshot: Rollout.Snapshot, hash: string, s: State)
    requires s.published.Some? && Faithful(snapshot, s)
    requires Rollout.RolloutSafe(snapshot, hash, s.published.value)
    ensures Truthful(s, Rollout.Safe)
  {
    var endpoints := Rollout.AllEndpoints(snapshot.slices);
    forall p | p in Rollout.ServedUids(endpoints) ensures s.pods[p] == s.published.value {
      var e :| 0 <= e < |endpoints| && Rollout.TakesTraffic(endpoints[e]) && endpoints[e].target.Some?
        && endpoints[e].target.value.uid == p;
      Rollout.SafeIsSound(snapshot, hash, s.published.value, e);
    }
    SomePodServes(snapshot, hash, s);
  }

  lemma {:induction false} SomePodServes(snapshot: Rollout.Snapshot, hash: string, s: State)
    requires s.published.Some? && Faithful(snapshot, s)
    requires Rollout.RolloutSafe(snapshot, hash, s.published.value)
    ensures s.pods != map[]
  {
    var pods, endpoints := Rollout.CurrentPods(snapshot.pods), Rollout.AllEndpoints(snapshot.slices);
    assert |pods| > 0;
    var p :| p in pods;
    var e :| 0 <= e < |endpoints| && Rollout.TakesTraffic(endpoints[e]) && endpoints[e].target.value.uid == p;
    assert Rollout.TargetsOneOf(endpoints[e], pods);
    assert p in s.pods.Keys;
  }
}
