// The payload-processing handoff with the peer controller: one annotation on a
// shared object, written by two parties, decides whose dataplane may exist.
module Handoff {
  datatype Status = Absent | CleanupComplete | Steady

  datatype Config = Config(praxisSelected: bool, status: Status, finalizer: bool)

  // What other controllers take as legacy serving the tenant: it is selected, or
  // the handoff has not started.
  predicate LegacyServes(c: Config) {
    !c.praxisSelected || c.status.Absent?
  }

  /******* The status operations *******/

  // The API server's object, one version per write. An update succeeds only
  // against the version it was read at; a patch applies to whatever is current.
  class ApiServer {
    var versions: seq<Config>

    ghost predicate Valid()
      reads this
    {
      versions != []
    }

    method Update(read: nat, next: Config) returns (conflict: bool)
      requires Valid() && read < |versions|
      modifies this
      ensures Valid()
      ensures conflict <==> read != |old(versions)| - 1
      ensures versions == if conflict then old(versions) else old(versions) + [next]
    {
      conflict := read != |versions| - 1;
      if !conflict {
        versions := versions + [next];
      }
    }

    method PatchStatus(status: Status) returns (current: Config)
      requires Valid()
      modifies this
      ensures Valid()
      ensures versions == old(versions) + [current] && current == old(versions[|versions| - 1]).(status := status)
    {
      current := versions[|versions| - 1].(status := status);
      versions := versions + [current];
    }
  }

  // Whether Praxis may deploy from a copy, reading the object again at version
  // reread when it has to claim.
  function MayDeploy(versions: seq<Config>, copy: Config, reread: nat): bool
    requires reread < |versions|
  {
    copy.status.Steady? || (copy.status.CleanupComplete? && Claims(versions, reread))
  }

  predicate Claims(versions: seq<Config>, reread: nat)
    requires reread < |versions|
  {
    reread == |versions| - 1 && versions[reread].praxisSelected && versions[reread].status.CleanupComplete?
  }

  method ClaimPraxisSteady(server: ApiServer, reread: nat) returns (claimed: bool)
    requires server.Valid() && reread < |server.versions|
    modifies server
    ensures server.Valid()
    ensures claimed == Claims(old(server.versions), reread)
    ensures server.versions ==
      if claimed then old(server.versions) + [old(server.versions)[reread].(status := Steady)] else old(server.versions)
  {
    var latest := server.versions[reread];
    if !latest.praxisSelected || !latest.status.CleanupComplete? {
      return false;
    }
    var conflict := server.Update(reread, latest.(status := Steady));
    return !conflict;
  }

  method EnsurePraxisMayDeploy(server: ApiServer, copy: Config, reread: nat) returns (ready: bool, synced: Config)
    requires server.Valid() && reread < |server.versions|
    modifies server
    ensures server.Valid()
    ensures ready == MayDeploy(old(server.versions), copy, reread)
    ensures synced == if ready then copy.(status := Steady) else copy
    ensures server.versions ==
      if ready && copy.status.CleanupComplete?
      then old(server.versions) + [old(server.versions)[reread].(status := Steady)]
      else old(server.versions)
  {
    synced := copy;
    match copy.status
    case Steady => ready := true;
    case CleanupComplete =>
      ready := ClaimPraxisSteady(server, reread);
      if ready {
        synced := copy.(status := Steady);
      }
    case Absent => ready := false;
  }

  method MarkCleanupComplete(server: ApiServer, copy: Config) returns (synced: Config)
    requires server.Valid()
    modifies server
    ensures server.Valid()
    ensures copy.status.CleanupComplete? ==> synced == copy && server.versions == old(server.versions)
    ensures !copy.status.CleanupComplete? ==>
      && synced == Last(old(server.versions)).(status := CleanupComplete)
      && server.versions == old(server.versions) + [synced]
  {
    if copy.status.CleanupComplete? {
      return copy;
    }
    synced := server.PatchStatus(CleanupComplete);
  }

  function Last(versions: seq<Config>): Config
    requires versions != []
  {
    versions[|versions| - 1]
  }

  /******* The two controllers and the administrator *******/

  // copy is the reconcile's own copy of the object, read at version at.
  datatype Phase =
    | Idle
    | Started(copy: Config, at: nat)
    | Protected(copy: Config)
    | Ready
    | Cleaned(copy: Config, at: nat)
    | Marked(at: nat)

  // own is the version of this controller's last write: its reads are never
  // older. praxis and legacy say whose dataplane resources exist.
  datatype State = State(versions: seq<Config>, own: nat, praxis: bool, legacy: bool, phase: Phase)

  datatype Action =
    // This controller.
    | Read(version: nat)
    | EnsureFinalizer
    | Wait
    | Deploy(reread: nat)
    | Apply
    | Cleanup
    | Mark
    | RemoveFinalizer
    | Abort
    // The administrator selects a backend.
    | Select(praxis: bool)
    // The peer, as the status contract documents it.
    | PeerClaim
    | PeerDeploy
    | PeerCleanup
    | PeerSignal

  ghost predicate Enabled(s: State, a: Action) {
    && s.versions != [] && s.own < |s.versions|
    && match a
       case Read(v) => s.phase.Idle? && s.own <= v < |s.versions|
       case EnsureFinalizer => s.phase.Started? && s.phase.copy.praxisSelected
       case Wait => s.phase.Protected? || (s.phase.Started? && !s.phase.copy.finalizer)
       case Deploy(v) => s.phase.Protected? && s.own <= v < |s.versions|
       case Apply => s.phase.Ready?
       case Cleanup => s.phase.Started? && !s.phase.copy.praxisSelected && s.phase.copy.finalizer
       case Mark => s.phase.Cleaned?
       case RemoveFinalizer => s.phase.Marked?
       case Abort => true
       case Select(_) => true
       case PeerClaim => !Last(s.versions).praxisSelected && Last(s.versions).status.CleanupComplete?
       case PeerDeploy => !Last(s.versions).praxisSelected && Last(s.versions).status.Absent?
       case PeerCleanup => Last(s.versions).praxisSelected && Last(s.versions).status.Absent?
       case PeerSignal => Last(s.versions).praxisSelected && Last(s.versions).status.Absent? && !s.legacy
  }

  function Written(s: State, next: Config, phase: Phase): State {
    s.(versions := s.versions + [next], own := |s.versions|, phase := phase)
  }

  function Next(s: State, a: Action): State
    requires s.versions != []
  {
    var current := Last(s.versions);
    match a
    case Read(v) => if v < |s.versions| then s.(phase := Started(s.versions[v], v)) else s
    case EnsureFinalizer =>
      if !s.phase.Started? then s
      else if s.phase.copy.finalizer then s.(phase := Protected(s.phase.copy))
      // Both finalizer patches carry an optimistic lock.
      else if s.phase.at != |s.versions| - 1 then s.(phase := Idle)
      else Written(s, current.(finalizer := true), Protected(current.(finalizer := true)))
    case Wait => s.(phase := Idle)
    case Deploy(v) =>
      if !s.phase.Protected? || v >= |s.versions| || !MayDeploy(s.versions, s.phase.copy, v) then s.(phase := Idle)
      else if s.phase.copy.status.Steady? then s.(phase := Ready)
      else Written(s, s.versions[v].(status := Steady), Ready)
    // Applying may stop half-way; any resource counts.
    case Apply => s.(praxis := true)
    case Cleanup => if s.phase.Started? then s.(praxis := false, phase := Cleaned(s.phase.copy, s.phase.at)) else s
    case Mark =>
      if !s.phase.Cleaned? then s
      else if s.phase.copy.status.CleanupComplete? then s.(phase := Marked(s.phase.at))
      else Written(s, current.(status := CleanupComplete), Marked(|s.versions|))
    case RemoveFinalizer =>
      if !s.phase.Marked? || s.phase.at != |s.versions| - 1 then s.(phase := Idle)
      else Written(s, current.(finalizer := false), Idle)
    case Abort => s.(phase := Idle)
    case Select(b) => s.(versions := s.versions + [current.(praxisSelected := b)])
    case PeerClaim => s.(versions := s.versions + [current.(status := Absent)])
    case PeerDeploy => s.(legacy := true)
    case PeerCleanup => s.(legacy := false)
    case PeerSignal => s.(versions := s.versions + [current.(status := CleanupComplete)])
  }

  datatype Run = Run(states: seq<State>, actions: seq<Action>)

  ghost predicate ValidRun(r: Run) {
    && |r.states| == |r.actions| + 1
    && forall i :: 0 <= i < |r.actions| ==>
      Enabled(r.states[i], r.actions[i]) && r.states[i + 1] == Next(r.states[i], r.actions[i])
  }

  // An object created by the peer: seeded as claimable, or already running
  // legacy.
  ghost predicate Init(s: State) {
    && |s.versions| == 1 && s.own == 0 && !s.praxis && s.phase.Idle?
    && !s.versions[0].finalizer && !s.versions[0].status.Steady?
    && (s.legacy ==> s.versions[0].status.Absent?)
  }

  /******* Praxis exists only while it is steady *******/

  // Once steady, only this controller ends it, so a steady copy it reads is
  // still true.
  ghost predicate SteadyLasts(s: State) {
    && s.own < |s.versions|
    && forall v, w :: s.own <= v <= w < |s.versions| && s.versions[v].status.Steady? ==> s.versions[w].status.Steady?
  }

  ghost predicate PraxisOnlyWhileSteady(s: State) {
    && SteadyLasts(s)
    && (s.praxis ==> Last(s.versions).status.Steady?)
    && match s.phase
       case Started(copy, _) => copy.status.Steady? ==> Last(s.versions).status.Steady?
       case Protected(copy) => copy.status.Steady? ==> Last(s.versions).status.Steady?
       case Ready => Last(s.versions).status.Steady?
       case Cleaned(copy, _) => !s.praxis && (copy.status.Steady? ==> Last(s.versions).status.Steady?)
       case Marked(_) => !s.praxis
       case Idle => true
  }

  lemma {:induction false} PraxisOnlyWhileSteadyStep(s: State, a: Action)
    requires PraxisOnlyWhileSteady(s) && Enabled(s, a)
    ensures PraxisOnlyWhileSteady(Next(s, a))
  {
    SteadyLastsStep(s, a);
  }

  lemma {:induction false} SteadyLastsStep(s: State, a: Action)
    requires PraxisOnlyWhileSteady(s) && Enabled(s, a)
    ensures SteadyLasts(Next(s, a))
  {
    var t := Next(s, a);
    forall v, w | t.own <= v <= w < |t.versions| && t.versions[v].status.Steady? ensures t.versions[w].status.Steady? {
      if w == |t.versions| - 1 && v < |s.versions| {
        assert s.own <= v ==> s.versions[v].status.Steady? && Last(s.versions).status.Steady?;
      }
    }
  }

  lemma {:induction false} InitIsSteady(s: State)
    requires Init(s)
    ensures PraxisOnlyWhileSteady(s)
  {
  }

  // In every interleaving, with no further hypothesis.
  lemma {:induction false} PraxisOnlyWhileSteadyAlways(r: Run, i: nat)
    requires ValidRun(r) && Init(r.states[0]) && i < |r.states|
    ensures PraxisOnlyWhileSteady(r.states[i])
  {
    if i == 0 {
      InitIsSteady(r.states[0]);
    } else {
      PraxisOnlyWhileSteadyAlways(r, i - 1);
      PraxisOnlyWhileSteadyStep(r.states[i - 1], r.actions[i - 1]);
    }
  }

  // Deploying makes Praxis ready exactly from a copy that is steady, or from one
  // that shows a finished cleanup when the current object, read again, still
  // does and still selects Praxis; the second way claims it as steady.
  lemma {:induction false} DeployIsExact(s: State, v: nat)
    requires Enabled(s, Deploy(v))
    ensures var t, current, copy := Next(s, Deploy(v)), s.versions[|s.versions| - 1], s.phase.copy;
      var claims := copy.status == CleanupComplete && v == |s.versions| - 1 && current.praxisSelected
                    && current.status == CleanupComplete;
      && (t.phase == Ready <==> copy.status == Steady || claims)
      && t.versions == (if claims then s.versions + [current.(status := Steady)] else s.versions)
      && t.praxis == s.praxis && t.legacy == s.legacy
  {
  }

  // The finalizer is only ever written onto the version its reconcile read or
  // wrote last, and is all that such a write changes.
  lemma {:induction false} FinalizerIsLocked(s: State, a: Action)
    requires Enabled(s, a) && (a.EnsureFinalizer? || a.RemoveFinalizer?)
    ensures var t, n := Next(s, a), |s.versions|;
      if s.phase.at == n - 1 && (a.EnsureFinalizer? ==> !s.phase.copy.finalizer) then
        t.versions == s.versions + [s.versions[n - 1].(finalizer := a.EnsureFinalizer?)]
      else t.versions == s.versions
  {
  }

  /******* Never both dataplanes *******/

  // The switch-off signals cleanup from a copy in which Praxis never claimed,
  // while legacy runs: the finalizer is added before the claim, so its cleanup
  // can run without one and overwrite an absent status.
  ghost predicate OverwritesLive(s: State, a: Action) {
    a.Mark? && s.phase.Cleaned? && s.phase.copy.status.Absent? && s.legacy
  }

  ghost predicate NoOverwriteFrom(r: Run, from: nat)
    requires |r.states| == |r.actions| + 1
  {
    forall k :: from <= k < |r.actions| ==> !OverwritesLive(r.states[k], r.actions[k])
  }

  ghost predicate Exclusive(s: State) {
    PraxisOnlyWhileSteady(s) && (s.legacy ==> Last(s.versions).status.Absent?)
  }

  lemma {:induction false} ExclusiveStep(s: State, a: Action)
    requires Exclusive(s) && Enabled(s, a) && !OverwritesLive(s, a)
    ensures Exclusive(Next(s, a))
  {
    PraxisOnlyWhileSteadyStep(s, a);
  }

  lemma {:induction false} ExclusiveFrom(r: Run, from: nat, i: nat)
    requires ValidRun(r) && from <= i < |r.states| && Exclusive(r.states[from]) && NoOverwriteFrom(r, from)
    ensures Exclusive(r.states[i])
  {
    if i > from {
      ExclusiveFrom(r, from, i - 1);
      ExclusiveStep(r.states[i - 1], r.actions[i - 1]);
    }
  }

  // When cleanup is never signalled over a live legacy dataplane from an
  // unclaimed copy, Praxis and legacy never both exist.
  lemma {:induction false} NeverBothLive(r: Run, i: nat)
    requires ValidRun(r) && Init(r.states[0]) && NoOverwriteFrom(r, 0) && i < |r.states|
    ensures !(r.states[i].praxis && r.states[i].legacy)
  {
    PraxisOnlyWhileSteadyAlways(r, 0);
    ExclusiveFrom(r, 0, i);
  }

  // In such runs the status tells who serves: legacy is said to serve wherever
  // it runs, and where Praxis runs exactly when the tenant has left it.
  lemma {:induction false} StatusTellsWhoServes(r: Run, i: nat)
    requires ValidRun(r) && Init(r.states[0]) && NoOverwriteFrom(r, 0) && i < |r.states|
    ensures var s := r.states[i];
      && s.versions != []
      && (s.legacy ==> LegacyServes(Last(s.versions)))
      && (s.praxis ==> (LegacyServes(Last(s.versions)) <==> !Last(s.versions).praxisSelected))
  {
    PraxisOnlyWhileSteadyAlways(r, 0);
    ExclusiveFrom(r, 0, i);
  }

  /******* When that hypothesis is needed *******/

  ghost predicate BothLiveAt(r: Run, i: int, s: State) {
    && ValidRun(r) && |r.actions| > 0 && r.states[0] == s && r.actions[0] == Mark && NoOverwriteFrom(r, 1)
    && 0 <= i < |r.states| && r.states[i].praxis && r.states[i].legacy
  }

  // A continuation that signals now, and never again out of turn, still ends
  // with both dataplanes.
  ghost predicate LeadsToBoth(s: State) {
    exists r: Run, i :: BothLiveAt(r, i, s)
  }

  function End(r: Run): State
    requires |r.states| == |r.actions| + 1
  {
    r.states[|r.actions|]
  }

  ghost predicate Extends(longer: Run, r: Run) {
    && |r.states| <= |longer.states| && |r.actions| <= |longer.actions|
    && longer.states[..|r.states|] == r.states && longer.actions[..|r.actions|] == r.actions
  }

  lemma {:induction false} Extend(r: Run, a: Action) returns (longer: Run)
    requires ValidRun(r) && Enabled(End(r), a)
    ensures ValidRun(longer) && |longer.actions| == |r.actions| + 1 && Extends(longer, r)
    ensures longer.actions[|r.actions|] == a && End(longer) == Next(End(r), a)
  {
    longer := Run(r.states + [Next(End(r), a)], r.actions + [a]);
    forall i | 0 <= i < |longer.actions|
      ensures Enabled(longer.states[i], longer.actions[i])
        && longer.states[i + 1] == Next(longer.states[i], longer.actions[i])
    {
      if i < |r.actions| {
        assert longer.states[i] == r.states[i] && longer.actions[i] == r.actions[i]
          && longer.states[i + 1] == r.states[i + 1];
      }
    }
  }

  // The run goes on with one signal and nothing but other steps after it.
  ghost predicate SignalsOnce(longer: Run, r: Run) {
    && ValidRun(longer) && ValidRun(r) && Extends(longer, r) && |r.actions| < |longer.actions|
    && longer.actions[|r.actions|] == Mark
    && forall k :: |r.actions| < k < |longer.actions| ==> !longer.actions[k].Mark?
  }

  lemma {:induction false} Step(first: Run, r: Run, a: Action) returns (longer: Run)
    requires SignalsOnce(r, first) && !a.Mark? && Enabled(End(r), a)
    ensures SignalsOnce(longer, first) && End(longer) == Next(End(r), a)
  {
    longer := Extend(r, a);
    StillOnce(first, r, longer);
  }

  lemma {:induction false} StillOnce(first: Run, r: Run, longer: Run)
    requires SignalsOnce(r, first) && ValidRun(longer) && Extends(longer, r) && |longer.actions| == |r.actions| + 1
    requires !longer.actions[|r.actions|].Mark?
    ensures SignalsOnce(longer, first)
  {
    PrefixOfPrefix(longer.states, r.states, first.states);
    PrefixOfPrefix(longer.actions, r.actions, first.actions);
    assert forall k :: 0 <= k < |r.actions| ==> longer.actions[k] == longer.actions[..|r.actions|][k];
  }

  lemma {:induction false} PrefixOfPrefix<T>(a: seq<T>, b: seq<T>, c: seq<T>)
    requires |c| <= |b| <= |a| && a[..|b|] == b && b[..|c|] == c
    ensures a[..|c|] == c
  {
    assert a[..|b|][..|c|] == a[..|c|];
  }

  // Signalling over a live legacy dataplane lets Praxis claim as soon as the
  // administrator selects it again.
  lemma {:induction false} SignalThenClaim(r: Run) returns (longer: Run)
    requires ValidRun(r) && Exclusive(End(r)) && Enabled(End(r), Mark) && OverwritesLive(End(r), Mark)
    ensures SignalsOnce(longer, r) && End(longer).praxis && End(longer).legacy
  {
    longer := Extend(r, Mark);
    longer := Step(r, longer, RemoveFinalizer);
    longer := Step(r, longer, Select(true));
    var v := |End(longer).versions| - 1;
    longer := Step(r, longer, Read(v));
    longer := Step(r, longer, EnsureFinalizer);
    longer := Step(r, longer, Deploy(v + 1));
    longer := Step(r, longer, Apply);
  }

  // Both can end up live exactly when the signal is written from an unclaimed
  // copy while legacy still runs.
  lemma {:induction false} OverwriteIsExact(s: State)
    requires Exclusive(s) && Enabled(s, Mark)
    ensures LeadsToBoth(s) <==> OverwritesLive(s, Mark)
  {
    if OverwritesLive(s, Mark) {
      var first := Run([s], []);
      var r := SignalThenClaim(first);
      assert r.states[..1][0] == s;
      assert BothLiveAt(r, |r.actions|, s);
    } else if LeadsToBoth(s) {
      var r: Run, i :| BothLiveAt(r, i, s);
      if i > 0 {
        ExclusiveStep(s, Mark);
        ExclusiveFrom(r, 1, i);
      }
    }
  }

  // And it does happen: a tenant of a running legacy dataplane that selects
  // Praxis and goes back before the handoff has started.
  lemma {:induction false} ReachesOverwrite() returns (r: Run)
    ensures ValidRun(r) && Init(r.states[0]) && r.states[0].legacy
    ensures Exclusive(End(r)) && Enabled(End(r), Mark) && OverwritesLive(End(r), Mark)
  {
    var c := Config(true, Absent, false);
    r := Run([State([c], 0, false, true, Idle)], []);
    r := Follow(r, Read(0), State([c], 0, false, true, Started(c, 0)));
    var d := c.(finalizer := true);
    r := Follow(r, EnsureFinalizer, State([c, d], 1, false, true, Protected(d)));
    r := Follow(r, Wait, State([c, d], 1, false, true, Idle));
    var e := d.(praxisSelected := false);
    r := Follow(r, Select(false), State([c, d, e], 1, false, true, Idle));
    r := Follow(r, Read(2), State([c, d, e], 1, false, true, Started(e, 2)));
    r := Follow(r, Cleanup, State([c, d, e], 1, false, true, Cleaned(e, 2)));
  }

  lemma {:induction false} Follow(r: Run, a: Action, t: State) returns (longer: Run)
    requires ValidRun(r) && Enabled(End(r), a) && Next(End(r), a) == t
    ensures ValidRun(longer) && longer.states[0] == r.states[0] && End(longer) == t
  {
    longer := Extend(r, a);
    assert longer.states[..|r.states|][0] == r.states[0];
  }

  lemma {:induction false} BothLiveIsReachable() returns (r: Run)
    ensures ValidRun(r) && Init(r.states[0]) && End(r).praxis && End(r).legacy
  {
    var first := ReachesOverwrite();
    r := SignalThenClaim(first);
    assert r.states[..|first.states|][0] == first.states[0];
  }

  /******* Each signal is claimed once *******/

  // Either party takes the dataplane over: the peer by its claim, Praxis by
  // becoming ready from a copy that was not steady.
  ghost predicate IsClaim(s: State, a: Action) {
    && s.versions != []
    && (a.PeerClaim? || (a.Deploy? && s.phase.Protected? && !s.phase.copy.status.Steady? && Next(s, a).phase.Ready?))
  }

  // A write that turns cleanup-complete into an owner's status.
  ghost predicate ConsumesSignal(s: State, a: Action) {
    && s.versions != []
    && Last(s.versions).status.CleanupComplete? && !Last(Next(s, a).versions).status.CleanupComplete?
  }

  ghost predicate WritesSignal(s: State, a: Action) {
    && s.versions != []
    && !Last(s.versions).status.CleanupComplete? && Last(Next(s, a).versions).status.CleanupComplete?
  }

  // One of the two cleanups writes the signal.
  ghost predicate Signals(s: State, a: Action) {
    (a.Mark? || a.PeerSignal?) && WritesSignal(s, a)
  }

  // A claim is a compare-and-swap on a current signal, so it consumes it, and
  // the claiming party is the one selected at that moment.
  lemma {:induction false} ClaimConsumes(s: State, a: Action)
    requires Enabled(s, a) && IsClaim(s, a)
    ensures ConsumesSignal(s, a) && (a.PeerClaim? <==> !Last(s.versions).praxisSelected)
  {
  }

  // Nothing else consumes it.
  lemma {:induction false} OnlyClaimsConsume(s: State, a: Action)
    requires PraxisOnlyWhileSteady(s) && Enabled(s, a)
    ensures ConsumesSignal(s, a) <==> IsClaim(s, a)
  {
  }

  lemma {:induction false} OnlyCleanupsSignal(s: State, a: Action)
    requires Enabled(s, a) && WritesSignal(s, a)
    ensures Signals(s, a)
  {
  }

  lemma {:induction false} SignalWrittenBetween(r: Run, i: nat, j: nat)
    requires ValidRun(r) && i < j < |r.states|
    requires r.states[i].versions != [] && !Last(r.states[i].versions).status.CleanupComplete?
    requires r.states[j].versions != [] && Last(r.states[j].versions).status.CleanupComplete?
    ensures exists k :: i <= k < j && WritesSignal(r.states[k], r.actions[k])
  {
    assert Enabled(r.states[j - 1], r.actions[j - 1]);
    if Last(r.states[j - 1].versions).status.CleanupComplete? {
      SignalWrittenBetween(r, i, j - 1);
    } else {
      assert WritesSignal(r.states[j - 1], r.actions[j - 1]);
    }
  }

  // Between any two claims, by either party, a cleanup signalled again.
  lemma {:induction false} EachSignalClaimedOnce(r: Run, i: nat, j: nat)
    requires ValidRun(r) && i < j < |r.actions|
    requires IsClaim(r.states[i], r.actions[i]) && IsClaim(r.states[j], r.actions[j])
    ensures exists k :: i < k < j && Signals(r.states[k], r.actions[k])
  {
    assert r.states[i + 1] == Next(r.states[i], r.actions[i]) && Enabled(r.states[i], r.actions[i]);
    assert Enabled(r.states[j], r.actions[j]);
    ClaimConsumes(r.states[i], r.actions[i]);
    ClaimConsumes(r.states[j], r.actions[j]);
    SignalWrittenBetween(r, i + 1, j);
    var k :| i + 1 <= k < j && WritesSignal(r.states[k], r.actions[k]);
    assert Enabled(r.states[k], r.actions[k]);
    OnlyCleanupsSignal(r.states[k], r.actions[k]);
    assert Signals(r.states[k], r.actions[k]);
  }

  ghost function ClaimsMade(r: Run, n: nat): nat
    requires n <= |r.actions| <= |r.states|
  {
    if n == 0 then 0
    else ClaimsMade(r, n - 1) + if IsClaim(r.states[n - 1], r.actions[n - 1]) then 1 else 0
  }

  ghost function SignalsWritten(r: Run, n: nat): nat
    requires n <= |r.actions| <= |r.states|
  {
    if n == 0 then 0
    else SignalsWritten(r, n - 1) + if WritesSignal(r.states[n - 1], r.actions[n - 1]) then 1 else 0
  }

  ghost function Pending(s: State): nat
    requires s.versions != []
  {
    if Last(s.versions).status.CleanupComplete? then 1 else 0
  }

  // Signals are conserved: the first one and every one written are claimed
  // once each, but for the one still pending.
  lemma {:induction false} SignalsAreConserved(r: Run, n: nat)
    requires ValidRun(r) && Init(r.states[0]) && n <= |r.actions|
    ensures r.states[n].versions != []
    ensures Pending(r.states[0]) + SignalsWritten(r, n) == ClaimsMade(r, n) + Pending(r.states[n])
  {
    if n > 0 {
      SignalsAreConserved(r, n - 1);
      PraxisOnlyWhileSteadyAlways(r, n - 1);
      OnlyClaimsConsume(r.states[n - 1], r.actions[n - 1]);
    }
  }
}
