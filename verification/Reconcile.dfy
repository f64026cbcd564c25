// One reconcile of a tenant, from the HTTPRoutes it finds to those it renders,
// is the protocol's stage and apply steps; and what the protocol takes as routed
// is where requests go.
module Reconcile {
  import AppliedRoutes
  import opened HttpRoutes
  import opened Overlays
  import opened Rereading
  import opened Routes
  import opened StableIds
  import StagedRules
  import Staging
  import StagingStep
  import WithdrawalProtocol
  import opened Wrappers

  // ----- a reconcile -----

  function ServiceFor(names: Names, c: Source): string {
    match c
    case Local(_, provider) => PROVIDER_SERVICE_PREFIX + provider
    case Scoped(_, _, providerNamespace, provider) =>
      PROVIDER_SERVICE_PREFIX + provider + "-" + names.shortHash(providerNamespace + "/" + provider)
  }

  // The identities and Services of a list of rules.
  function Realised(sha: string -> string, names: Names, rules: set<Bound>): set<(StableId, string)> {
    set x | x in rules :: (Print(sha, x.id), ServiceFor(names, x.target))
  }

  lemma {:induction false} PairsAreRealised(sha: string -> string, names: Names, routes: seq<Route>)
    requires forall r | r in routes :: StagingStep.Spelled(sha, r)
    ensures StagedRules.PairsOf(names, routes) == Realised(sha, names, Bounds(routes))
  {
    forall r | r in routes
      ensures (RouteStableId(r), Service(names, r)) in Realised(sha, names, Bounds(routes))
    {
      assert BoundOf(r) in Bounds(routes) && Service(names, r) == ServiceFor(names, TargetOf(r));
    }
    forall x | x in Bounds(routes)
      ensures (Print(sha, x.id), ServiceFor(names, x.target)) in StagedRules.PairsOf(names, routes)
    {
      var r :| r in routes && BoundOf(r) == x;
      assert (RouteStableId(r), Service(names, r)) in StagedRules.PairsOf(names, routes);
    }
  }

  lemma {:induction false} RenderedTargets(sha: string -> string, routes: seq<Route>)
    requires WithdrawalProtocol.Rendered(Bounds(routes)) && forall r | r in routes :: StagingStep.Spelled(sha, r)
    ensures StagedRules.OneIdPerTarget(routes)
  {
    forall a, b | a in routes && b in routes && TargetOf(a) == TargetOf(b)
      ensures RouteStableId(a) == RouteStableId(b)
    {
      assert BoundOf(a) in Bounds(routes) && BoundOf(b) in Bounds(routes);
    }
  }

  lemma {:induction false} WorldIsSeen(reader: Reader, names: Names, before: seq<Route>, models: seq<string>,
                                       s: WithdrawalProtocol.State, w: Staging.World)
    requires ReadsWorld(reader, names, before, models, w) && w.Valid() && Staging.DistinctPublished(w)
    requires StagingStep.Publishes(w, WithdrawalProtocol.OwnOf(s.published))
    ensures StagingStep.Sees(s, w)
  {
    WorldIsReadBack(reader, names, before, models, w);
  }

  // Applying what was staged.
  lemma {:induction false} StageAndApply(s: WithdrawalProtocol.State, desired: set<Source>,
                                         reading: StagingStep.Reading, rules: set<Bound>, pending: bool)
    requires s.phase.Idle? && desired != {} && WithdrawalProtocol.IsRead(s.installed, reading)
    requires WithdrawalProtocol.Next(s, WithdrawalProtocol.Stage(desired, reading)).phase
          == WithdrawalProtocol.Staged(desired, rules, pending)
    ensures var stage := WithdrawalProtocol.Stage(desired, reading);
      && WithdrawalProtocol.Enabled(s, stage)
      && WithdrawalProtocol.Next(WithdrawalProtocol.Next(s, stage), WithdrawalProtocol.Apply) ==
           s.(installed := rules, first := desired, phase := WithdrawalProtocol.Applied(desired, pending))
  {
  }

  // The rules rendered from staged routes are those of their bounds.
  lemma {:induction false} RenderedRules(sha: string -> string, names: Names, namespace: string, routes: seq<Route>)
    requires StagedRules.NamesTell(names, routes) && WithdrawalProtocol.Rendered(Bounds(routes))
    requires forall r | r in routes :: StagingStep.Spelled(sha, r) && r.namespace == namespace
    ensures StagedRules.AppliedPairs(names, namespace, routes) == Realised(sha, names, Bounds(routes))
  {
    RenderedTargets(sha, routes);
    StagedRules.EveryRuleIsApplied(names, namespace, routes);
    PairsAreRealised(sha, names, routes);
  }

  // Reading the applied HTTPRoutes back, staging and rendering again are the
  // protocol's stage and apply steps: from rules that are those of the state to
  // rules that are those of the next one, Services included.
  lemma {:induction false} ReconcileIsTheProtocol(
    reader: Reader, names: Names, before: seq<Route>, models: seq<string>, s: WithdrawalProtocol.State,
    w: Staging.World, desired: seq<Route>, keys: seq<StableId>, staged: Staging.Staged, reading: StagingStep.Reading)
    requires WithdrawalProtocol.Sound(s) && s.phase.Idle? && s.installed == Bounds(before) && desired != []
    requires ReadsWorld(reader, names, before, models, w) && GoneTells(reader, before, reading.gone)
    requires w.Valid() && Staging.DistinctPublished(w)
    requires StagingStep.Publishes(w, WithdrawalProtocol.OwnOf(s.published)) && StagingStep.Reads(s, w, reading)
    requires StagingStep.AllNative(w.sha, w.namespace, desired)
    requires Staging.StagesExactly(w, desired, keys, staged) && StagedRules.NamesTell(names, staged.routes)
    ensures var candidates := StagingStep.Candidates(desired);
      var stage := WithdrawalProtocol.Stage(candidates, reading);
      var t := WithdrawalProtocol.Next(WithdrawalProtocol.Next(s, stage), WithdrawalProtocol.Apply);
      && WithdrawalProtocol.Enabled(s, stage)
      && t == s.(installed := Bounds(staged.routes), first := candidates,
                 phase := WithdrawalProtocol.Applied(candidates, staged.pending))
      && StagedRules.AppliedPairs(names, w.namespace, staged.routes) == Realised(w.sha, names, t.installed)
  {
    WorldIsSeen(reader, names, before, models, s, w);
    RenderedIsRead(reader, names, before, models, w, reading);
    StagingStep.StagingIsStage(s, w, desired, keys, staged, reading);
    StagingStep.UnionIsStaged(s, w, desired, keys, staged, reading);
    WithdrawalProtocol.UnionIsRendered(s, StagingStep.Candidates(desired), reading);
    assert TargetOf(desired[0]) in StagingStep.Candidates(desired);
    StageAndApply(s, StagingStep.Candidates(desired), reading, Bounds(staged.routes), staged.pending);
    RenderedRules(w.sha, names, w.namespace, staged.routes);
  }

  // ----- two providers of one name -----

  // The staged route of a rule that is read back and published no more.
  lemma {:induction false} UnpublishedEntry(reader: Reader, names: Names, before: seq<Route>, models: seq<string>,
                                            w: Staging.World, gone: set<Source>, desired: seq<Route>,
                                            keys: seq<StableId>, staged: Staging.Staged, r: Route) returns (a: Route)
    requires ReadsWorld(reader, names, before, models, w) && GoneTells(reader, before, gone)
    requires Staging.StagesExactly(w, desired, keys, staged)
    requires r in before && IdOf(r) == TargetOf(r) && AppliedRoutes.Reads(reader, r)
    requires RouteStableId(r) !in Staging.CurrentIds(w.sha, desired)
    requires Staging.PriorCandidate(w.previous, RouteStableId(r)).None?
    ensures a in staged.routes && TargetOf(a) == TargetOf(r)
    ensures RouteStableId(a) == CandidateStableId(r.model, r.provider)
    ensures a.namespace == w.namespace && a.model == r.model
  {
    var id := RouteStableId(r);
    ReadableTells(reader, r, gone);
    RuleHasEntry(reader, names, before, models, w, gone, r);
    EntryIsReadBack(reader, names, before, models, w, id);
    var k :| 0 <= k < |keys| && keys[k] == id;
    assert Staging.StandsFor(w, keys[k], staged.routes[|desired| + k]);
    a := staged.routes[|desired| + k];
    assert a == w.applied[id];
  }

  // When a local provider and one of the same name in another namespace are
  // both withdrawn and no longer published, their rules come back under one
  // identity, and some request reaches the other one's provider.
  lemma {:induction false} SameNamesClash(reader: Reader, names: Names, before: seq<Route>, models: seq<string>,
                                          w: Staging.World, gone: set<Source>, desired: seq<Route>,
                                          keys: seq<StableId>, staged: Staging.Staged, near: Route, far: Route)
    requires ReadsWorld(reader, names, before, models, w) && GoneTells(reader, before, gone)
    requires Staging.StagesExactly(w, desired, keys, staged) && StagedRules.NamesTell(names, staged.routes)
    requires near in before && far in before && near.model == far.model && near.provider == far.provider
    requires !CrossNamespace(near) && CrossNamespace(far)
    requires forall r | r in {near, far} ::
      && IdOf(r) == TargetOf(r) && AppliedRoutes.Reads(reader, r)
      && RouteStableId(r) !in Staging.CurrentIds(w.sha, desired)
      && Staging.PriorCandidate(w.previous, RouteStableId(r)).None?
    ensures StagedRules.OfModel(staged.routes, near.model) != []
    ensures !StagedRules.OneTargetPerId(StagedRules.OfModel(staged.routes, near.model))
    ensures !StagedRules.AllReached(names, w.namespace, StagedRules.OfModel(staged.routes, near.model))
  {
    assert near in {near, far} && far in {near, far};
    var a := UnpublishedEntry(reader, names, before, models, w, gone, desired, keys, staged, near);
    var b := UnpublishedEntry(reader, names, before, models, w, gone, desired, keys, staged, far);
    StagedRules.TwoTargetsMisroute(names, w.namespace, staged.routes, a, b);
    assert a in StagedRules.OfModel(staged.routes, near.model) && b in StagedRules.OfModel(staged.routes, near.model);
  }

  // ----- routed candidates are reached -----

  lemma {:induction false} OfModelConcat(a: seq<Route>, b: seq<Route>, model: string)
    ensures StagedRules.OfModel(a + b, model) == StagedRules.OfModel(a, model) + StagedRules.OfModel(b, model)
  {
    if b == [] {
      assert a + b == a;
    } else {
      assert (a + b)[..|a + b| - 1] == a + b[..|b| - 1];
      OfModelConcat(a, b[..|b| - 1], model);
    }
  }

  // The first of a list with an identity.
  lemma {:induction false} FirstWith(own: seq<Route>, id: StableId, k: nat) returns (i: nat)
    requires k < |own| && RouteStableId(own[k]) == id
    ensures i <= k && RouteStableId(own[i]) == id
    ensures forall j | 0 <= j < i :: RouteStableId(own[j]) != id
  {
    i := 0;
    while RouteStableId(own[i]) != id
      invariant 0 <= i <= k && forall j | 0 <= j < i :: RouteStableId(own[j]) != id
      decreases k - i
    {
      i := i + 1;
    }
  }

  // Routes whose identities are told apart.
  ghost predicate Legible(sha: string -> string, namespace: string, routes: seq<Route>) {
    && HexDigest(sha) && WithdrawalProtocol.Rendered(Bounds(routes))
    && forall r | r in routes ::
         StagingStep.Spelled(sha, r) && r.namespace == namespace && Printable(IdOf(r))
  }

  lemma {:induction false} IdTells(sha: string -> string, namespace: string, routes: seq<Route>, c: Source, r: Route)
    requires Legible(sha, namespace, routes) && Printable(c) && r in routes
    ensures RouteStableId(r) == Print(sha, c) ==> IdOf(r) == c && BoundOf(r) in Bounds(routes)
    ensures IdOf(r) == c ==> RouteStableId(r) == Print(sha, c)
  {
    if RouteStableId(r) == Print(sha, c) { PrintInjective(sha, IdOf(r), c); }
  }

  // The routes of a model that are desired come first.
  lemma {:induction false} LeadingRoutes(desired: seq<Route>, routes: seq<Route>, model: string)
    requires desired <= routes
    ensures StagedRules.OfModel(desired, model) <= StagedRules.OfModel(routes, model)
  {
    assert routes == desired + routes[|desired|..];
    OfModelConcat(desired, routes[|desired|..], model);
  }

  // The position of a candidate's own route.
  lemma {:induction false} OwnRoute(sha: string -> string, namespace: string, routes: seq<Route>, list: seq<Route>,
                                    c: Source) returns (k: nat)
    requires Legible(sha, namespace, routes) && Printable(c) && (forall r | r in list :: r in routes)
    requires Bound(c, c) in Bounds(list)
    ensures k < |StagedRules.OfModel(list, c.model)|
    ensures RouteStableId(StagedRules.OfModel(list, c.model)[k]) == Print(sha, c)
  {
    var r :| r in list && BoundOf(r) == Bound(c, c);
    IdTells(sha, namespace, routes, c, r);
    assert r in StagedRules.OfModel(list, c.model);
    k :| 0 <= k < |StagedRules.OfModel(list, c.model)| && StagedRules.OfModel(list, c.model)[k] == r;
  }

  // The first route under the identity of a routed candidate is its own.
  lemma {:induction false} RoutedStandsFirst(sha: string -> string, namespace: string, desired: seq<Route>,
                                             routes: seq<Route>, c: Source) returns (i: nat)
    requires desired <= routes && Legible(sha, namespace, routes) && Printable(c)
    requires Bounds(desired) == Native(StagingStep.Candidates(desired))
    requires WithdrawalProtocol.Routed(Bounds(routes), StagingStep.Candidates(desired), c)
    ensures var own := StagedRules.OfModel(routes, c.model);
      && i < |own| && RouteStableId(own[i]) == Print(sha, c) && TargetOf(own[i]) == c
      && forall j | 0 <= j < i :: RouteStableId(own[j]) != Print(sha, c)
  {
    var own, lead := StagedRules.OfModel(routes, c.model), StagedRules.OfModel(desired, c.model);
    LeadingRoutes(desired, routes, c.model);
    if c in StagingStep.Candidates(desired) {
      assert Bound(c, c) in Bounds(desired);
      var k := OwnRoute(sha, namespace, routes, desired, c);
      i := FirstWith(own, Print(sha, c), k);
      assert own[i] == lead[i] && lead[i] in lead && lead[i] in desired;
      IdTells(sha, namespace, routes, c, lead[i]);
      DesiredIsNative(desired, lead[i]);
    } else {
      var k := OwnRoute(sha, namespace, routes, routes, c);
      i := FirstWith(own, Print(sha, c), k);
      assert own[i] in own;
      IdTells(sha, namespace, routes, c, own[i]);
    }
  }

  lemma {:induction false} DesiredIsNative(desired: seq<Route>, r: Route)
    requires Bounds(desired) == Native(StagingStep.Candidates(desired)) && r in desired
    ensures TargetOf(r) == IdOf(r)
  {
    assert BoundOf(r) in Bounds(desired);
  }

  // A request for a candidate that the protocol takes as routed reaches the
  // candidate's provider, over the rules rendered from what was staged.
  lemma {:induction false} RoutedIsReached(sha: string -> string, names: Names, namespace: string, desired: seq<Route>,
                                           routes: seq<Route>, c: Source, q: Request)
    requires desired <= routes && Legible(sha, namespace, routes) && Printable(c)
    requires StagedRules.NamesTell(names, routes)
    requires Bounds(desired) == Native(StagingStep.Candidates(desired))
    requires WithdrawalProtocol.Routed(Bounds(routes), StagingStep.Candidates(desired), c)
    requires q.selected == Some(Print(sha, c)) && StagedRules.OfModel(routes, c.model) != []
    requires StagedRules.Canonical(namespace, StagedRules.OfModel(routes, c.model), q)
    ensures Destination(RulesOf(names, namespace, StagedRules.OfModel(routes, c.model)), q)
         == Some(ServiceFor(names, c))
  {
    var own := StagedRules.OfModel(routes, c.model);
    var i := RoutedStandsFirst(sha, namespace, desired, routes, c);
    RenderedTargets(sha, routes);
    StagedRules.TargetsGiveServices(names, namespace, routes, c.model);
    StagedRules.EarlierRouteIsReached(names, namespace, own, i, q);
  }
}
