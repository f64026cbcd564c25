// What holds of every resolution, and between the two modes.
module ResolverTheorems {
  import opened Envelopes
  import opened Resolver
  import opened Routes
  import opened Selection
  import opened SelectionOdds
  import opened Wrappers

  // ----- serving is the positive part of preloading -----

  function Positive(rs: seq<Route>): seq<Route> {
    if rs == [] then []
    else Positive(rs[..|rs| - 1]) + if rs[|rs| - 1].weight > 0 then [rs[|rs| - 1]] else []
  }

  lemma {:induction false} PositiveAppend(rs: seq<Route>, r: Route)
    ensures Positive(rs + [r]) == Positive(rs) + if r.weight > 0 then [r] else []
  {
    assert (rs + [r])[..|rs|] == rs;
  }

  // Preloading keeps disabled references, serving drops them.
  function Preload(translation: bool): Resolver.Mode {
    Resolver.Mode(true, translation)
  }

  function Serve(translation: bool): Resolver.Mode {
    Resolver.Mode(false, translation)
  }

  predicate Serves(serving: Progress, all: Progress) {
    serving.routes == Positive(all.routes) && serving.active == all.active
  }

  lemma {:induction false} RefServes(shortHash: string -> string, transports: Transports,
                                     providers: map<ProviderKey, Provider>, m: Model, translation: bool, ref: Ref,
                                     serving: Progress, all: Progress)
    requires Serves(serving, all)
    requires ResolveRef(shortHash, transports, providers, m, Preload(translation), ref, all).Ok?
    ensures var r := ResolveRef(shortHash, transports, providers, m, Serve(translation), ref, serving);
      r.Ok? && Serves(r.value, ResolveRef(shortHash, transports, providers, m, Preload(translation), ref, all).value)
  {
    var full, live := Preload(translation), Serve(translation);
    if WeightOf(ref) > 0 { assert Exclusion(providers, m, ref, full) == Exclusion(providers, m, ref, live); }
    if Exclusion(providers, m, ref, full).None? {
      NotExcludedIsKnown(providers, m, ref, full);
      var prov := providers[KeyFor(m, ref)];
      if SupportedFormat(prov.kind, ref.apiFormat) {
        PositiveAppend(all.routes, RouteOf(shortHash, m, ref, prov, transports(prov, ref).value, translation));
      }
    }
  }

  lemma {:induction false} RefsServe(shortHash: string -> string, transports: Transports,
                                     providers: map<ProviderKey, Provider>, m: Model, translation: bool, refs: seq<Ref>)
    requires ResolveRefs(shortHash, transports, providers, m, Preload(translation), refs).Ok?
    ensures var r := ResolveRefs(shortHash, transports, providers, m, Serve(translation), refs);
      r.Ok? && Serves(r.value, ResolveRefs(shortHash, transports, providers, m, Preload(translation), refs).value)
  {
    if refs != [] {
      var front, last := refs[..|refs| - 1], refs[|refs| - 1];
      RefsServe(shortHash, transports, providers, m, translation, front);
      RefServes(shortHash, transports, providers, m, translation, last,
                ResolveRefs(shortHash, transports, providers, m, Serve(translation), front).value,
                ResolveRefs(shortHash, transports, providers, m, Preload(translation), front).value);
    }
  }

  predicate ServedModels(serving: seq<ModelRoutes>, all: seq<ModelRoutes>) {
    && |serving| == |all|
    && forall i | 0 <= i < |all| ::
         serving[i].modelRef == all[i].modelRef && serving[i].routes == Positive(all[i].routes)
  }

  lemma {:induction false} ModelsServe(shortHash: string -> string, transports: Transports,
                                       providers: map<ProviderKey, Provider>, translation: bool, models: seq<Model>)
    requires ResolveModels(shortHash, transports, providers, Preload(translation), models).Ok?
    ensures var r := ResolveModels(shortHash, transports, providers, Serve(translation), models);
      && r.Ok?
      && ServedModels(r.value, ResolveModels(shortHash, transports, providers, Preload(translation), models).value)
  {
    if models != [] {
      ModelsServe(shortHash, transports, providers, translation, models[..|models| - 1]);
      var m := models[|models| - 1];
      RefsServe(shortHash, transports, providers, m, translation, m.refs);
    }
  }

  // When the preloading resolution succeeds, the serving one has exactly its
  // positive-weight routes, model by model and in the same order, and lacks
  // routes altogether only when there are none.
  lemma {:induction false} ServingIsPositivePart(shortHash: string -> string, transports: Transports,
                                                 providers: seq<Provider>, translation: bool, models: seq<Model>)
    requires Resolved(shortHash, transports, providers, Preload(translation), models).Ok?
    ensures var all := Resolved(shortHash, transports, providers, Preload(translation), models).value;
      match Resolved(shortHash, transports, providers, Serve(translation), models)
      case Ok(serving) => ServedModels(serving, all) && Flatten(serving) != []
      case Err(NoRoutes(serving)) => ServedModels(serving, all) && Flatten(serving) == []
      case Err(_) => false
  {
    ModelsServe(shortHash, transports, ByKey(providers), translation, models);
  }

  // ----- every set of routes the resolver returns -----

  // The sets handed back: with a success, and with the two errors that carry
  // what was resolved.
  function Returned(r: Result<seq<ModelRoutes>, Failure>): seq<ModelRoutes> {
    match r
    case Ok(ms) => ms
    case Err(NoRoutes(ms)) => ms
    case Err(Unqualified(ms)) => ms
    case Err(_) => []
  }

  predicate KeyedByName(providers: map<ProviderKey, Provider>) {
    forall k | k in providers :: providers[k].key == k
  }

  lemma {:induction false} ByKeyIsKeyed(providers: seq<Provider>)
    ensures KeyedByName(ByKey(providers))
    ensures forall k | k in ByKey(providers) :: ByKey(providers)[k] in providers
  {
    if providers != [] {
      ByKeyIsKeyed(providers[..|providers| - 1]);
      assert providers == providers[..|providers| - 1] + [providers[|providers| - 1]];
    }
  }

  function RouteKey(r: Route): ProviderKey {
    ProviderKey(r.providerNamespace, r.provider)
  }

  predicate DistinctActive(routes: seq<Route>) {
    forall i, j | 0 <= i < j < |routes| && routes[i].weight > 0 && routes[j].weight > 0 ::
      RouteKey(routes[i]) != RouteKey(routes[j])
  }

  // What holds of each model's routes: active providers are distinct,
  // Messages needs the permission, disabled routes are only preloaded, and
  // every route is its model's own, through a known provider of a format it
  // is qualified for.
  predicate Proper(shortHash: string -> string, providers: map<ProviderKey, Provider>, mode: Resolver.Mode,
                   m: Model, routes: seq<Route>)
  {
    && DistinctActive(routes)
    && forall r | r in routes ::
         && RouteKey(r) in providers
         && SupportedFormat(r.providerType, r.apiFormat)
         && (r.apiFormat == "messages" ==> mode.translation)
         && (r.weight <= 0 ==> mode.includeDisabled)
         && r.clientName == ClientName(m) && r.namespace == m.namespace
         && r.cluster == ServiceName(shortHash, r)
  }

  predicate Tracked(p: Progress) {
    forall r | r in p.routes :: r.weight > 0 ==> RouteKey(r) in p.active
  }

  function ProgressOf(r: Result<Progress, RefError>): Progress {
    match r
    case Ok(p) => p
    case Err(Unsupported(p)) => p
    case Err(_) => START
  }

  lemma {:induction false} RefStaysProper(shortHash: string -> string, transports: Transports,
                                          providers: map<ProviderKey, Provider>, m: Model, mode: Resolver.Mode,
                                          ref: Ref, p: Progress)
    requires KeyedByName(providers) && Proper(shortHash, providers, mode, m, p.routes) && Tracked(p)
    ensures var q := ProgressOf(ResolveRef(shortHash, transports, providers, m, mode, ref, p));
      Proper(shortHash, providers, mode, m, q.routes) && Tracked(q)
  {
    if Exclusion(providers, m, ref, mode).None? {
      NotExcludedIsKnown(providers, m, ref, mode);
      var prov := providers[KeyFor(m, ref)];
      if SupportedFormat(prov.kind, ref.apiFormat) && transports(prov, ref).Ok? {
        var r := RouteOf(shortHash, m, ref, prov, transports(prov, ref).value, mode.translation);
        if !(r.weight > 0 && RouteKey(r) in p.active) {
          OneMoreProper(shortHash, providers, mode, m, p, r);
        }
      }
    }
  }

  lemma {:induction false} OneMoreProper(shortHash: string -> string, providers: map<ProviderKey, Provider>,
                                         mode: Resolver.Mode,
                                         m: Model, p: Progress, r: Route)
    requires Proper(shortHash, providers, mode, m, p.routes) && Tracked(p)
    requires Proper(shortHash, providers, mode, m, [r]) && !(r.weight > 0 && RouteKey(r) in p.active)
    ensures Proper(shortHash, providers, mode, m, p.routes + [r])
    ensures Tracked(Progress(p.routes + [r], p.skips, if r.weight > 0 then p.active + {RouteKey(r)} else p.active))
  {
    assert r in [r];
    forall i | 0 <= i < |p.routes| && p.routes[i].weight > 0 && r.weight > 0
      ensures RouteKey(p.routes[i]) != RouteKey(r)
    {
      assert p.routes[i] in p.routes;
    }
  }

  lemma {:induction false} RefsAreProper(shortHash: string -> string, transports: Transports,
                                         providers: map<ProviderKey, Provider>, m: Model, mode: Resolver.Mode,
                                         refs: seq<Ref>)
    requires KeyedByName(providers)
    ensures var p := ProgressOf(ResolveRefs(shortHash, transports, providers, m, mode, refs));
      Proper(shortHash, providers, mode, m, p.routes) && Tracked(p)
  {
    if refs != [] {
      RefsAreProper(shortHash, transports, providers, m, mode, refs[..|refs| - 1]);
      match ResolveRefs(shortHash, transports, providers, m, mode, refs[..|refs| - 1])
      case Ok(p) => RefStaysProper(shortHash, transports, providers, m, mode, refs[|refs| - 1], p);
      case Err(_) =>
    }
  }

  predicate AllProper(shortHash: string -> string, providers: map<ProviderKey, Provider>, mode: Resolver.Mode,
                      models: seq<Model>, out: seq<ModelRoutes>)
  {
    && |out| <= |models|
    && forall i | 0 <= i < |out| ::
         out[i].modelRef == ModelRef(models[i]) && Proper(shortHash, providers, mode, models[i], out[i].routes)
  }

  function ReturnedModels(r: Result<seq<ModelRoutes>, Failure>): seq<ModelRoutes> {
    match r
    case Ok(ms) => ms
    case Err(Unqualified(ms)) => ms
    case Err(_) => []
  }

  lemma {:induction false} ModelsAreProper(shortHash: string -> string, transports: Transports,
                                           providers: map<ProviderKey, Provider>, mode: Resolver.Mode,
                                           models: seq<Model>)
    requires KeyedByName(providers)
    ensures AllProper(shortHash, providers, mode, models,
                      ReturnedModels(ResolveModels(shortHash, transports, providers, mode, models)))
    ensures match ResolveModels(shortHash, transports, providers, mode, models)
            case Ok(ms) => |ms| == |models|
            case Err(f) => !f.NoRoutes?
  {
    if models != [] {
      var front, m := models[..|models| - 1], models[|models| - 1];
      ModelsAreProper(shortHash, transports, providers, mode, front);
      RefsAreProper(shortHash, transports, providers, m, mode, m.refs);
      var done := ReturnedModels(ResolveModels(shortHash, transports, providers, mode, front));
      match ResolveModels(shortHash, transports, providers, mode, front)
      case Err(_) =>
      case Ok(_) =>
        OneMoreModel(shortHash, providers, mode, front, done, m,
                     ProgressOf(ResolveRefs(shortHash, transports, providers, m, mode, m.refs)));
        assert models == front + [m];
    }
  }

  lemma {:induction false} OneMoreModel(shortHash: string -> string, providers: map<ProviderKey, Provider>,
                                        mode: Resolver.Mode,
                                        models: seq<Model>, out: seq<ModelRoutes>, m: Model, p: Progress)
    requires AllProper(shortHash, providers, mode, models, out) && |out| == |models|
    requires Proper(shortHash, providers, mode, m, p.routes)
    ensures AllProper(shortHash, providers, mode, models + [m], out + [Finish(m, p)])
  {
  }

  // Every set of routes the resolver hands back, even beside an error, is
  // proper model by model.
  lemma {:induction false} ReturnedIsProper(shortHash: string -> string, transports: Transports,
                                            providers: seq<Provider>, mode: Resolver.Mode, models: seq<Model>)
    ensures AllProper(shortHash, ByKey(providers), mode, models,
                      Returned(Resolved(shortHash, transports, providers, mode, models)))
  {
    ByKeyIsKeyed(providers);
    ModelsAreProper(shortHash, transports, ByKey(providers), mode, models);
  }

  // The resolver's qualified formats are exactly those that rendering has a
  // credential strategy for.
  lemma {:induction false} QualifiedFormatsHaveStrategies(r: Route)
    requires r.authType == "apikey"
    ensures StrategyFor(r).Ok? <==> SupportedFormat(r.providerType, r.apiFormat)
    ensures StrategyFor(r).Ok? ==>
      (StrategyFor(r).value.header != "" <==> StrategyFor(r).value.strategy == "apikey")
  {
  }

  lemma {:induction false} NoProblems(bs: seq<Binding>, opts: Options)
    ensures FirstProblem(bs, opts).None? <==> forall b | b in bs :: RouteProblem(b.route, opts).None?
  {
    if bs != [] {
      NoProblems(bs[1..], opts);
      assert forall b :: b in bs <==> b == bs[0] || b in bs[1..];
    }
  }

  // All that rendering still asks of a route the resolver returned.
  predicate Renderable(r: Route, opts: Options) {
    && (r.authType == "" || r.authType == "apikey")
    && (opts.knownClusters == {} || r.cluster in opts.knownClusters)
  }

  // Rendering refuses what the resolver returns exactly when a route signs
  // requests itself or goes to a cluster that is not allowed; a missing
  // credential strategy is never the reason.
  lemma {:induction false} ResolvedRoutesAreRenderable(shortHash: string -> string, transports: Transports,
                                                       providers: seq<Provider>, mode: Resolver.Mode,
                                                       models: seq<Model>,
                                                       opts: Options)
    ensures var bs := Flatten(Returned(Resolved(shortHash, transports, providers, mode, models)));
      FirstProblem(bs, opts).None? <==> forall b | b in bs :: Renderable(b.route, opts)
  {
    var out := Returned(Resolved(shortHash, transports, providers, mode, models));
    ReturnedIsProper(shortHash, transports, providers, mode, models);
    forall b | b in Flatten(out) ensures RouteProblem(b.route, opts).None? <==> Renderable(b.route, opts) {
      var i := BindingOrigin(out, b);
      if b.route.authType == "apikey" { QualifiedFormatsHaveStrategies(b.route); }
    }
    NoProblems(Flatten(out), opts);
  }

  // ----- from references to the picker's odds -----

  lemma {:induction false} BindingOrigin(models: seq<ModelRoutes>, b: Binding) returns (i: nat)
    requires b in Flatten(models)
    ensures i < |models| && b.modelRef == models[i].modelRef && b.route in models[i].routes
  {
    var last := models[|models| - 1];
    if b in Bindings(last) {
      i := |models| - 1;
      var k :| 0 <= k < |Bindings(last)| && Bindings(last)[k] == b;
      assert b.route == last.routes[k];
    } else {
      i := BindingOrigin(models[..|models| - 1], b);
    }
  }

  predicate DistinctModels(models: seq<Model>) {
    forall i, j | 0 <= i < j < |models| :: ModelRef(models[i]) != ModelRef(models[j])
  }

  lemma {:induction false} ResolvedRoutesAreFromResolver(shortHash: string -> string, transports: Transports,
                                                         providers: seq<Provider>, mode: Resolver.Mode,
                                                         models: seq<Model>)
    requires DistinctModels(models) && forall p | p in providers :: p.key.namespace != ""
    ensures FromResolver(shortHash, Flatten(Returned(Resolved(shortHash, transports, providers, mode, models))))
  {
    var out := Returned(Resolved(shortHash, transports, providers, mode, models));
    ReturnedIsProper(shortHash, transports, providers, mode, models);
    ByKeyIsKeyed(providers);
    forall b | b in Flatten(out)
      ensures b.route.providerNamespace != "" && b.route.cluster == ServiceName(shortHash, b.route)
    {
      var i := BindingOrigin(out, b);
      assert ByKey(providers)[RouteKey(b.route)].key == RouteKey(b.route);
    }
    forall b, c | b in Flatten(out) && c in Flatten(out) && b.modelRef == c.modelRef
      ensures b.route.clientName == c.route.clientName && b.route.namespace == c.route.namespace
    {
      var i := BindingOrigin(out, b);
      var j := BindingOrigin(out, c);
      assert i == j;
    }
  }

  // From references to odds: what serving resolves and rendering accepts is
  // drawn by the picker in proportion to the references' weights.
  lemma {:induction false} ServedOddsAreWeights(shortHash: string -> string, transports: Transports,
                                                providers: seq<Provider>, translation: bool, models: seq<Model>,
                                                scope: Scope, opts: Options, i: nat)
    requires forall x, y :: shortHash(x) == shortHash(y) ==> x == y
    requires DistinctModels(models) && forall p | p in providers :: p.key.namespace != ""
    requires var bs := Flatten(Returned(Resolved(shortHash, transports, providers, Serve(translation), models)));
      && NoRepeats(bs) && i < |bs|
      && NotPreserved(opts, bs[i].route.clientName)
      && forall b | b in bs :: b.route.weight <= MAX_TRAFFIC_WEIGHT
    ensures var bs := Flatten(Returned(Resolved(shortHash, transports, providers, Serve(translation), models)));
      var o := OverlayOf(bs, scope, opts);
      var name := bs[i].route.clientName;
      && |Appended(bs, scope, opts)| == |bs|
      && PickWeight(o.policy, Appended(bs, scope, opts)[i]) * WeightTotal(Named(bs, name))
         == bs[i].route.weight * PickTotal(o.policy, o.candidates, name)
      && PickTotal(o.policy, o.candidates, name) > 0
  {
    var out := Returned(Resolved(shortHash, transports, providers, Serve(translation), models));
    var bs := Flatten(out);
    ResolvedRoutesAreFromResolver(shortHash, transports, providers, Serve(translation), models);
    ResolvedKeysAreDistinct(shortHash, bs);
    ReturnedIsProper(shortHash, transports, providers, Serve(translation), models);
    forall b | b in bs ensures WeightInRange(b) { var k := BindingOrigin(out, b); }
    OddsAreWeights(bs, scope, opts, i);
  }
}
