// Which references a resolution turns into routes, what it puts into them, why
// it skips the others, and when it gives up, all stated on its inputs.
module ResolvedRoutes {
  import opened Resolver
  import opened Routes
  import opened Selection
  import opened Wrappers

  // ----- one reference -----

  // One model, resolved with these providers in this mode.
  datatype Job = Job(transports: Transports, providers: map<ProviderKey, Provider>, m: Model, mode: Resolver.Mode)

  // An explicit weight of zero or less switches a reference off; preloading
  // takes it all the same.
  predicate Active(ref: Ref) {
    ref.weight.Some? ==> ref.weight.value > 0
  }

  predicate Enabled(job: Job, ref: Ref) {
    Active(ref) || job.mode.includeDisabled
  }

  predicate Foreign(job: Job, ref: Ref) {
    ref.namespace != "" && ref.namespace != job.m.namespace
  }

  function Named(job: Job, ref: Ref): ProviderKey {
    ProviderKey(if Foreign(job, ref) then ref.namespace else job.m.namespace, ref.provider)
  }

  predicate Known(job: Job, ref: Ref) {
    Named(job, ref) in job.providers
  }

  // Messages needs the translation, unless a known provider of another kind is
  // to be found unqualified.
  predicate Untranslated(job: Job, ref: Ref) {
    && ref.apiFormat == "messages" && !job.mode.translation
    && (Known(job, ref) ==> job.providers[Named(job, ref)].kind == "anthropic")
  }

  predicate Qualified(kind: string, apiFormat: string) {
    || (apiFormat == "messages" && kind == "anthropic")
    || (apiFormat == "openai-chat" && kind in {"openai", "bedrock-openai", "azure", "azure-openai"})
  }

  // Everything but the capability of the provider is in order.
  predicate Reaches(job: Job, ref: Ref) {
    && Enabled(job, ref) && Known(job, ref) && !Untranslated(job, ref) && job.providers[Named(job, ref)].ready
  }

  predicate Yields(job: Job, ref: Ref) {
    Reaches(job, ref) && Qualified(job.providers[Named(job, ref)].kind, ref.apiFormat)
  }

  // The first thing that is wrong with a reference, in the order it is checked.
  predicate WrongWith(job: Job, ref: Ref, reason: SkipReason) {
    match reason
    case WeightDisabled => !Enabled(job, ref)
    case RefNotPermitted => Enabled(job, ref) && !Known(job, ref) && Foreign(job, ref)
    case TranslationDisabled =>
      Enabled(job, ref) && Untranslated(job, ref) && (Known(job, ref) || !Foreign(job, ref))
    case RefNotFound => Enabled(job, ref) && !Untranslated(job, ref) && !Known(job, ref) && !Foreign(job, ref)
    case ProviderNotReady =>
      Enabled(job, ref) && !Untranslated(job, ref) && Known(job, ref) && !job.providers[Named(job, ref)].ready
    case APIFormatUnsupported => Reaches(job, ref) && !Yields(job, ref)
  }

  lemma {:induction false} OneReason(job: Job, ref: Ref)
    ensures Yields(job, ref) <==> forall reason :: !WrongWith(job, ref, reason)
    ensures forall a, b :: WrongWith(job, ref, a) && WrongWith(job, ref, b) ==> a == b
  {
    if !Enabled(job, ref) { assert WrongWith(job, ref, WeightDisabled); }
    if Enabled(job, ref) && !Known(job, ref) && Foreign(job, ref) { assert WrongWith(job, ref, RefNotPermitted); }
    if Enabled(job, ref) && !Known(job, ref) && !Foreign(job, ref) && !Untranslated(job, ref) {
      assert WrongWith(job, ref, RefNotFound);
    }
    if Enabled(job, ref) && Untranslated(job, ref) && (Known(job, ref) || !Foreign(job, ref)) {
      assert WrongWith(job, ref, TranslationDisabled);
    }
    if Enabled(job, ref) && Known(job, ref) && !Untranslated(job, ref) {
      var last := if job.providers[Named(job, ref)].ready then APIFormatUnsupported else ProviderNotReady;
      assert WrongWith(job, ref, last) || Yields(job, ref);
    }
  }

  // The credential: the reference's own, a Secret of the model's namespace, or
  // the provider's, a Secret of the provider's.
  predicate CarriesCredential(m: Model, ref: Ref, p: Provider, r: Route) {
    && r.secretKey == "api-key"
    && match ref.auth
       case Some(own) =>
         && r.authType == (if own.kind == "simple" then "apikey" else own.kind)
         && r.secretName == own.secretName && r.secretNamespace == ""
       case None =>
         && r.authType == (if p.auth.kind == "simple" then "apikey" else p.auth.kind)
         && r.secretName == p.auth.secretName
         && r.secretNamespace == (if p.key.namespace == m.namespace then "" else p.key.namespace)
  }

  // What a route takes from its model, its provider, its reference and the
  // shared transport.
  predicate CarriesAll(m: Model, ref: Ref, p: Provider, t: Transport, translation: bool, r: Route) {
    && r.model == m.name && r.namespace == m.namespace
    && r.clientName == (if m.modelName == "" then m.name else m.modelName)
    && r.provider == p.key.name && r.providerNamespace == p.key.namespace
    && r.providerType == p.kind && r.endpoint == p.endpoint
    && r.targetModel == ref.targetModel && r.apiFormat == ref.apiFormat
    && r.weight == (if ref.weight.None? then 1 else ref.weight.value)
    && r.path == t.path && r.port == t.port
    && r.tlsCACertificates == t.caCertificates && r.tlsCredentialName == t.credentialName
    && r.apiTranslationEnabled == translation && r.stableId == "" && CarriesCredential(m, ref, p, r)
  }

  predicate StandsForRef(job: Job, ref: Ref, r: Route) {
    && Yields(job, ref)
    && var p := job.providers[Named(job, ref)];
    && job.transports(p, ref).Ok?
    && CarriesAll(job.m, ref, p, job.transports(p, ref).value, job.mode.translation, r)
  }

  // ----- the references of a model -----

  predicate Increasing(at: seq<nat>, n: nat) {
    && (forall k | 0 <= k < |at| :: at[k] < n)
    && forall k, l | 0 <= k < l < |at| :: at[k] < at[l]
  }

  // The positions of the references that yield a route, or of the others.
  predicate Positions(job: Job, refs: seq<Ref>, at: seq<nat>, yielding: bool) {
    Increasing(at, |refs|) && forall i: nat | i < |refs| :: i in at <==> Yields(job, refs[i]) == yielding
  }

  predicate RoutesOf(job: Job, refs: seq<Ref>, at: seq<nat>, routes: seq<Route>)
    requires Increasing(at, |refs|)
  {
    |routes| == |at| && forall k | 0 <= k < |at| :: StandsForRef(job, refs[at[k]], routes[k])
  }

  predicate SkipsOf(job: Job, refs: seq<Ref>, at: seq<nat>, skips: seq<Skip>)
    requires Increasing(at, |refs|)
  {
    |skips| == |at| && forall k | 0 <= k < |at| ::
      skips[k].provider == refs[at[k]].provider && WrongWith(job, refs[at[k]], skips[k].reason)
  }

  // Routes and skips account for every reference, in order.
  ghost predicate Accounts(job: Job, refs: seq<Ref>, routes: seq<Route>, skips: seq<Skip>, kept: seq<nat>,
                           left: seq<nat>) {
    && Positions(job, refs, kept, true) && RoutesOf(job, refs, kept, routes)
    && Positions(job, refs, left, false) && SkipsOf(job, refs, left, skips)
  }

  ghost predicate Accounted(job: Job, refs: seq<Ref>, routes: seq<Route>, skips: seq<Skip>) {
    exists kept: seq<nat>, left: seq<nat> :: Accounts(job, refs, routes, skips, kept, left)
  }

  predicate Incapable(job: Job, ref: Ref) {
    Reaches(job, ref) && !Yields(job, ref) && Active(ref)
  }

  // An active reference to the provider of an earlier active one.
  predicate TwiceActive(job: Job, refs: seq<Ref>, i: nat)
    requires i < |refs|
  {
    && Yields(job, refs[i]) && Active(refs[i])
    && exists j | 0 <= j < i ::
         Yields(job, refs[j]) && Active(refs[j]) && Named(job, refs[j]) == Named(job, refs[i])
  }

  predicate Untransported(job: Job, ref: Ref) {
    Yields(job, ref) && job.transports(job.providers[Named(job, ref)], ref).Err?
  }

  predicate StopsAt(job: Job, refs: seq<Ref>, i: nat)
    requires i < |refs|
  {
    Incapable(job, refs[i]) || TwiceActive(job, refs, i) || Untransported(job, refs[i])
  }

  // The error of the reference the resolution stops at.
  ghost predicate StopsWith(job: Job, refs: seq<Ref>, i: nat, e: RefError)
    requires i < |refs|
  {
    match e
    case Unsupported(p) =>
      && Incapable(job, refs[i])
      && p.skips != [] && p.skips[|p.skips| - 1] == Skip(refs[i].provider, APIFormatUnsupported)
      && Accounted(job, refs[..i], p.routes, p.skips[..|p.skips| - 1])
    case Repeated => TwiceActive(job, refs, i)
    case BadTransport => Untransported(job, refs[i]) && !TwiceActive(job, refs, i)
  }

  // The providers of active routes so far.
  ghost predicate ActiveSofar(job: Job, refs: seq<Ref>, active: set<ProviderKey>) {
    forall key :: key in active <==>
      exists i | 0 <= i < |refs| :: Yields(job, refs[i]) && Active(refs[i]) && Named(job, refs[i]) == key
  }

  // Resolving the references: all of them are accounted for, or the first that
  // cannot be resolved decides the error.
  ghost predicate Resolves(job: Job, refs: seq<Ref>, r: Result<Progress, RefError>) {
    match r
    case Ok(p) =>
      && (forall i: nat | i < |refs| :: !StopsAt(job, refs, i))
      && Accounted(job, refs, p.routes, p.skips)
      && ActiveSofar(job, refs, p.active)
    case Err(e) =>
      exists i: nat | i < |refs| ::
        StopsAt(job, refs, i) && (forall j: nat | j < i :: !StopsAt(job, refs, j)) && StopsWith(job, refs, i, e)
  }

  // One reference, on its own.
  lemma {:induction false} OneRef(shortHash: string -> string, job: Job, ref: Ref, p: Progress)
    ensures var r := ResolveRef(shortHash, job.transports, job.providers, job.m, job.mode, ref, p);
      var repeated := Yields(job, ref) && Active(ref) && Named(job, ref) in p.active;
      if Incapable(job, ref) then
        r == Err(Unsupported(p.(skips := p.skips + [Skip(ref.provider, APIFormatUnsupported)])))
      else if repeated then r == Err(Repeated)
      else if Untransported(job, ref) then r == Err(BadTransport)
      else if Yields(job, ref) then
        && r.Ok? && r.value.skips == p.skips
        && |r.value.routes| == |p.routes| + 1 && r.value.routes[..|p.routes|] == p.routes
        && StandsForRef(job, ref, r.value.routes[|p.routes|])
        && r.value.active == (if Active(ref) then p.active + {Named(job, ref)} else p.active)
      else
        && r.Ok? && r.value.routes == p.routes && r.value.active == p.active
        && |r.value.skips| == |p.skips| + 1 && r.value.skips[..|p.skips|] == p.skips
        && r.value.skips[|p.skips|].provider == ref.provider
        && WrongWith(job, ref, r.value.skips[|p.skips|].reason)
  {
  }

  lemma {:induction false} StopsInPrefix(job: Job, refs: seq<Ref>, n: nat, i: nat)
    requires i < n <= |refs|
    ensures TwiceActive(job, refs[..n], i) <==> TwiceActive(job, refs, i)
    ensures StopsAt(job, refs[..n], i) <==> StopsAt(job, refs, i)
  {
    assert forall j :: 0 <= j < n ==> refs[..n][j] == refs[j];
    if TwiceActive(job, refs, i) {
      var j :| 0 <= j < i && Yields(job, refs[j]) && Active(refs[j]) && Named(job, refs[j]) == Named(job, refs[i]);
      assert refs[..n][j] == refs[j];
    }
  }

  lemma {:induction false} IncreasingMore(at: seq<nat>, n: nat)
    requires Increasing(at, n)
    ensures Increasing(at, n + 1) && Increasing(at + [n], n + 1) && n !in at
  {
  }

  lemma {:induction false} PositionsMore(job: Job, refs: seq<Ref>, at: seq<nat>, yielding: bool, ref: Ref)
    requires Positions(job, refs, at, yielding)
    ensures Positions(job, refs + [ref], if Yields(job, ref) == yielding then at + [|refs|] else at, yielding)
  {
    IncreasingMore(at, |refs|);
    assert forall i: nat :: i in at + [|refs|] <==> i in at || i == |refs|;
  }

  lemma {:induction false} RoutesMore(job: Job, refs: seq<Ref>, at: seq<nat>, routes: seq<Route>, ref: Ref, r: Route)
    requires Increasing(at, |refs|) && RoutesOf(job, refs, at, routes)
    ensures Increasing(at, |refs| + 1) && RoutesOf(job, refs + [ref], at, routes)
    ensures Increasing(at + [|refs|], |refs| + 1)
    ensures StandsForRef(job, ref, r) ==> RoutesOf(job, refs + [ref], at + [|refs|], routes + [r])
  {
    IncreasingMore(at, |refs|);
    assert forall i :: 0 <= i < |refs| ==> (refs + [ref])[i] == refs[i];
  }

  lemma {:induction false} SkipsMore(job: Job, refs: seq<Ref>, at: seq<nat>, skips: seq<Skip>, ref: Ref, skip: Skip)
    requires Increasing(at, |refs|) && SkipsOf(job, refs, at, skips)
    ensures Increasing(at, |refs| + 1) && SkipsOf(job, refs + [ref], at, skips)
    ensures Increasing(at + [|refs|], |refs| + 1)
    ensures skip.provider == ref.provider && WrongWith(job, ref, skip.reason) ==>
      SkipsOf(job, refs + [ref], at + [|refs|], skips + [skip])
  {
    IncreasingMore(at, |refs|);
    assert forall i :: 0 <= i < |refs| ==> (refs + [ref])[i] == refs[i];
  }

  lemma {:induction false} KeepOne(job: Job, refs: seq<Ref>, routes: seq<Route>, skips: seq<Skip>, ref: Ref, r: Route)
    requires Accounted(job, refs, routes, skips) && StandsForRef(job, ref, r)
    ensures Accounted(job, refs + [ref], routes + [r], skips)
  {
    var kept: seq<nat>, left: seq<nat> :| Accounts(job, refs, routes, skips, kept, left);
    PositionsMore(job, refs, kept, true, ref);
    PositionsMore(job, refs, left, false, ref);
    RoutesMore(job, refs, kept, routes, ref, r);
    SkipsMore(job, refs, left, skips, ref, Skip(ref.provider, RefNotFound));
    assert Accounts(job, refs + [ref], routes + [r], skips, kept + [|refs|], left);
  }

  lemma {:induction false} LeaveOne(job: Job, refs: seq<Ref>, routes: seq<Route>, skips: seq<Skip>, ref: Ref,
                                    skip: Skip)
    requires Accounted(job, refs, routes, skips)
    requires !Yields(job, ref) && skip.provider == ref.provider && WrongWith(job, ref, skip.reason)
    ensures Accounted(job, refs + [ref], routes, skips + [skip])
  {
    var kept: seq<nat>, left: seq<nat> :| Accounts(job, refs, routes, skips, kept, left);
    PositionsMore(job, refs, kept, true, ref);
    PositionsMore(job, refs, left, false, ref);
    RoutesMore(job, refs, kept, routes, ref, NO_ROUTE);
    SkipsMore(job, refs, left, skips, ref, skip);
    assert Accounts(job, refs + [ref], routes, skips + [skip], kept, left + [|refs|]);
  }

  lemma {:induction false} ActiveMore(job: Job, refs: seq<Ref>, active: set<ProviderKey>, ref: Ref)
    requires ActiveSofar(job, refs, active)
    ensures ActiveSofar(job, refs + [ref],
                        if Yields(job, ref) && Active(ref) then active + {Named(job, ref)} else active)
    ensures Yields(job, ref) && Active(ref) ==>
      (TwiceActive(job, refs + [ref], |refs|) <==> Named(job, ref) in active)
  {
    var more := refs + [ref];
    assert more[|refs|] == ref && forall i :: 0 <= i < |refs| ==> more[i] == refs[i];
    forall key | key in active
      ensures exists i | 0 <= i < |more| :: Yields(job, more[i]) && Active(more[i]) && Named(job, more[i]) == key
    {
      var i :| 0 <= i < |refs| && Yields(job, refs[i]) && Active(refs[i]) && Named(job, refs[i]) == key;
      assert more[i] == refs[i];
    }
    if Yields(job, ref) && Active(ref) && Named(job, ref) in active {
      var i :| 0 <= i < |refs| && Yields(job, refs[i]) && Active(refs[i]) && Named(job, refs[i]) == Named(job, ref);
      assert more[i] == refs[i];
    }
  }

  lemma {:induction false} RefsResolve(shortHash: string -> string, job: Job, refs: seq<Ref>)
    ensures Resolves(job, refs, ResolveRefs(shortHash, job.transports, job.providers, job.m, job.mode, refs))
  {
    if refs == [] {
      assert Accounts(job, refs, [], [], [], []);
    } else {
      var front, n := refs[..|refs| - 1], |refs| - 1;
      assert refs == front + [refs[n]];
      RefsResolve(shortHash, job, front);
      forall i: nat | i < n
        ensures (StopsAt(job, front, i) <==> StopsAt(job, refs, i))
          && (TwiceActive(job, front, i) <==> TwiceActive(job, refs, i))
      {
        StopsInPrefix(job, refs, n, i);
      }
      match ResolveRefs(shortHash, job.transports, job.providers, job.m, job.mode, front)
      case Ok(p) =>
        LastResolves(shortHash, job, front, refs[n], p);
      case Err(e) =>
        var i: nat :| i < n && StopsAt(job, front, i) && (forall j: nat | j < i :: !StopsAt(job, front, j))
          && StopsWith(job, front, i, e);
        assert front[..i] == refs[..i];
    }
  }

  lemma {:induction false} LastAccounted(shortHash: string -> string, job: Job, front: seq<Ref>, ref: Ref, p: Progress)
    requires Accounted(job, front, p.routes, p.skips)
    ensures var r := ResolveRef(shortHash, job.transports, job.providers, job.m, job.mode, ref, p);
      r.Ok? ==> Accounted(job, front + [ref], r.value.routes, r.value.skips)
  {
    OneRef(shortHash, job, ref, p);
    match ResolveRef(shortHash, job.transports, job.providers, job.m, job.mode, ref, p)
    case Ok(q) =>
      if Yields(job, ref) {
        KeepOne(job, front, p.routes, p.skips, ref, q.routes[|p.routes|]);
        assert q.routes == p.routes + [q.routes[|p.routes|]];
      } else {
        LeaveOne(job, front, p.routes, p.skips, ref, q.skips[|p.skips|]);
        assert q.skips == p.skips + [q.skips[|p.skips|]];
      }
    case Err(_) =>
  }

  lemma {:induction false} LastStops(shortHash: string -> string, job: Job, front: seq<Ref>, ref: Ref, p: Progress)
    requires Accounted(job, front, p.routes, p.skips) && ActiveSofar(job, front, p.active)
    ensures match ResolveRef(shortHash, job.transports, job.providers, job.m, job.mode, ref, p)
            case Ok(q) => !StopsAt(job, front + [ref], |front|) && ActiveSofar(job, front + [ref], q.active)
            case Err(e) => StopsAt(job, front + [ref], |front|) && StopsWith(job, front + [ref], |front|, e)
  {
    var refs, n := front + [ref], |front|;
    OneRef(shortHash, job, ref, p);
    ActiveMore(job, front, p.active, ref);
    assert refs[n] == ref && refs[..n] == front;
    match ResolveRef(shortHash, job.transports, job.providers, job.m, job.mode, ref, p)
    case Ok(_) =>
    case Err(e) =>
      if e.Unsupported? { assert e.sofar.skips[..|e.sofar.skips| - 1] == p.skips; }
  }

  lemma {:induction false} LastResolves(shortHash: string -> string, job: Job, front: seq<Ref>, ref: Ref, p: Progress)
    requires Resolves(job, front, Ok(p))
    requires forall i: nat | i < |front| :: !StopsAt(job, front + [ref], i)
    ensures Resolves(job, front + [ref],
                     ResolveRef(shortHash, job.transports, job.providers, job.m, job.mode, ref, p))
  {
    LastAccounted(shortHash, job, front, ref, p);
    LastStops(shortHash, job, front, ref, p);
  }

  // ----- all models -----

  // Of providers given twice the later one counts.
  ghost predicate Latest(providers: seq<Provider>, i: int, key: ProviderKey) {
    && 0 <= i < |providers| && providers[i].key == key
    && forall j | i < j < |providers| :: providers[j].key != key
  }

  lemma {:induction false} ByKeyIsLatest(providers: seq<Provider>, key: ProviderKey)
    ensures key in ByKey(providers) <==> exists p :: p in providers && p.key == key
    ensures key in ByKey(providers) ==> exists i :: Latest(providers, i, key) && ByKey(providers)[key] == providers[i]
  {
    if providers != [] {
      var front, n := providers[..|providers| - 1], |providers| - 1;
      ByKeyIsLatest(front, key);
      assert providers == front + [providers[n]];
      if providers[n].key == key {
        assert Latest(providers, n, key);
      } else if key in ByKey(front) {
        var i :| Latest(front, i, key) && ByKey(front)[key] == front[i];
        assert Latest(providers, i, key);
      }
    }
  }

  // A model resolved without an error: no reference stops it, and all of them
  // are accounted for.
  ghost predicate Complete(job: Job, out: ModelRoutes) {
    && out.modelRef == job.m.namespace + "/" + job.m.name
    && (forall i: nat | i < |job.m.refs| :: !StopsAt(job, job.m.refs, i))
    && Accounted(job, job.m.refs, out.routes, out.skips)
  }

  ghost predicate AllComplete(transports: Transports, providers: map<ProviderKey, Provider>, mode: Resolver.Mode,
                              models: seq<Model>, out: seq<ModelRoutes>) {
    |out| == |models|
    && forall i | 0 <= i < |models| :: Complete(Job(transports, providers, models[i], mode), out[i])
  }

  // Reference i stops a model, and the failure is that reference's. What is
  // handed back beside an unqualified one accounts for the references before
  // it and names it last.
  ghost predicate Fails(job: Job, i: nat, before: seq<ModelRoutes>, f: Failure)
    requires i < |job.m.refs|
  {
    && StopsAt(job, job.m.refs, i) && (forall j: nat | j < i :: !StopsAt(job, job.m.refs, j))
    && match f
       case Unqualified(out) =>
         && |out| == |before| + 1 && out[..|before|] == before
         && var last := out[|before|];
         && last.modelRef == job.m.namespace + "/" + job.m.name
         && StopsWith(job, job.m.refs, i, Unsupported(Progress(last.routes, last.skips, {})))
       case RepeatedReference => StopsWith(job, job.m.refs, i, Repeated)
       case InvalidTransport => StopsWith(job, job.m.refs, i, BadTransport)
       case NoRoutes(_) => false
  }

  ghost predicate FailsAt(transports: Transports, providers: map<ProviderKey, Provider>, mode: Resolver.Mode,
                          models: seq<Model>, n: nat, i: nat, before: seq<ModelRoutes>, f: Failure) {
    && n < |models| && i < |models[n].refs|
    && AllComplete(transports, providers, mode, models[..n], before)
    && Fails(Job(transports, providers, models[n], mode), i, before, f)
  }

  ghost predicate ModelsResolve(transports: Transports, providers: map<ProviderKey, Provider>, mode: Resolver.Mode,
                                models: seq<Model>, r: Result<seq<ModelRoutes>, Failure>) {
    match r
    case Ok(out) => AllComplete(transports, providers, mode, models, out)
    case Err(f) => exists n: nat, i: nat, before :: FailsAt(transports, providers, mode, models, n, i, before, f)
  }

  // The failure an error of one model's references turns into.
  function FailureOf(m: Model, before: seq<ModelRoutes>, e: RefError): Failure {
    match e
    case Unsupported(p) => Unqualified(before + [Finish(m, p)])
    case Repeated => RepeatedReference
    case BadTransport => InvalidTransport
  }

  lemma {:induction false} FailsWith(job: Job, i: nat, before: seq<ModelRoutes>, e: RefError)
    requires i < |job.m.refs| && StopsAt(job, job.m.refs, i)
    requires forall j: nat | j < i :: !StopsAt(job, job.m.refs, j)
    requires StopsWith(job, job.m.refs, i, e)
    ensures Fails(job, i, before, FailureOf(job.m, before, e))
  {
    if e.Unsupported? {
      var out := before + [Finish(job.m, e.sofar)];
      assert out[..|before|] == before;
    }
  }

  lemma {:induction false} LastModel(shortHash: string -> string, job: Job,
                                     before: seq<ModelRoutes>) returns (i: nat)
    ensures match ResolveRefs(shortHash, job.transports, job.providers, job.m, job.mode, job.m.refs)
            case Ok(p) => Complete(job, Finish(job.m, p))
            case Err(e) => i < |job.m.refs| && Fails(job, i, before, FailureOf(job.m, before, e))
  {
    i := 0;
    RefsResolve(shortHash, job, job.m.refs);
    match ResolveRefs(shortHash, job.transports, job.providers, job.m, job.mode, job.m.refs)
    case Ok(p) =>
    case Err(e) =>
      i :| i < |job.m.refs| && StopsAt(job, job.m.refs, i)
        && (forall j: nat | j < i :: !StopsAt(job, job.m.refs, j)) && StopsWith(job, job.m.refs, i, e);
      FailsWith(job, i, before, e);
  }

  lemma {:induction false} ModelsStep(shortHash: string -> string, transports: Transports,
                                      providers: map<ProviderKey, Provider>, mode: Resolver.Mode, models: seq<Model>)
    requires models != []
    ensures var front, m := models[..|models| - 1], models[|models| - 1];
      var before := ResolveModels(shortHash, transports, providers, mode, front);
      ResolveModels(shortHash, transports, providers, mode, models) ==
        if before.Err? then before
        else match ResolveRefs(shortHash, transports, providers, m, mode, m.refs)
          case Ok(p) => Ok(before.value + [Finish(m, p)])
          case Err(e) => Err(FailureOf(m, before.value, e))
  {
  }

  lemma {:induction false} CompleteMore(transports: Transports, providers: map<ProviderKey, Provider>,
                                        mode: Resolver.Mode, front: seq<Model>, m: Model, done: seq<ModelRoutes>,
                                        out: ModelRoutes)
    requires AllComplete(transports, providers, mode, front, done)
    requires Complete(Job(transports, providers, m, mode), out)
    ensures AllComplete(transports, providers, mode, front + [m], done + [out])
  {
  }

  lemma {:induction false} FailsInPrefix(transports: Transports, providers: map<ProviderKey, Provider>,
                                         mode: Resolver.Mode, front: seq<Model>, m: Model, n: nat, i: nat,
                                         before: seq<ModelRoutes>, f: Failure)
    requires FailsAt(transports, providers, mode, front, n, i, before, f)
    ensures FailsAt(transports, providers, mode, front + [m], n, i, before, f)
  {
    assert (front + [m])[..n] == front[..n] && (front + [m])[n] == front[n];
  }

  lemma {:induction false} AllModels(shortHash: string -> string, transports: Transports,
                                     providers: map<ProviderKey, Provider>, mode: Resolver.Mode, models: seq<Model>)
    ensures ModelsResolve(transports, providers, mode, models,
                          ResolveModels(shortHash, transports, providers, mode, models))
  {
    if models != [] {
      var front, m := models[..|models| - 1], models[|models| - 1];
      assert models == front + [m];
      AllModels(shortHash, transports, providers, mode, front);
      ModelsStep(shortHash, transports, providers, mode, models);
      match ResolveModels(shortHash, transports, providers, mode, front)
      case Ok(done) =>
        LastOfModels(shortHash, transports, providers, mode, front, m, done);
      case Err(f) =>
        var n: nat, i: nat, before :| FailsAt(transports, providers, mode, front, n, i, before, f);
        FailsInPrefix(transports, providers, mode, front, m, n, i, before, f);
    }
  }

  lemma {:induction false} LastOfModels(shortHash: string -> string, transports: Transports,
                                        providers: map<ProviderKey, Provider>, mode: Resolver.Mode,
                                        front: seq<Model>, m: Model, done: seq<ModelRoutes>)
    requires AllComplete(transports, providers, mode, front, done)
    ensures ModelsResolve(transports, providers, mode, front + [m],
                          match ResolveRefs(shortHash, transports, providers, m, mode, m.refs)
                          case Ok(p) => Ok(done + [Finish(m, p)])
                          case Err(e) => Err(FailureOf(m, done, e)))
  {
    var i := LastModel(shortHash, Job(transports, providers, m, mode), done);
    match ResolveRefs(shortHash, transports, providers, m, mode, m.refs)
    case Ok(p) => CompleteMore(transports, providers, mode, front, m, done, Finish(m, p));
    case Err(e) =>
      assert (front + [m])[..|front|] == front;
      assert FailsAt(transports, providers, mode, front + [m], |front|, i, done, FailureOf(m, done, e));
  }

  // The whole resolution: every reference of every model yields its route or
  // is skipped for the first thing wrong with it, and with a route there is
  // success; or the first model and reference that cannot be resolved decide
  // the error.
  lemma {:induction false} ResolvedIsExact(shortHash: string -> string, transports: Transports,
                                           providers: seq<Provider>, mode: Resolver.Mode, models: seq<Model>)
    ensures match Resolved(shortHash, transports, providers, mode, models)
            case Ok(out) =>
              && AllComplete(transports, ByKey(providers), mode, models, out)
              && exists i :: 0 <= i < |out| && out[i].routes != []
            case Err(NoRoutes(out)) =>
              && AllComplete(transports, ByKey(providers), mode, models, out)
              && forall i :: 0 <= i < |out| ==> out[i].routes == []
            case Err(f) =>
              exists n: nat, i: nat, before :: FailsAt(transports, ByKey(providers), mode, models, n, i, before, f)
  {
    AllModels(shortHash, transports, ByKey(providers), mode, models);
    match ResolveModels(shortHash, transports, ByKey(providers), mode, models)
    case Ok(out) => EmptyFlatten(out);
    case Err(_) =>
  }

  lemma {:induction false} EmptyFlatten(out: seq<ModelRoutes>)
    ensures Flatten(out) == [] <==> forall i :: 0 <= i < |out| ==> out[i].routes == []
  {
    if out != [] {
      EmptyFlatten(out[..|out| - 1]);
      assert |Bindings(out[|out| - 1])| == |out[|out| - 1].routes|;
      assert forall i :: 0 <= i < |out| - 1 ==> out[..|out| - 1][i] == out[i];
    }
  }

  lemma {:induction false} RouteFrom(job: Job, refs: seq<Ref>, at: seq<nat>, routes: seq<Route>,
                                     k: nat) returns (ref: Ref)
    requires Increasing(at, |refs|) && RoutesOf(job, refs, at, routes) && k < |routes|
    ensures ref in refs && StandsForRef(job, ref, routes[k])
  {
    ref := refs[at[k]];
  }

  lemma {:induction false} RouteHasRef(job: Job, out: ModelRoutes, k: nat) returns (ref: Ref)
    requires Complete(job, out) && k < |out.routes|
    ensures ref in job.m.refs && StandsForRef(job, ref, out.routes[k])
  {
    var kept: seq<nat>, left: seq<nat> :| Accounts(job, job.m.refs, out.routes, out.skips, kept, left);
    ref := RouteFrom(job, job.m.refs, kept, out.routes, k);
  }

  // In particular every returned route goes to a provider that is ready, the
  // one its reference names.
  lemma {:induction false} ReturnedAreReady(shortHash: string -> string, transports: Transports,
                                            providers: seq<Provider>, mode: Resolver.Mode, models: seq<Model>,
                                            out: seq<ModelRoutes>, i: nat, r: Route) returns (ref: Ref, p: Provider)
    requires Resolved(shortHash, transports, providers, mode, models) == Ok(out)
    requires i < |out| && r in out[i].routes
    ensures i < |models| && ref in models[i].refs && p in providers && p.ready
    ensures p.key.name == ref.provider
    ensures p.key.namespace == if ref.namespace == "" then models[i].namespace else ref.namespace
    ensures transports(p, ref).Ok? && CarriesAll(models[i], ref, p, transports(p, ref).value, mode.translation, r)
  {
    ResolvedIsExact(shortHash, transports, providers, mode, models);
    var job := Job(transports, ByKey(providers), models[i], mode);
    var k :| 0 <= k < |out[i].routes| && out[i].routes[k] == r;
    ref := RouteHasRef(job, out[i], k);
    ByKeyIsLatest(providers, Named(job, ref));
    p := ByKey(providers)[Named(job, ref)];
  }
}
