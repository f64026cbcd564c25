// Resolving models and providers into routes, for serving and for preloading
// every referenced provider.
module Resolver {
  import opened Routes
  import opened Selection
  import opened Wrappers

  datatype Auth = Auth(kind: string, secretName: string)

  datatype ProviderKey = ProviderKey(namespace: string, name: string)

  datatype Provider = Provider(
    key: ProviderKey, kind: string, endpoint: string, ready: bool, auth: Auth, config: map<string, string>)

  // An absent weight counts as one; an empty namespace is the model's.
  datatype Ref = Ref(
    provider: string, namespace: string, weight: Option<int>, apiFormat: string, targetModel: string, path: string,
    auth: Option<Auth>, config: map<string, string>)

  // An empty modelName leaves the object's own name visible to clients.
  datatype Model = Model(namespace: string, name: string, modelName: string, refs: seq<Ref>)

  // The validated shared transport of one reference.
  datatype Transport = Transport(path: string, caCertificates: string, credentialName: string, port: int)

  datatype SkipReason =
    | WeightDisabled
    | RefNotPermitted
    | TranslationDisabled
    | RefNotFound
    | ProviderNotReady
    | APIFormatUnsupported

  datatype Skip = Skip(provider: string, reason: SkipReason)

  datatype ModelRoutes = ModelRoutes(modelRef: string, routes: seq<Route>, skips: seq<Skip>)

  datatype Progress = Progress(routes: seq<Route>, skips: seq<Skip>, active: set<ProviderKey>)

  // Unsupported keeps what was resolved up to the unqualified binding.
  datatype RefError = Unsupported(sofar: Progress) | Repeated | BadTransport

  datatype Failure =
    | Unqualified(models: seq<ModelRoutes>)
    | RepeatedReference
    | InvalidTransport
    | NoRoutes(models: seq<ModelRoutes>)

  datatype Mode = Mode(includeDisabled: bool, translation: bool)

  type Transports = (Provider, Ref) -> Result<Transport, ()>

  const START := Progress([], [], {})

  predicate SupportedFormat(kind: string, apiFormat: string) {
    || ((kind == "openai" || kind == "bedrock-openai" || kind == "azure" || kind == "azure-openai")
        && apiFormat == "openai-chat")
    || (kind == "anthropic" && apiFormat == "messages")
  }

  function WeightOf(ref: Ref): int {
    match ref.weight case None => 1 case Some(w) => w
  }

  function ModelRef(m: Model): string {
    m.namespace + "/" + m.name
  }

  function ClientName(m: Model): string {
    if m.modelName != "" then m.modelName else m.name
  }

  function KeyFor(m: Model, ref: Ref): ProviderKey {
    ProviderKey(if ref.namespace != "" then ref.namespace else m.namespace, ref.provider)
  }

  // The served name of a CRD auth type.
  function AuthType(kind: string): string {
    if kind == "simple" then "apikey" else kind
  }

  function RouteOf(shortHash: string -> string, m: Model, ref: Ref, p: Provider, t: Transport,
                   translation: bool): Route {
    var auth := match ref.auth case Some(a) => a case None => p.auth;
    var secretNamespace := if ref.auth.None? && p.key.namespace != m.namespace then p.key.namespace else "";
    var r := NO_ROUTE.(
      model := m.name, clientName := ClientName(m), namespace := m.namespace,
      provider := p.key.name, providerNamespace := p.key.namespace, providerType := p.kind,
      endpoint := p.endpoint, port := t.port, tlsCACertificates := t.caCertificates,
      tlsCredentialName := t.credentialName, targetModel := ref.targetModel, apiFormat := ref.apiFormat,
      path := t.path, apiTranslationEnabled := translation, weight := WeightOf(ref),
      authType := AuthType(auth.kind), secretName := auth.secretName, secretKey := "api-key",
      secretNamespace := secretNamespace);
    r.(cluster := ServiceName(shortHash, r))
  }

  // Why a reference is left out before its provider's capabilities count.
  function Exclusion(providers: map<ProviderKey, Provider>, m: Model, ref: Ref, mode: Mode): Option<SkipReason> {
    var key := KeyFor(m, ref);
    if WeightOf(ref) <= 0 && !mode.includeDisabled then Some(WeightDisabled)
    else if key !in providers && key.namespace != m.namespace then Some(RefNotPermitted)
    else if ref.apiFormat == "messages" && !mode.translation
            && (key !in providers || providers[key].kind == "anthropic") then Some(TranslationDisabled)
    else if key !in providers then Some(RefNotFound)
    else if !providers[key].ready then Some(ProviderNotReady)
    else None
  }

  function Skipped(p: Progress, ref: Ref, reason: SkipReason): Progress {
    p.(skips := p.skips + [Skip(ref.provider, reason)])
  }

  lemma {:induction false} NotExcludedIsKnown(providers: map<ProviderKey, Provider>, m: Model, ref: Ref, mode: Mode)
    requires Exclusion(providers, m, ref, mode).None?
    ensures KeyFor(m, ref) in providers
  {
  }

  function ResolveRef(shortHash: string -> string, transports: Transports, providers: map<ProviderKey, Provider>,
                      m: Model, mode: Mode, ref: Ref, p: Progress): Result<Progress, RefError>
  {
    match Exclusion(providers, m, ref, mode)
    case Some(reason) => Ok(Skipped(p, ref, reason))
    case None =>
      NotExcludedIsKnown(providers, m, ref, mode);
      var prov := providers[KeyFor(m, ref)];
      var positive := WeightOf(ref) > 0;
      if !SupportedFormat(prov.kind, ref.apiFormat) then
        var q := Skipped(p, ref, APIFormatUnsupported);
        if positive then Err(Unsupported(q)) else Ok(q)
      else if positive && KeyFor(m, ref) in p.active then Err(Repeated)
      else match transports(prov, ref)
           case Err(_) => Err(BadTransport)
           case Ok(t) =>
             Ok(Progress(p.routes + [RouteOf(shortHash, m, ref, prov, t, mode.translation)], p.skips,
                         if positive then p.active + {KeyFor(m, ref)} else p.active))
  }

  function ResolveRefs(shortHash: string -> string, transports: Transports, providers: map<ProviderKey, Provider>,
                       m: Model, mode: Mode, refs: seq<Ref>): Result<Progress, RefError>
  {
    if refs == [] then Ok(START)
    else
      var p :- ResolveRefs(shortHash, transports, providers, m, mode, refs[..|refs| - 1]);
      ResolveRef(shortHash, transports, providers, m, mode, refs[|refs| - 1], p)
  }

  function Finish(m: Model, p: Progress): ModelRoutes {
    ModelRoutes(ModelRef(m), p.routes, p.skips)
  }

  function ResolveModels(shortHash: string -> string, transports: Transports, providers: map<ProviderKey, Provider>,
                         mode: Mode, models: seq<Model>): Result<seq<ModelRoutes>, Failure>
  {
    if models == [] then Ok([])
    else
      var done :- ResolveModels(shortHash, transports, providers, mode, models[..|models| - 1]);
      var m := models[|models| - 1];
      match ResolveRefs(shortHash, transports, providers, m, mode, m.refs)
      case Ok(p) => Ok(done + [Finish(m, p)])
      case Err(Unsupported(p)) => Err(Unqualified(done + [Finish(m, p)]))
      case Err(Repeated) => Err(RepeatedReference)
      case Err(BadTransport) => Err(InvalidTransport)
  }

  function Flatten(models: seq<ModelRoutes>): seq<Binding> {
    if models == [] then []
    else Flatten(models[..|models| - 1]) + Bindings(models[|models| - 1])
  }

  function Bindings(m: ModelRoutes): (r: seq<Binding>)
    ensures |r| == |m.routes| && forall i | 0 <= i < |r| :: r[i] == Binding(m.modelRef, m.routes[i])
  {
    seq(|m.routes|, i requires 0 <= i < |m.routes| => Binding(m.modelRef, m.routes[i]))
  }

  function ByKey(providers: seq<Provider>): map<ProviderKey, Provider> {
    if providers == [] then map[]
    else ByKey(providers[..|providers| - 1])[providers[|providers| - 1].key := providers[|providers| - 1]]
  }

  function Resolved(shortHash: string -> string, transports: Transports, providers: seq<Provider>,
                    mode: Mode, models: seq<Model>): Result<seq<ModelRoutes>, Failure>
  {
    var done :- ResolveModels(shortHash, transports, ByKey(providers), mode, models);
    if Flatten(done) == [] then Err(NoRoutes(done)) else Ok(done)
  }

  // ----- the resolution loops -----

  method IndexProviders(providers: seq<Provider>) returns (byKey: map<ProviderKey, Provider>)
    ensures byKey == ByKey(providers)
  {
    byKey := map[];
    var i := 0;
    while i < |providers|
      invariant 0 <= i <= |providers|
      invariant byKey == ByKey(providers[..i])
    {
      assert providers[..i + 1][..i] == providers[..i];
      byKey := byKey[providers[i].key := providers[i]];
      i := i + 1;
    }
    assert providers[..|providers|] == providers;
  }

  lemma {:induction false} RefsStop(shortHash: string -> string, transports: Transports,
                                    providers: map<ProviderKey, Provider>, m: Model, mode: Mode, refs: seq<Ref>, i: nat)
    requires i <= |refs| && ResolveRefs(shortHash, transports, providers, m, mode, refs[..i]).Err?
    ensures ResolveRefs(shortHash, transports, providers, m, mode, refs)
         == ResolveRefs(shortHash, transports, providers, m, mode, refs[..i])
    decreases |refs| - i
  {
    if i < |refs| {
      assert refs[..i + 1][..i] == refs[..i];
      RefsStop(shortHash, transports, providers, m, mode, refs, i + 1);
    } else {
      assert refs[..i] == refs;
    }
  }

  method ResolveOne(shortHash: string -> string, transports: Transports, byKey: map<ProviderKey, Provider>,
                    m: Model, mode: Mode) returns (r: Result<Progress, RefError>)
    ensures r == ResolveRefs(shortHash, transports, byKey, m, mode, m.refs)
  {
    var routes: seq<Route>, skips: seq<Skip>, active: set<ProviderKey> := [], [], {};
    var i := 0;
    while i < |m.refs|
      invariant 0 <= i <= |m.refs|
      invariant Ok(Progress(routes, skips, active)) == ResolveRefs(shortHash, transports, byKey, m, mode, m.refs[..i])
    {
      var ref := m.refs[i];
      assert m.refs[..i + 1][..i] == m.refs[..i];
      i := i + 1;
      var weight := WeightOf(ref);
      if weight <= 0 && !mode.includeDisabled {
        skips := skips + [Skip(ref.provider, WeightDisabled)];
        continue;
      }
      var key := KeyFor(m, ref);
      var found := key in byKey;
      if !found && key.namespace != m.namespace {
        skips := skips + [Skip(ref.provider, RefNotPermitted)];
        continue;
      }
      if ref.apiFormat == "messages" && !mode.translation && (!found || byKey[key].kind == "anthropic") {
        skips := skips + [Skip(ref.provider, TranslationDisabled)];
        continue;
      }
      if !found {
        skips := skips + [Skip(ref.provider, RefNotFound)];
        continue;
      }
      var prov := byKey[key];
      if !prov.ready {
        skips := skips + [Skip(ref.provider, ProviderNotReady)];
        continue;
      }
      if !SupportedFormat(prov.kind, ref.apiFormat) {
        skips := skips + [Skip(ref.provider, APIFormatUnsupported)];
        if weight <= 0 { continue; }
        RefsStop(shortHash, transports, byKey, m, mode, m.refs, i);
        return Err(Unsupported(Progress(routes, skips, active)));
      }
      if weight > 0 && key in active {
        RefsStop(shortHash, transports, byKey, m, mode, m.refs, i);
        return Err(Repeated);
      }
      if weight > 0 { active := active + {key}; }
      var transport := transports(prov, ref);
      if transport.Err? {
        RefsStop(shortHash, transports, byKey, m, mode, m.refs, i);
        return Err(BadTransport);
      }
      routes := routes + [RouteOf(shortHash, m, ref, prov, transport.value, mode.translation)];
    }
    assert m.refs[..|m.refs|] == m.refs;
    r := Ok(Progress(routes, skips, active));
  }

  lemma {:induction false} ModelsStop(shortHash: string -> string, transports: Transports,
                                      providers: map<ProviderKey, Provider>, mode: Mode, models: seq<Model>, i: nat)
    requires i <= |models| && ResolveModels(shortHash, transports, providers, mode, models[..i]).Err?
    ensures ResolveModels(shortHash, transports, providers, mode, models)
         == ResolveModels(shortHash, transports, providers, mode, models[..i])
    decreases |models| - i
  {
    if i < |models| {
      assert models[..i + 1][..i] == models[..i];
      ModelsStop(shortHash, transports, providers, mode, models, i + 1);
    } else {
      assert models[..i] == models;
    }
  }

  method Resolve(shortHash: string -> string, transports: Transports, providers: seq<Provider>,
                 mode: Mode, models: seq<Model>) returns (r: Result<seq<ModelRoutes>, Failure>)
    ensures r == Resolved(shortHash, transports, providers, mode, models)
  {
    var byKey := IndexProviders(providers);
    var done: seq<ModelRoutes> := [];
    var resolved := 0;
    var i := 0;
    while i < |models|
      invariant 0 <= i <= |models|
      invariant Ok(done) == ResolveModels(shortHash, transports, byKey, mode, models[..i])
      invariant resolved == |Flatten(done)|
    {
      var m := models[i];
      assert models[..i + 1][..i] == models[..i];
      i := i + 1;
      var one := ResolveOne(shortHash, transports, byKey, m, mode);
      if one.Err? {
        ModelsStop(shortHash, transports, byKey, mode, models, i);
        match one.error
        case Unsupported(p) => return Err(Unqualified(done + [Finish(m, p)]));
        case Repeated => return Err(RepeatedReference);
        case BadTransport => return Err(InvalidTransport);
      }
      assert (done + [Finish(m, one.value)])[..|done|] == done;
      done := done + [Finish(m, one.value)];
      resolved := resolved + |one.value.routes|;
    }
    assert models[..|models|] == models;
    if resolved == 0 { return Err(NoRoutes(done)); }
    r := Ok(done);
  }
}
