// Reading the applied HTTPRoutes of a tenant's models back into routes, so that
// a later reconcile can keep the rules of withdrawn candidates.
module AppliedRoutes {
  import opened Overlays
  import RetainedRules
  import opened Routes
  import opened StableIds
  import opened Wrappers

  // A rule: the identity it matches, empty when it matches none, its first
  // backend's Service and the endpoint of its rewrite, empty without one.
  datatype Rule = Rule(stableId: StableId, service: Option<string>, endpoint: string)

  // The HTTPRoute of one model, with the route profiles its annotation keeps,
  // by identity.
  datatype Applied = Applied(model: string, clientName: string, rules: seq<Rule>, profiles: map<StableId, Route>)

  // shortHash separates same-named providers of different namespaces; owner
  // finds the namespace of a provider whose transport has a given name.
  datatype Reader = Reader(
    namespace: string, shortHash: string -> string, owner: (string, string) -> Option<string>)

  function ProviderNamespace(reader: Reader, identity: Identity, service: string): Option<string> {
    if identity.providerNamespace != "" then
      var probe := NO_ROUTE.(
        model := identity.model, namespace := reader.namespace,
        provider := identity.provider, providerNamespace := identity.providerNamespace);
      if ServiceName(reader.shortHash, probe) == service then Some(identity.providerNamespace) else None
    else if service == PROVIDER_SERVICE_PREFIX + identity.provider then Some(reader.namespace)
    else reader.owner(identity.provider, service)
  }

  predicate ProviderService(service: string) {
    PROVIDER_SERVICE_PREFIX <= service && !(RetainedRules.SELECTION_SINK_PREFIX <= service)
  }

  // The route behind one rule. A local profile restores it whole; nothing
  // restores a scoped identity.
  function ReadRule(reader: Reader, m: Applied, rule: Rule): Option<Route> {
    if rule.stableId == "" || rule.service.None? || !ProviderService(rule.service.value) then None
    else match SplitTenant(rule.stableId, reader.namespace)
         case None => None
         case Some(identity) =>
           var service := rule.service.value;
           if identity.model != m.model || identity.provider == "" then None
           else match ProviderNamespace(reader, identity, service)
                case None => None
                case Some(providerNamespace) =>
                  if rule.endpoint == "" then None
                  else if rule.stableId in m.profiles then
                    Some(m.profiles[rule.stableId].(endpoint := rule.endpoint, cluster := service))
                  else
                    Some(NO_ROUTE.(
                      model := identity.model, clientName := m.clientName, namespace := reader.namespace,
                      provider := identity.provider, providerNamespace := providerNamespace,
                      cluster := service, endpoint := rule.endpoint))
  }

  function ReadRules(reader: Reader, m: Applied, rules: seq<Rule>, known: map<StableId, Route>): map<StableId, Route> {
    if rules == [] then known
    else
      var before := ReadRules(reader, m, rules[..|rules| - 1], known);
      var last := rules[|rules| - 1];
      match ReadRule(reader, m, last)
      case None => before
      case Some(route) => before[last.stableId := route]
  }

  function ReadAll(reader: Reader, models: seq<Applied>): map<StableId, Route> {
    if models == [] then map[]
    else
      var before := ReadAll(reader, models[..|models| - 1]);
      var last := models[|models| - 1];
      if last.model == "" then before else ReadRules(reader, last, last.rules, before)
  }

  method ReadModel(reader: Reader, m: Applied, known: map<StableId, Route>) returns (result: map<StableId, Route>)
    ensures result == ReadRules(reader, m, m.rules, known)
  {
    result := known;
    var i := 0;
    while i < |m.rules|
      invariant 0 <= i <= |m.rules|
      invariant result == ReadRules(reader, m, m.rules[..i], known)
    {
      var rule := m.rules[i];
      assert m.rules[..i + 1][..i] == m.rules[..i];
      i := i + 1;
      var route := ReadRule(reader, m, rule);
      if route.None? { continue; }
      result := result[rule.stableId := route.value];
    }
    assert m.rules[..|m.rules|] == m.rules;
  }

  method ReadAppliedModelRoutes(reader: Reader, models: seq<Applied>) returns (result: map<StableId, Route>)
    ensures result == ReadAll(reader, models)
  {
    result := map[];
    var i := 0;
    while i < |models|
      invariant 0 <= i <= |models|
      invariant result == ReadAll(reader, models[..i])
    {
      assert models[..i + 1][..i] == models[..i];
      if models[i].model != "" { result := ReadModel(reader, models[i], result); }
      i := i + 1;
    }
    assert models[..|models|] == models;
  }

  // ----- identities -----

  // Profiles are kept for local routes only, under their own identity; the
  // source refuses an HTTPRoute with any other.
  ghost predicate ValidProfiles(namespace: string, m: Applied) {
    forall id :: id in m.profiles ==>
      var p := m.profiles[id];
      && Name(p.model) && Name(p.provider) && p.model == m.model && p.namespace == namespace && !CrossNamespace(p)
      && id == CandidateStableId(p.model, p.provider) && (p.stableId == "" || p.stableId == id)
      && p.cluster == PROVIDER_SERVICE_PREFIX + p.provider
  }

  lemma {:induction false} SplitIsReread(id: StableId, namespace: string)
    requires SplitTenant(id, namespace).Some?
    ensures var identity := SplitTenant(id, namespace).value;
      CandidateStableId(identity.model, identity.provider) == Reread(id)
  {
    if !IsScoped(id) {
      var index := LastIndex(id, PROVIDER_SEPARATOR);
      assert id[index..index + |PROVIDER_SEPARATOR|] == PROVIDER_SEPARATOR;
      assert id == id[..index] + PROVIDER_SEPARATOR + id[index + |PROVIDER_SEPARATOR|..];
    }
  }

  lemma {:induction false} RuleIdentity(reader: Reader, m: Applied, rule: Rule)
    requires ValidProfiles(reader.namespace, m) && ReadRule(reader, m, rule).Some?
    ensures RouteStableId(ReadRule(reader, m, rule).value) == Reread(rule.stableId)
  {
    SplitIsReread(rule.stableId, reader.namespace);
    if rule.stableId in m.profiles {
      var p := m.profiles[rule.stableId];
      LocalFormHasOneSlash(p.model, p.provider);
    }
  }

  // ----- what is read -----

  // The entry of an identity comes from one of its rules.
  ghost predicate Gives(reader: Reader, m: Applied, rules: seq<Rule>, id: StableId, route: Route) {
    exists rule :: rule in rules && rule.stableId == id && ReadRule(reader, m, rule) == Some(route)
  }

  lemma {:induction false} ReadRulesExact(reader: Reader, m: Applied, rules: seq<Rule>, known: map<StableId, Route>,
                                          id: StableId)
    ensures var result := ReadRules(reader, m, rules, known);
      && (id in result <==> id in known || exists route :: Gives(reader, m, rules, id, route))
      && (id in result ==> Gives(reader, m, rules, id, result[id]) || (id in known && result[id] == known[id]))
  {
    if rules != [] {
      var front, last := rules[..|rules| - 1], rules[|rules| - 1];
      assert rules == front + [last];
      ReadRulesExact(reader, m, front, known, id);
      var before := ReadRules(reader, m, front, known);
      forall route ensures Gives(reader, m, rules, id, route) <==>
        Gives(reader, m, front, id, route) || (last.stableId == id && ReadRule(reader, m, last) == Some(route))
      {
      }
      if last.stableId == id && ReadRule(reader, m, last).Some? {
        assert Gives(reader, m, rules, id, ReadRule(reader, m, last).value);
      }
    }
  }

  ghost predicate GivenBy(reader: Reader, models: seq<Applied>, id: StableId, route: Route) {
    exists m :: m in models && m.model != "" && Gives(reader, m, m.rules, id, route)
  }

  // What is read back is exactly what some rule gives.
  lemma {:induction false} ReadAllExact(reader: Reader, models: seq<Applied>, id: StableId)
    ensures var result := ReadAll(reader, models);
      && (id in result <==> exists route :: GivenBy(reader, models, id, route))
      && (id in result ==> GivenBy(reader, models, id, result[id]))
  {
    if models != [] {
      var front, last := models[..|models| - 1], models[|models| - 1];
      assert models == front + [last];
      ReadAllExact(reader, front, id);
      ReadRulesExact(reader, last, last.rules, ReadAll(reader, front), id);
      forall route ensures GivenBy(reader, models, id, route) <==>
        GivenBy(reader, front, id, route) || (last.model != "" && Gives(reader, last, last.rules, id, route))
      {
      }
    }
  }

  // ----- which rules count, and for what -----

  // The Service of a provider that its identity puts in a namespace.
  predicate OwnService(reader: Reader, providerNamespace: string, provider: string, service: string) {
    service == "provider-" + provider
      + if providerNamespace == reader.namespace then ""
        else "-" + reader.shortHash(providerNamespace + "/" + provider)
  }

  // Where the provider behind a rule is: where its identity says, if the
  // Service is its own; for a local identity in the tenant, if the Service is
  // the local one, and else wherever one is found.
  predicate FoundIn(reader: Reader, identity: Identity, service: string, namespace: string) {
    if identity.providerNamespace != "" then
      namespace == identity.providerNamespace && OwnService(reader, namespace, identity.provider, service)
    else if service == "provider-" + identity.provider then namespace == reader.namespace
    else reader.owner(identity.provider, service) == Some(namespace)
  }

  // A rule of the model for an identity of the tenant, to an endpoint, through
  // a provider's Service and no sink's.
  predicate ForProvider(reader: Reader, m: Applied, rule: Rule) {
    && rule.stableId != "" && rule.endpoint != "" && rule.service.Some?
    && "provider-" <= rule.service.value && !("provider-selection-required-" <= rule.service.value)
    && SplitTenant(rule.stableId, reader.namespace).Some?
    && var identity := SplitTenant(rule.stableId, reader.namespace).value;
    && identity.model == m.model && identity.provider != ""
  }

  ghost predicate Counts(reader: Reader, m: Applied, rule: Rule) {
    && ForProvider(reader, m, rule)
    && exists namespace ::
         FoundIn(reader, SplitTenant(rule.stableId, reader.namespace).value, rule.service.value, namespace)
  }

  // What such a rule is read back to: the profile kept for its identity, or
  // else only what the rule itself says; its Service and endpoint either way.
  predicate ReadsTo(reader: Reader, m: Applied, rule: Rule, route: Route)
    requires ForProvider(reader, m, rule)
  {
    var identity := SplitTenant(rule.stableId, reader.namespace).value;
    && route.cluster == rule.service.value && route.endpoint == rule.endpoint
    && if rule.stableId in m.profiles then
         var p := m.profiles[rule.stableId];
         route.(cluster := p.cluster, endpoint := p.endpoint) == p
       else
         && route.model == identity.model && route.clientName == m.clientName && route.namespace == reader.namespace
         && route.provider == identity.provider
         && FoundIn(reader, identity, rule.service.value, route.providerNamespace)
         && route.stableId == "" && route.providerType == "" && route.authType == "" && route.secretName == ""
         && route.secretKey == "" && route.secretNamespace == "" && route.apiFormat == "" && route.path == ""
         && route.targetModel == "" && route.tlsCACertificates == "" && route.tlsCredentialName == ""
         && route.port == 0 && route.weight == 0 && !route.apiTranslationEnabled
  }

  lemma {:induction false} LocatedIffFound(reader: Reader, identity: Identity, service: string, namespace: string)
    ensures FoundIn(reader, identity, service, namespace) <==>
      ProviderNamespace(reader, identity, service) == Some(namespace)
  {
    var stem := PROVIDER_SERVICE_PREFIX + identity.provider;
    assert stem + "" == stem;
    assert stem + "-" + reader.shortHash(namespace + "/" + identity.provider)
        == stem + ("-" + reader.shortHash(namespace + "/" + identity.provider));
  }

  lemma {:induction false} CountsIffRead(reader: Reader, m: Applied, rule: Rule)
    ensures Counts(reader, m, rule) <==> ReadRule(reader, m, rule).Some?
    ensures Counts(reader, m, rule) ==> ReadsTo(reader, m, rule, ReadRule(reader, m, rule).value)
  {
    if ForProvider(reader, m, rule) {
      var identity := SplitTenant(rule.stableId, reader.namespace).value;
      forall namespace ensures FoundIn(reader, identity, rule.service.value, namespace) <==>
        ProviderNamespace(reader, identity, rule.service.value) == Some(namespace)
      {
        LocatedIffFound(reader, identity, rule.service.value, namespace);
      }
      var found := ProviderNamespace(reader, identity, rule.service.value);
      if found.Some? { assert FoundIn(reader, identity, rule.service.value, found.value); }
    }
  }

  ghost predicate Speaks(reader: Reader, m: Applied, rule: Rule, id: StableId) {
    rule.stableId == id && Counts(reader, m, rule)
  }

  // The last rule of an identity that counts.
  ghost predicate LastRule(reader: Reader, m: Applied, rules: seq<Rule>, id: StableId, k: int) {
    && 0 <= k < |rules| && Speaks(reader, m, rules[k], id)
    && forall l | k < l < |rules| :: !Speaks(reader, m, rules[l], id)
  }

  ghost predicate HasRule(reader: Reader, m: Applied, rules: seq<Rule>, id: StableId) {
    exists k :: 0 <= k < |rules| && Speaks(reader, m, rules[k], id)
  }

  // The last HTTPRoute with a rule for the identity, and its last one.
  ghost predicate Decides(reader: Reader, models: seq<Applied>, id: StableId, n: int, k: int) {
    && 0 <= n < |models| && models[n].model != "" && LastRule(reader, models[n], models[n].rules, id, k)
    && forall i | n < i < |models| && models[i].model != "" :: !HasRule(reader, models[i], models[i].rules, id)
  }

  ghost predicate ReadFrom(reader: Reader, m: Applied, rules: seq<Rule>, id: StableId, route: Route, k: int) {
    LastRule(reader, m, rules, id, k) && ReadsTo(reader, m, rules[k], route)
  }

  lemma {:induction false} OneMoreRule(reader: Reader, m: Applied, rules: seq<Rule>, id: StableId, rule: Rule)
    ensures HasRule(reader, m, rules + [rule], id) <==> HasRule(reader, m, rules, id) || Speaks(reader, m, rule, id)
    ensures Speaks(reader, m, rule, id) ==> LastRule(reader, m, rules + [rule], id, |rules|)
    ensures forall k :: !Speaks(reader, m, rule, id) && LastRule(reader, m, rules, id, k) ==>
      LastRule(reader, m, rules + [rule], id, k)
  {
    var more := rules + [rule];
    assert more[|rules|] == rule && forall k :: 0 <= k < |rules| ==> more[k] == rules[k];
    if k :| 0 <= k < |rules| && Speaks(reader, m, rules[k], id) { assert Speaks(reader, m, more[k], id); }
  }

  lemma {:induction false} RulesDecide(reader: Reader, m: Applied, rules: seq<Rule>, known: map<StableId, Route>,
                                       id: StableId)
    ensures var result := ReadRules(reader, m, rules, known);
      if HasRule(reader, m, rules, id) then id in result && exists k :: ReadFrom(reader, m, rules, id, result[id], k)
      else (id in result <==> id in known) && (id in result ==> result[id] == known[id])
  {
    if rules != [] {
      var front, last := rules[..|rules| - 1], rules[|rules| - 1];
      assert rules == front + [last];
      RulesDecide(reader, m, front, known, id);
      CountsIffRead(reader, m, last);
      OneMoreRule(reader, m, front, id, last);
      var result := ReadRules(reader, m, rules, known);
      if Speaks(reader, m, last, id) {
        assert ReadFrom(reader, m, rules, id, result[id], |front|);
      } else if HasRule(reader, m, front, id) {
        var k :| ReadFrom(reader, m, front, id, result[id], k);
        assert ReadFrom(reader, m, rules, id, result[id], k);
      }
    }
  }

  // An identity is read back exactly when some rule of it counts, and to what
  // the last such rule of the last such HTTPRoute says.
  lemma {:induction false} LastRuleDecides(reader: Reader, models: seq<Applied>, id: StableId)
    ensures var result := ReadAll(reader, models);
      && (id in result <==> exists m :: m in models && m.model != "" && HasRule(reader, m, m.rules, id))
      && (id in result ==> exists n, k ::
            Decides(reader, models, id, n, k) && ReadsTo(reader, models[n], models[n].rules[k], result[id]))
  {
    if models != [] {
      var front, n := models[..|models| - 1], |models| - 1;
      var m := models[n];
      assert models == front + [m];
      LastRuleDecides(reader, front, id);
      RulesDecide(reader, m, m.rules, ReadAll(reader, front), id);
      if m.model != "" && HasRule(reader, m, m.rules, id) {
        var k :| ReadFrom(reader, m, m.rules, id, ReadAll(reader, models)[id], k);
        assert Decides(reader, models, id, n, k);
      } else if id in ReadAll(reader, front) {
        var i, k :| Decides(reader, front, id, i, k)
          && ReadsTo(reader, front[i], front[i].rules[k], ReadAll(reader, front)[id]);
        assert Decides(reader, models, id, i, k);
      }
    }
  }

  // Every applied rule comes back under its identity as it is read back: the
  // same one for a local identity, the local form of a scoped one.
  lemma {:induction false} AppliedIdentities(reader: Reader, models: seq<Applied>)
    requires forall m :: m in models ==> ValidProfiles(reader.namespace, m)
    ensures forall id :: id in ReadAll(reader, models) ==> RouteStableId(ReadAll(reader, models)[id]) == Reread(id)
  {
    var result := ReadAll(reader, models);
    forall id | id in result ensures RouteStableId(result[id]) == Reread(id) {
      ReadAllExact(reader, models, id);
      var m :| m in models && m.model != "" && Gives(reader, m, m.rules, id, result[id]);
      var rule :| rule in m.rules && rule.stableId == id && ReadRule(reader, m, rule) == Some(result[id]);
      RuleIdentity(reader, m, rule);
    }
  }

  // For printed identities that is exact: the identity survives if and only if
  // model and provider share the tenant's namespace.
  lemma {:induction false} SurvivesIffLocal(sha: string -> string, s: Source)
    requires HexDigest(sha) && Printable(s) && !Hashed(s)
    ensures Reread(Print(sha, s)) == Print(sha, s) <==> s.Local?
    ensures Reread(Print(sha, s)) == Print(sha, LocalForm(s))
  {
    PrintedForm(sha, s);
    LocalFormHasOneSlash(s.model, s.provider);
    if s.Scoped? { SplitUndoesJoin([s.modelNamespace, s.model, s.providerNamespace, s.provider]); }
  }

  // ----- rendered rules -----

  // A route of the tenant under its own identity, or under the local form of
  // it.
  ghost predicate Identified(sha: string -> string, namespace: string, r: Route) {
    && r.namespace == namespace && r.endpoint != "" && Printable(TargetOf(r))
    && RouteStableId(r) == Print(sha, IdOf(r))
    && (IdOf(r) != TargetOf(r) ==> !Hashed(TargetOf(r)))
  }

  function RuleFor(shortHash: string -> string, r: Route): Rule {
    Rule(RouteStableId(r), Some(ServiceName(shortHash, r)), r.endpoint)
  }

  predicate SinkService(service: string) {
    RetainedRules.SELECTION_SINK_PREFIX <= service
  }

  // The rule of a route is read back: its Service is no sink's, its identity
  // is not hashed, and a provider that the identity does not locate is found.
  predicate Reads(reader: Reader, r: Route) {
    && !SinkService(ServiceName(reader.shortHash, r))
    && if IdOf(r) == TargetOf(r) then !Hashed(TargetOf(r))
       else reader.owner(r.provider, ServiceName(reader.shortHash, r)).Some?
  }

  lemma {:induction false} IdentitySplits(sha: string -> string, namespace: string, r: Route)
    requires HexDigest(sha) && Identified(sha, namespace, r)
    ensures RouteStableId(r) != ""
    ensures Hashed(IdOf(r)) ==> SplitTenant(RouteStableId(r), namespace) == None
    ensures !Hashed(IdOf(r)) ==>
      SplitTenant(RouteStableId(r), namespace) ==
      Some(Identity(r.model, if IdOf(r).Local? then "" else r.providerNamespace, r.provider))
  {
    var id := IdOf(r);
    match id
    case Local(model, provider) =>
      LocalFormSplits(model, provider);
    case Scoped(mns, model, pns, provider) =>
      PrintedForm(sha, id);
      if Hashed(id) {
        HashFormIsUnowned(sha, mns, model, pns, provider, namespace);
      } else {
        ScopedFormSplits(sha, mns, model, pns, provider, namespace);
      }
  }

  // A rendered rule is read back exactly then, to the same model, provider,
  // Service and endpoint.
  lemma {:induction false} RenderedIsReadBack(sha: string -> string, reader: Reader, m: Applied, r: Route)
    requires HexDigest(sha) && ValidProfiles(reader.namespace, m)
    requires Identified(sha, reader.namespace, r) && r.model == m.model
    ensures var read := ReadRule(reader, m, RuleFor(reader.shortHash, r));
      && (read.Some? <==> Reads(reader, r))
      && (read.Some? ==>
            && read.value.model == r.model && read.value.provider == r.provider && read.value.namespace == r.namespace
            && read.value.endpoint == r.endpoint && read.value.cluster == ServiceName(reader.shortHash, r))
  {
    IdentitySplits(sha, reader.namespace, r);
    var service := ServiceName(reader.shortHash, r);
    assert PROVIDER_SERVICE_PREFIX <= service;
    if RouteStableId(r) in m.profiles {
      ProfileNames(sha, reader.namespace, m, r);
    }
  }

  // A profile is found for local identities only, and names the same provider.
  lemma {:induction false} ProfileNames(sha: string -> string, namespace: string, m: Applied, r: Route)
    requires HexDigest(sha) && ValidProfiles(namespace, m) && Identified(sha, namespace, r)
    requires RouteStableId(r) in m.profiles
    ensures var p := m.profiles[RouteStableId(r)];
      p.model == r.model && p.provider == r.provider && IdOf(r).Local? && TargetOf(p) == IdOf(r)
  {
    var p := m.profiles[RouteStableId(r)];
    LocalFormSplits(p.model, p.provider);
    PrintedForm(sha, IdOf(r));
    if IdOf(r).Local? { LocalFormSplits(r.model, r.provider); }
  }

  // The provider the entry of a rule sends to: that of the local profile of its
  // identity, when there is one, and its own otherwise.
  lemma {:induction false} ReadTarget(sha: string -> string, reader: Reader, m: Applied, r: Route)
    requires HexDigest(sha) && ValidProfiles(reader.namespace, m)
    requires Identified(sha, reader.namespace, r) && r.model == m.model && Reads(reader, r)
    requires IdOf(r) != TargetOf(r) ==>
      reader.owner(r.provider, ServiceName(reader.shortHash, r)) == Some(r.providerNamespace)
    ensures ReadRule(reader, m, RuleFor(reader.shortHash, r)).Some?
    ensures TargetOf(ReadRule(reader, m, RuleFor(reader.shortHash, r)).value) ==
      if RouteStableId(r) in m.profiles then IdOf(r) else TargetOf(r)
  {
    RenderedIsReadBack(sha, reader, m, r);
    IdentitySplits(sha, reader.namespace, r);
    if RouteStableId(r) in m.profiles {
      ProfileNames(sha, reader.namespace, m, r);
    } else {
      LocalServiceTells(reader.shortHash, r);
    }
  }

  // Only a local provider has a Service without a digest.
  lemma {:induction false} LocalServiceTells(shortHash: string -> string, r: Route)
    ensures ServiceName(shortHash, r) == PROVIDER_SERVICE_PREFIX + r.provider <==> !CrossNamespace(r)
  {
    if CrossNamespace(r) {
      assert |ServiceName(shortHash, r)| > |PROVIDER_SERVICE_PREFIX + r.provider|;
    }
  }

  // When the rule of a same-named provider of another namespace is the one that
  // counts, its Service and endpoint end up in the profile of the local
  // provider, which is then no valid profile any more.
  lemma {:induction false} ClashMixesTransports(sha: string -> string, reader: Reader, m: Applied, r: Route)
    requires HexDigest(sha) && ValidProfiles(reader.namespace, m)
    requires Identified(sha, reader.namespace, r) && r.model == m.model && Reads(reader, r)
    requires IdOf(r) != TargetOf(r) && RouteStableId(r) in m.profiles
    ensures ReadRule(reader, m, RuleFor(reader.shortHash, r)).Some?
    ensures var read := ReadRule(reader, m, RuleFor(reader.shortHash, r)).value;
      && TargetOf(read) == IdOf(r) && read.endpoint == r.endpoint
      && read.cluster != ServiceName(reader.shortHash, read)
  {
    RenderedIsReadBack(sha, reader, m, r);
    ProfileNames(sha, reader.namespace, m, r);
    LocalServiceTells(reader.shortHash, r);
  }
}
