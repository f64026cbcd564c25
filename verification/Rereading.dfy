// From rendered HTTPRoutes back to routes: which rules of a whole tenant are
// read back, and as which rules of the protocol.
module Rereading {
  import AppliedRoutes
  import opened HttpRoutes
  import opened Overlays
  import RetainedRules
  import opened Routes
  import opened StableIds
  import StagedRules
  import Staging
  import StagingStep
  import WithdrawalProtocol
  import opened Wrappers

  type Applied = AppliedRoutes.Applied
  type Reader = AppliedRoutes.Reader

  // ----- rendered HTTPRoutes -----

  // The identity that a rule's matches name.
  function Selected(matches: seq<Match>): StableId {
    if matches == [] then ""
    else if matches[0].selected.Some? then matches[0].selected.value
    else Selected(matches[1..])
  }

  function Recorded(rule: Rule): AppliedRoutes.Rule {
    AppliedRoutes.Rule(Selected(rule.matches), Some(rule.service), rule.endpoint)
  }

  function RecordedAll(rules: seq<Rule>): seq<AppliedRoutes.Rule> {
    if rules == [] then [] else RecordedAll(rules[..|rules| - 1]) + [Recorded(rules[|rules| - 1])]
  }

  // The annotation keeps the routes to local providers.
  function ProfilesOf(routes: seq<Route>): map<StableId, Route> {
    if routes == [] then map[]
    else
      var last := routes[|routes| - 1];
      var before := ProfilesOf(routes[..|routes| - 1]);
      if CrossNamespace(last) then before else before[RouteStableId(last) := last]
  }

  // The HTTPRoute of one model.
  function RenderedModel(names: Names, namespace: string, own: seq<Route>): Applied
    requires own != []
  {
    AppliedRoutes.Applied(own[0].model, own[0].clientName, RecordedAll(RulesOf(names, namespace, own)), ProfilesOf(own))
  }

  ghost predicate Covers(routes: seq<Route>, models: seq<string>) {
    && (forall i | 0 <= i < |models| :: StagedRules.OfModel(routes, models[i]) != [])
    && (forall r | r in routes :: r.model in models)
  }

  // The HTTPRoutes of all models, in any order.
  function RenderedAll(names: Names, namespace: string, routes: seq<Route>, models: seq<string>): (all: seq<Applied>)
    requires forall i | 0 <= i < |models| :: StagedRules.OfModel(routes, models[i]) != []
    ensures |all| == |models|
    ensures forall i | 0 <= i < |models| ::
      all[i] == RenderedModel(names, namespace, StagedRules.OfModel(routes, models[i]))
  {
    seq(|models|, i requires 0 <= i < |models| =>
      RenderedModel(names, namespace, StagedRules.OfModel(routes, models[i])))
  }

  lemma {:induction false} RecordedConcat(a: seq<Rule>, b: seq<Rule>)
    ensures RecordedAll(a + b) == RecordedAll(a) + RecordedAll(b)
  {
    if b == [] {
      assert a + b == a;
    } else {
      var front := b[..|b| - 1];
      assert (a + b)[..|a + b| - 1] == a + front;
      RecordedConcat(a, front);
    }
  }

  lemma {:induction false} RecordedPair(names: Names, path: string, client: string, r: Route)
    ensures RecordedAll([CanonicalRule(names, path, r), BodyRule(names, client, r)])
         == [AppliedRoutes.RuleFor(names.shortHash, r), AppliedRoutes.RuleFor(names.shortHash, r)]
  {
    var canonical, body := CanonicalRule(names, path, r), BodyRule(names, client, r);
    assert [canonical, body][..1] == [canonical] && [canonical][..0] == [];
    assert RecordedAll([canonical]) == [Recorded(canonical)];
    assert Recorded(canonical) == AppliedRoutes.RuleFor(names.shortHash, r);
    assert Recorded(body) == AppliedRoutes.RuleFor(names.shortHash, r);
  }

  lemma {:induction false} RecordedProviders(names: Names, path: string, client: string, firsts: seq<Route>,
                                             rule: AppliedRoutes.Rule)
    ensures rule in RecordedAll(ProviderRules(names, path, client, firsts))
       <==> exists f :: f in firsts && rule == AppliedRoutes.RuleFor(names.shortHash, f)
  {
    if firsts != [] {
      var front, last := firsts[..|firsts| - 1], firsts[|firsts| - 1];
      assert firsts == front + [last];
      RecordedProviders(names, path, client, front, rule);
      RecordedConcat(ProviderRules(names, path, client, front),
                     [CanonicalRule(names, path, last), BodyRule(names, client, last)]);
      RecordedPair(names, path, client, last);
    }
  }

  lemma {:induction false} RecordedSinks(names: Names, path: string, first: Route)
    ensures var sink := AppliedRoutes.Rule("", Some(names.sink(first.model)), "");
      RecordedAll(SinkRules(names, path, first)) == [sink, sink]
  {
    var sinks := SinkRules(names, path, first);
    assert sinks[..1] == [sinks[0]] && sinks[..1][..0] == [];
    assert RecordedAll(sinks[..1]) == [Recorded(sinks[0])];
    assert Selected(sinks[0].matches) == "" && Selected(sinks[1].matches) == "";
  }

  // The rules that name an identity are those of the first routes.
  lemma {:induction false} RecordedRules(names: Names, namespace: string, own: seq<Route>, rule: AppliedRoutes.Rule)
    requires own != [] && rule.stableId != ""
    ensures rule in RecordedAll(RulesOf(names, namespace, own))
       <==> exists f :: f in Firsts(names, own) && rule == AppliedRoutes.RuleFor(names.shortHash, f)
  {
    var path, client := CanonicalPath(namespace, own), own[0].clientName;
    RecordedSinks(names, path, own[0]);
    RecordedProviders(names, path, client, Firsts(names, own), rule);
    RecordedConcat(ProviderRules(names, path, client, Firsts(names, own)), SinkRules(names, path, own[0]));
  }

  // ----- reading them back -----

  // A tenant's routes, each under its own identity or the local form of it, and
  // local ones through their own Service. A provider that an identity does not
  // locate is found where it is, or not at all.
  ghost predicate Tidy(sha: string -> string, reader: Reader, routes: seq<Route>) {
    && HexDigest(sha)
    && (forall r | r in routes :: AppliedRoutes.Identified(sha, reader.namespace, r))
    && (forall r | r in routes && !CrossNamespace(r) :: r.cluster == PROVIDER_SERVICE_PREFIX + r.provider)
    && (forall r | r in routes && IdOf(r) != TargetOf(r) && AppliedRoutes.Reads(reader, r) ::
          reader.owner(r.provider, ServiceName(reader.shortHash, r)) == Some(r.providerNamespace))
  }

  lemma {:induction false} ProfilesAreLocal(routes: seq<Route>, id: StableId)
    ensures id in ProfilesOf(routes) <==> exists r :: r in routes && !CrossNamespace(r) && RouteStableId(r) == id
    ensures id in ProfilesOf(routes) ==>
      ProfilesOf(routes)[id] in routes && !CrossNamespace(ProfilesOf(routes)[id])
      && RouteStableId(ProfilesOf(routes)[id]) == id
  {
    if routes != [] {
      ProfilesAreLocal(routes[..|routes| - 1], id);
      assert routes == routes[..|routes| - 1] + [routes[|routes| - 1]];
    }
  }

  lemma {:induction false} ProfilesAreValid(sha: string -> string, reader: Reader, names: Names, routes: seq<Route>,
                                            own: seq<Route>)
    requires Tidy(sha, reader, routes) && own != [] && forall r | r in own :: r in routes && r.model == own[0].model
    ensures AppliedRoutes.ValidProfiles(reader.namespace, RenderedModel(names, reader.namespace, own))
  {
    forall id | id in ProfilesOf(own)
      ensures var p := ProfilesOf(own)[id];
        && p in own && !CrossNamespace(p) && id == RouteStableId(p)
        && id == CandidateStableId(p.model, p.provider)
    {
      ProfilesAreLocal(own, id);
      assert AppliedRoutes.Identified(sha, reader.namespace, ProfilesOf(own)[id]);
    }
  }

  // A first route of its Service that gives the entry of an identity.
  ghost predicate FirstGives(reader: Reader, names: Names, own: seq<Route>, id: StableId, route: Route, f: Route)
    requires own != []
  {
    && f in Firsts(names, own) && RouteStableId(f) == id
    && AppliedRoutes.ReadRule(reader, RenderedModel(names, reader.namespace, own),
                              AppliedRoutes.RuleFor(reader.shortHash, f)) == Some(route)
  }

  lemma {:induction false} ModelGives(reader: Reader, names: Names, own: seq<Route>, id: StableId, route: Route)
    requires names.shortHash == reader.shortHash && own != []
    requires forall r | r in own :: RouteStableId(r) != ""
    ensures var m := RenderedModel(names, reader.namespace, own);
      AppliedRoutes.Gives(reader, m, m.rules, id, route) <==> exists f :: FirstGives(reader, names, own, id, route, f)
  {
    var m := RenderedModel(names, reader.namespace, own);
    StagedRules.FirstsAreApart(names, own);
    if AppliedRoutes.Gives(reader, m, m.rules, id, route) {
      var rule :| rule in m.rules && rule.stableId == id && AppliedRoutes.ReadRule(reader, m, rule) == Some(route);
      RecordedRules(names, reader.namespace, own, rule);
      var f :| f in Firsts(names, own) && rule == AppliedRoutes.RuleFor(names.shortHash, f);
      assert FirstGives(reader, names, own, id, route, f);
    }
    if f :| FirstGives(reader, names, own, id, route, f) {
      var rule := AppliedRoutes.RuleFor(reader.shortHash, f);
      RecordedRules(names, reader.namespace, own, rule);
      assert rule in m.rules;
    }
  }

  ghost predicate AllNamed(routes: seq<Route>) {
    forall r | r in routes :: RouteStableId(r) != "" && r.model != ""
  }

  lemma {:induction false} TidyIsNamed(sha: string -> string, reader: Reader, routes: seq<Route>)
    requires Tidy(sha, reader, routes)
    ensures AllNamed(routes)
  {
    forall r | r in routes ensures RouteStableId(r) != "" && r.model != "" {
      AppliedRoutes.IdentitySplits(sha, reader.namespace, r);
    }
  }

  // Routes through one Service are read back alike.
  lemma {:induction false} SameServiceReadsAlike(names: Names, reader: Reader, routes: seq<Route>, a: Route, b: Route)
    requires StagedRules.NamesTell(names, routes) && StagedRules.OneIdPerTarget(routes)
    requires names.shortHash == reader.shortHash
    requires a in routes && b in routes && a.namespace == b.namespace && a.model == b.model
    requires Service(names, a) == Service(names, b)
    ensures RouteStableId(a) == RouteStableId(b) && BoundOf(a) == BoundOf(b)
    ensures AppliedRoutes.Reads(reader, a) <==> AppliedRoutes.Reads(reader, b)
  {
    StagedRules.SameServiceSameTarget(names, routes, a, b);
  }

  // What the tenant's HTTPRoutes give for an identity.
  lemma {:induction false} TenantGives(reader: Reader, names: Names, routes: seq<Route>, models: seq<string>,
                                       id: StableId, route: Route) returns (f: Route)
    requires AllNamed(routes) && names.shortHash == reader.shortHash && Covers(routes, models)
    requires AppliedRoutes.GivenBy(reader, RenderedAll(names, reader.namespace, routes, models), id, route)
    ensures f in routes && FirstGives(reader, names, StagedRules.OfModel(routes, f.model), id, route, f)
  {
    var i := WhichModel(reader, RenderedAll(names, reader.namespace, routes, models), id, route);
    f := ModelsFirst(reader, names, routes, models[i], id, route);
  }

  lemma {:induction false} WhichModel(reader: Reader, all: seq<Applied>, id: StableId, route: Route) returns (i: nat)
    requires AppliedRoutes.GivenBy(reader, all, id, route)
    ensures i < |all| && AppliedRoutes.Gives(reader, all[i], all[i].rules, id, route)
  {
    var m :| m in all && m.model != "" && AppliedRoutes.Gives(reader, m, m.rules, id, route);
    i :| 0 <= i < |all| && all[i] == m;
  }

  lemma {:induction false} ModelsFirst(reader: Reader, names: Names, routes: seq<Route>, model: string, id: StableId,
                                       route: Route) returns (f: Route)
    requires AllNamed(routes) && names.shortHash == reader.shortHash && StagedRules.OfModel(routes, model) != []
    requires var m := RenderedModel(names, reader.namespace, StagedRules.OfModel(routes, model));
      AppliedRoutes.Gives(reader, m, m.rules, id, route)
    ensures f in routes && f.model == model
    ensures FirstGives(reader, names, StagedRules.OfModel(routes, model), id, route, f)
  {
    var own := StagedRules.OfModel(routes, model);
    ModelGives(reader, names, own, id, route);
    f :| FirstGives(reader, names, own, id, route, f);
    StagedRules.FirstsAreApart(names, own);
  }

  lemma {:induction false} FirstOfService(names: Names, reader: Reader, routes: seq<Route>, r: Route)
    returns (f: Route)
    requires StagedRules.NamesTell(names, routes) && StagedRules.OneIdPerTarget(routes)
    requires names.shortHash == reader.shortHash && r in routes
    requires forall x | x in routes :: x.namespace == reader.namespace
    ensures f in routes && f.model == r.model && f in Firsts(names, StagedRules.OfModel(routes, r.model))
    ensures RouteStableId(f) == RouteStableId(r) && BoundOf(f) == BoundOf(r)
    ensures AppliedRoutes.Reads(reader, f) <==> AppliedRoutes.Reads(reader, r)
  {
    var own := StagedRules.OfModel(routes, r.model);
    FirstsCover(names, own, r);
    f :| f in Firsts(names, own) && Service(names, f) == Service(names, r);
    SameServiceReadsAlike(names, reader, routes, f, r);
  }

  lemma {:induction false} RouteGives(sha: string -> string, reader: Reader, names: Names, routes: seq<Route>,
                                      models: seq<string>, r: Route) returns (route: Route)
    requires Tidy(sha, reader, routes) && names.shortHash == reader.shortHash && Covers(routes, models)
    requires StagedRules.NamesTell(names, routes) && StagedRules.OneIdPerTarget(routes)
    requires r in routes && AppliedRoutes.Reads(reader, r)
    ensures AppliedRoutes.GivenBy(reader, RenderedAll(names, reader.namespace, routes, models), RouteStableId(r), route)
  {
    var own := StagedRules.OfModel(routes, r.model);
    var f := FirstOfService(names, reader, routes, r);
    TidyIsNamed(sha, reader, routes);
    ProfilesAreValid(sha, reader, names, routes, own);
    var m := RenderedModel(names, reader.namespace, own);
    AppliedRoutes.RenderedIsReadBack(sha, reader, m, f);
    route := AppliedRoutes.ReadRule(reader, m, AppliedRoutes.RuleFor(reader.shortHash, f)).value;
    assert FirstGives(reader, names, own, RouteStableId(r), route, f);
    ModelGives(reader, names, own, RouteStableId(r), route);
    ModelIsThere(reader, names, routes, models, r);
  }

  lemma {:induction false} ModelIsThere(reader: Reader, names: Names, routes: seq<Route>, models: seq<string>, r: Route)
    requires Covers(routes, models) && r in routes
    ensures StagedRules.OfModel(routes, r.model) != []
    ensures RenderedModel(names, reader.namespace, StagedRules.OfModel(routes, r.model))
         in RenderedAll(names, reader.namespace, routes, models)
  {
    var i :| 0 <= i < |models| && models[i] == r.model;
    assert RenderedAll(names, reader.namespace, routes, models)[i]
        == RenderedModel(names, reader.namespace, StagedRules.OfModel(routes, models[i]));
  }

  // The route an entry comes from, and where its rule is read to send.
  lemma {:induction false} EntryOf(sha: string -> string, reader: Reader, names: Names, routes: seq<Route>,
                                   models: seq<string>, id: StableId) returns (f: Route)
    requires Tidy(sha, reader, routes) && names.shortHash == reader.shortHash && Covers(routes, models)
    requires id in AppliedRoutes.ReadAll(reader, RenderedAll(names, reader.namespace, routes, models))
    ensures f in routes && RouteStableId(f) == id && AppliedRoutes.Reads(reader, f)
    ensures var route := AppliedRoutes.ReadAll(reader, RenderedAll(names, reader.namespace, routes, models))[id];
      && route.model == f.model && route.provider == f.provider && route.namespace == f.namespace
      && TargetOf(route) ==
           if id in ProfilesOf(StagedRules.OfModel(routes, f.model)) then IdOf(f) else TargetOf(f)
  {
    var all := RenderedAll(names, reader.namespace, routes, models);
    var result := AppliedRoutes.ReadAll(reader, all);
    AppliedRoutes.ReadAllExact(reader, all, id);
    TidyIsNamed(sha, reader, routes);
    f := TenantGives(reader, names, routes, models, id, result[id]);
    FirstIsRead(sha, reader, names, routes, id, result[id], f);
  }

  lemma {:induction false} FirstIsRead(sha: string -> string, reader: Reader, names: Names, routes: seq<Route>,
                                       id: StableId, route: Route, f: Route)
    requires Tidy(sha, reader, routes) && names.shortHash == reader.shortHash && f in routes
    requires FirstGives(reader, names, StagedRules.OfModel(routes, f.model), id, route, f)
    ensures AppliedRoutes.Reads(reader, f)
    ensures route.model == f.model && route.provider == f.provider && route.namespace == f.namespace
    ensures TargetOf(route) ==
      if id in ProfilesOf(StagedRules.OfModel(routes, f.model)) then IdOf(f) else TargetOf(f)
  {
    var own := StagedRules.OfModel(routes, f.model);
    var m := RenderedModel(names, reader.namespace, own);
    ProfilesAreValid(sha, reader, names, routes, own);
    AppliedRoutes.RenderedIsReadBack(sha, reader, m, f);
    AppliedRoutes.ReadTarget(sha, reader, m, f);
  }

  // The identities that are read back are those of the routes whose rules are
  // recognised.
  lemma {:induction false} ReadsExactly(sha: string -> string, reader: Reader, names: Names, routes: seq<Route>,
                                        models: seq<string>)
    requires Tidy(sha, reader, routes) && names.shortHash == reader.shortHash && Covers(routes, models)
    requires StagedRules.NamesTell(names, routes) && StagedRules.OneIdPerTarget(routes)
    ensures AppliedRoutes.ReadAll(reader, RenderedAll(names, reader.namespace, routes, models)).Keys
         == set r | r in routes && AppliedRoutes.Reads(reader, r) :: RouteStableId(r)
  {
    var all := RenderedAll(names, reader.namespace, routes, models);
    var result := AppliedRoutes.ReadAll(reader, all);
    forall id | id in result
      ensures id in set r | r in routes && AppliedRoutes.Reads(reader, r) :: RouteStableId(r)
    {
      var f := EntryOf(sha, reader, names, routes, models, id);
    }
    forall r | r in routes && AppliedRoutes.Reads(reader, r) ensures RouteStableId(r) in result {
      AppliedRoutes.ReadAllExact(reader, all, RouteStableId(r));
      var route := RouteGives(sha, reader, names, routes, models, r);
    }
  }

  // Everything is read back if and only if no rule is unrecognised: with one
  // provider per identity, none hashed and every provider still there, if and
  // only if no Service looks like a sink.
  lemma {:induction false} AllReadBackIffNoSink(sha: string -> string, reader: Reader, names: Names,
                                                routes: seq<Route>, models: seq<string>)
    requires Tidy(sha, reader, routes) && names.shortHash == reader.shortHash && Covers(routes, models)
    requires StagedRules.NamesTell(names, routes) && StagedRules.OneIdPerTarget(routes)
    ensures var keys := AppliedRoutes.ReadAll(reader, RenderedAll(names, reader.namespace, routes, models)).Keys;
      && (keys == RouteIds(routes) <==>
            forall r | r in routes :: ReadUnder(reader, routes, RouteStableId(r)))
      && (StagedRules.OneTargetPerId(routes) && Locatable(reader, routes) ==>
            (keys == RouteIds(routes) <==>
               forall r | r in routes :: !AppliedRoutes.SinkService(Service(names, r))))
  {
    ReadsExactly(sha, reader, names, routes, models);
    ReadAllAlike(reader, routes);
    if StagedRules.OneTargetPerId(routes) && Locatable(reader, routes) {
      LocatableReads(reader, names, routes);
    }
  }

  predicate ReadUnder(reader: Reader, routes: seq<Route>, id: StableId) {
    exists x :: x in routes && RouteStableId(x) == id && AppliedRoutes.Reads(reader, x)
  }

  lemma {:induction false} ReadAllAlike(reader: Reader, routes: seq<Route>)
    ensures (set r | r in routes && AppliedRoutes.Reads(reader, r) :: RouteStableId(r)) == RouteIds(routes)
       <==> forall r | r in routes :: ReadUnder(reader, routes, RouteStableId(r))
  {
    var read := set r | r in routes && AppliedRoutes.Reads(reader, r) :: RouteStableId(r);
    forall id ensures id in read <==> ReadUnder(reader, routes, id) {
    }
    assert forall r | r in routes :: RouteStableId(r) in RouteIds(routes);
  }

  lemma {:induction false} LocatableReads(reader: Reader, names: Names, routes: seq<Route>)
    requires StagedRules.OneTargetPerId(routes) && Locatable(reader, routes) && names.shortHash == reader.shortHash
    ensures forall r | r in routes ::
      ReadUnder(reader, routes, RouteStableId(r)) <==> !AppliedRoutes.SinkService(Service(names, r))
  {
    forall r | r in routes
      ensures ReadUnder(reader, routes, RouteStableId(r)) <==> !AppliedRoutes.SinkService(Service(names, r))
    {
      forall x | x in routes && RouteStableId(x) == RouteStableId(r)
        ensures AppliedRoutes.Reads(reader, x) <==> !AppliedRoutes.SinkService(Service(names, r))
      {
        SameTargetSameService(names, x, r);
      }
    }
  }

  lemma {:induction false} SameTargetSameService(names: Names, a: Route, b: Route)
    requires TargetOf(a) == TargetOf(b)
    ensures Service(names, a) == Service(names, b)
  {
  }

  // No identity is hashed, and every provider that an identity does not locate
  // is there.
  predicate Locatable(reader: Reader, routes: seq<Route>) {
    forall r | r in routes ::
      !Hashed(TargetOf(r))
      && (IdOf(r) != TargetOf(r) ==> reader.owner(r.provider, ServiceName(reader.shortHash, r)).Some?)
  }

  // ----- as the protocol sees it -----

  // Shortened digests are hexadecimal.
  ghost predicate Hexadecimal(shortHash: string -> string) {
    forall x :: |shortHash(x)| == 12 && forall i | 0 <= i < 12 :: shortHash(x)[i] in "0123456789abcdef"
  }

  lemma {:induction false} SinkPrefixParts()
    ensures RetainedRules.SELECTION_SINK_PREFIX == PROVIDER_SERVICE_PREFIX + SINK_NAME
  {
  }

  lemma {:induction false} PrefixTells(a: string, b: string, s: string)
    ensures a + b <= a + s <==> b <= s
  {
    assert (a + s)[|a|..] == s;
    if b <= s { assert s == b + s[|b|..] && a + s == (a + b) + s[|b|..]; }
    if a + b <= a + s { assert (a + s)[|a|..|a| + |b|] == b; }
  }

  // The digest adds nothing to a sink's name: that has no digit, and no letter
  // of a digest, after any hyphen of it.
  lemma {:induction false} NameTells(provider: string, hash: string)
    requires |hash| > 0 && hash[0] in "0123456789abcdef"
    ensures SINK_NAME <= provider + "-" + hash <==> SINK_NAME <= provider + "-"
  {
    var s, t := provider + "-" + hash, provider + "-";
    assert s[..|t|] == t && s[|t|] == hash[0];
    if |SINK_NAME| <= |t| {
      assert s[..|SINK_NAME|] == t[..|SINK_NAME|];
    } else {
      var i := |t| - 1;
      assert s[i] == '-';
      if SINK_NAME[i] == '-' {
        HyphenThenR(i);
        assert SINK_NAME[i + 1] != s[i + 1];
      }
    }
  }

  lemma {:induction false} HyphenThenR(i: nat)
    requires i + 1 < |SINK_NAME| && SINK_NAME[i] == '-'
    ensures SINK_NAME[i + 1] == 'r'
  {
    assert i == 9;
  }

  // So only a provider's own name makes its Service look like a sink.
  lemma {:induction false} SinkTells(shortHash: string -> string, r: Route)
    requires Hexadecimal(shortHash)
    ensures AppliedRoutes.SinkService(ServiceName(shortHash, r)) <==> SinkLike(TargetOf(r))
  {
    SinkPrefixParts();
    var hash := shortHash(r.providerNamespace + "/" + r.provider);
    var tail := if CrossNamespace(r) then r.provider + "-" + hash else r.provider;
    ServiceParts(shortHash, r);
    PrefixTells(PROVIDER_SERVICE_PREFIX, SINK_NAME, tail);
    NameTells(r.provider, hash);
  }

  lemma {:induction false} ServiceParts(shortHash: string -> string, r: Route)
    ensures ServiceName(shortHash, r) == PROVIDER_SERVICE_PREFIX +
      if CrossNamespace(r) then r.provider + "-" + shortHash(r.providerNamespace + "/" + r.provider) else r.provider
  {
    if CrossNamespace(r) {
      var hash := shortHash(r.providerNamespace + "/" + r.provider);
      assert PROVIDER_SERVICE_PREFIX + r.provider + "-" + hash == PROVIDER_SERVICE_PREFIX + (r.provider + "-" + hash);
    }
  }

  // A rule is recognised exactly when the protocol takes it as readable.
  lemma {:induction false} ReadableTells(reader: Reader, r: Route, gone: set<Source>)
    requires Hexadecimal(reader.shortHash)
    requires IdOf(r) != TargetOf(r) ==>
      (TargetOf(r) in gone <==> reader.owner(r.provider, ServiceName(reader.shortHash, r)).None?)
    ensures AppliedRoutes.Reads(reader, r) <==> WithdrawalProtocol.Readable(BoundOf(r), gone)
  {
    SinkTells(reader.shortHash, r);
  }

  // The providers that are gone are those a lookup does not find.
  ghost predicate GoneTells(reader: Reader, routes: seq<Route>, gone: set<Source>) {
    forall r | r in routes && IdOf(r) != TargetOf(r) ::
      TargetOf(r) in gone <==> reader.owner(r.provider, ServiceName(reader.shortHash, r)).None?
  }

  // What the tenant's HTTPRoutes hold and what the controller reads of them.
  ghost predicate ReadsWorld(reader: Reader, names: Names, routes: seq<Route>, models: seq<string>, w: Staging.World) {
    && Tidy(w.sha, reader, routes) && names.shortHash == reader.shortHash && Hexadecimal(reader.shortHash)
    && Covers(routes, models) && StagedRules.NamesTell(names, routes) && StagedRules.OneIdPerTarget(routes)
    && w.namespace == reader.namespace
    && w.applied == AppliedRoutes.ReadAll(reader, RenderedAll(names, reader.namespace, routes, models))
  }

  // The rule an entry was read from is one of the rendered ones: that of the
  // local provider, when the identity has one.
  lemma {:induction false} EntryBound(reader: Reader, names: Names, routes: seq<Route>, models: seq<string>,
                                      w: Staging.World, id: StableId) returns (f: Route)
    requires ReadsWorld(reader, names, routes, models, w) && id in w.applied
    ensures f in routes && RouteStableId(f) == id && AppliedRoutes.Reads(reader, f) && BoundOf(f).id == IdOf(f)
    ensures StagingStep.KeyBound(w, id) == Bound(IdOf(f), TargetOf(w.applied[id]))
    ensures TargetOf(w.applied[id]) ==
      if id in ProfilesOf(StagedRules.OfModel(routes, f.model)) then IdOf(f) else TargetOf(f)
    ensures w.applied[id].namespace == w.namespace
    ensures w.applied[id].model == f.model && w.applied[id].provider == f.provider
  {
    f := EntryOf(w.sha, reader, names, routes, models, id);
    assert AppliedRoutes.Identified(w.sha, reader.namespace, f);
    AppliedRoutes.IdentitySplits(w.sha, reader.namespace, f);
    LocalFormHasOneSlash(f.model, f.provider);
    PrintedId(w.sha, reader.namespace, f);
    if id in ProfilesOf(StagedRules.OfModel(routes, f.model)) {
      ProfileIsLocal(w.sha, reader, routes, f);
    }
  }

  lemma {:induction false} PrintedId(sha: string -> string, namespace: string, f: Route)
    requires HexDigest(sha) && AppliedRoutes.Identified(sha, namespace, f)
    ensures Printable(IdOf(f)) && (RouteStableId(f) == CandidateStableId(f.model, f.provider) <==> IdOf(f).Local?)
  {
    LocalFormHasOneSlash(f.model, f.provider);
    PrintedForm(sha, IdOf(f));
  }

  lemma {:induction false} ProfileIsLocal(sha: string -> string, reader: Reader, routes: seq<Route>, f: Route)
    requires Tidy(sha, reader, routes) && f in routes
    requires RouteStableId(f) in ProfilesOf(StagedRules.OfModel(routes, f.model))
    ensures IdOf(f).Local?
  {
    var own := StagedRules.OfModel(routes, f.model);
    ProfilesAreLocal(own, RouteStableId(f));
    var p := ProfilesOf(own)[RouteStableId(f)];
    assert AppliedRoutes.Identified(sha, reader.namespace, p) && AppliedRoutes.Identified(sha, reader.namespace, f);
    PrintedId(sha, reader.namespace, p);
    PrintedId(sha, reader.namespace, f);
    LocalFormHasOneSlash(p.model, p.provider);
    PrintedForm(sha, IdOf(f));
  }

  lemma {:induction false} LocalSinkLike(c: Source)
    ensures SinkLike(LocalForm(c)) ==> SinkLike(c)
  {
    if c.Scoped? && SinkLike(LocalForm(c)) {
      assert (c.provider + "-")[..|SINK_NAME|] == SINK_NAME;
    }
  }

  // A local provider's profile stands for the rule of that provider.
  lemma {:induction false} ProfileBound(sha: string -> string, reader: Reader, routes: seq<Route>, f: Route)
    requires Tidy(sha, reader, routes) && f in routes
    requires RouteStableId(f) in ProfilesOf(StagedRules.OfModel(routes, f.model))
    ensures Bound(IdOf(f), IdOf(f)) in Bounds(routes)
  {
    var own := StagedRules.OfModel(routes, f.model);
    ProfilesAreLocal(own, RouteStableId(f));
    var p := ProfilesOf(own)[RouteStableId(f)];
    assert AppliedRoutes.Identified(sha, reader.namespace, p) && AppliedRoutes.Identified(sha, reader.namespace, f);
    PrintedId(sha, reader.namespace, p);
    PrintedId(sha, reader.namespace, f);
    PrintInjective(sha, IdOf(p), IdOf(f));
    assert p in routes && BoundOf(p) in Bounds(routes);
  }

  lemma {:induction false} EntryIsRule(reader: Reader, names: Names, routes: seq<Route>, models: seq<string>,
                                       w: Staging.World, gone: set<Source>, id: StableId)
    requires ReadsWorld(reader, names, routes, models, w) && GoneTells(reader, routes, gone) && id in w.applied
    ensures StagingStep.KeyBound(w, id) in Bounds(routes)
    ensures WithdrawalProtocol.Readable(StagingStep.KeyBound(w, id), gone)
  {
    var f := EntryBound(reader, names, routes, models, w, id);
    ReadableTells(reader, f, gone);
    if id in ProfilesOf(StagedRules.OfModel(routes, f.model)) {
      ProfileBound(w.sha, reader, routes, f);
      ProfileIsLocal(w.sha, reader, routes, f);
      LocalSinkLike(TargetOf(f));
    } else {
      assert BoundOf(f) in Bounds(routes);
    }
  }

  lemma {:induction false} EntryIsReadBack(reader: Reader, names: Names, routes: seq<Route>, models: seq<string>,
                                           w: Staging.World, id: StableId)
    requires ReadsWorld(reader, names, routes, models, w) && id in w.applied
    ensures var r := w.applied[id];
      && r.namespace == w.namespace && Printable(TargetOf(r))
      && RouteStableId(r) == CandidateStableId(r.model, r.provider)
      && id == Print(w.sha, StagingStep.KeyBound(w, id).id) && !Hashed(StagingStep.KeyBound(w, id).id)
  {
    var f := EntryBound(reader, names, routes, models, w, id);
    assert AppliedRoutes.Identified(w.sha, reader.namespace, f);
    PrintedId(w.sha, reader.namespace, f);
    AppliedRoutes.SurvivesIffLocal(w.sha, IdOf(f));
    RenderedIdentities(reader, names, routes, models, w);
  }

  lemma {:induction false} RenderedIdentities(reader: Reader, names: Names, routes: seq<Route>, models: seq<string>,
                                              w: Staging.World)
    requires ReadsWorld(reader, names, routes, models, w)
    ensures forall id :: id in w.applied ==> RouteStableId(w.applied[id]) == Reread(id)
  {
    RenderedIsValid(w.sha, reader, names, routes, models);
    AppliedRoutes.AppliedIdentities(reader, RenderedAll(names, reader.namespace, routes, models));
  }

  lemma {:induction false} RenderedIsValid(sha: string -> string, reader: Reader, names: Names, routes: seq<Route>,
                                           models: seq<string>)
    requires Tidy(sha, reader, routes) && Covers(routes, models)
    ensures forall m :: m in RenderedAll(names, reader.namespace, routes, models) ==>
      AppliedRoutes.ValidProfiles(reader.namespace, m)
  {
    forall i: nat | i < |models|
      ensures AppliedRoutes.ValidProfiles(reader.namespace, RenderedAll(names, reader.namespace, routes, models)[i])
    {
      ProfilesAreValid(sha, reader, names, routes, StagedRules.OfModel(routes, models[i]));
    }
  }

  lemma {:induction false} WorldIsReadBack(reader: Reader, names: Names, routes: seq<Route>, models: seq<string>,
                                           w: Staging.World)
    requires ReadsWorld(reader, names, routes, models, w)
    ensures StagingStep.ReadBack(w)
  {
    forall id | id in w.applied
      ensures var r := w.applied[id];
        && r.namespace == w.namespace && Printable(TargetOf(r))
        && RouteStableId(r) == CandidateStableId(r.model, r.provider)
        && id == Print(w.sha, StagingStep.KeyBound(w, id).id) && !Hashed(StagingStep.KeyBound(w, id).id)
    {
      EntryIsReadBack(reader, names, routes, models, w, id);
    }
  }

  // A readable rule has an entry, which is its own when it is native.
  lemma {:induction false} RuleHasEntry(reader: Reader, names: Names, routes: seq<Route>, models: seq<string>,
                                        w: Staging.World, gone: set<Source>, r: Route)
    requires ReadsWorld(reader, names, routes, models, w) && GoneTells(reader, routes, gone) && r in routes
    requires WithdrawalProtocol.Readable(BoundOf(r), gone)
    ensures RouteStableId(r) in w.applied && StagingStep.KeyBound(w, RouteStableId(r)).id == IdOf(r)
    ensures IdOf(r) == TargetOf(r) ==> StagingStep.KeyBound(w, RouteStableId(r)) == BoundOf(r)
  {
    var id := RouteStableId(r);
    ReadableTells(reader, r, gone);
    ReadsExactly(w.sha, reader, names, routes, models);
    assert id in w.applied;
    var f := EntryBound(reader, names, routes, models, w, id);
    assert AppliedRoutes.Identified(w.sha, reader.namespace, f) && AppliedRoutes.Identified(w.sha, reader.namespace, r);
    PrintedId(w.sha, reader.namespace, f);
    PrintedId(w.sha, reader.namespace, r);
    PrintInjective(w.sha, IdOf(f), IdOf(r));
    if IdOf(r) == TargetOf(r) && IdOf(r).Local? {
      ProfilesAreLocal(StagedRules.OfModel(routes, f.model), id);
      assert r in StagedRules.OfModel(routes, f.model);
    }
  }

  lemma {:induction false} OneEntryEach(reader: Reader, names: Names, routes: seq<Route>, models: seq<string>,
                                        w: Staging.World)
    requires ReadsWorld(reader, names, routes, models, w)
    ensures forall x, y | x in StagingStep.ReadBounds(w) && y in StagingStep.ReadBounds(w) && x.id == y.id :: x == y
  {
    forall x, y | x in StagingStep.ReadBounds(w) && y in StagingStep.ReadBounds(w) && x.id == y.id ensures x == y {
      var i :| i in w.applied && StagingStep.KeyBound(w, i) == x;
      var j :| j in w.applied && StagingStep.KeyBound(w, j) == y;
      EntryIsReadBack(reader, names, routes, models, w, i);
      EntryIsReadBack(reader, names, routes, models, w, j);
    }
  }

  // What is read back of rendered HTTPRoutes is a reading of their rules.
  lemma {:induction false} RenderedIsRead(reader: Reader, names: Names, routes: seq<Route>, models: seq<string>,
                                          w: Staging.World, reading: StagingStep.Reading)
    requires ReadsWorld(reader, names, routes, models, w) && GoneTells(reader, routes, reading.gone)
    requires reading.read == StagingStep.ReadBounds(w)
    ensures WithdrawalProtocol.IsRead(Bounds(routes), reading)
  {
    forall x | x in reading.read ensures x in Bounds(routes) && WithdrawalProtocol.Readable(x, reading.gone) {
      var id :| id in w.applied && StagingStep.KeyBound(w, id) == x;
      EntryIsRule(reader, names, routes, models, w, reading.gone, id);
    }
    OneEntryEach(reader, names, routes, models, w);
    forall x | x in Bounds(routes) && WithdrawalProtocol.Readable(x, reading.gone)
      ensures x.id in Ids(reading.read) && (x.id == x.target ==> x in reading.read)
    {
      var r :| r in routes && BoundOf(r) == x;
      RuleHasEntry(reader, names, routes, models, w, reading.gone, r);
      assert StagingStep.KeyBound(w, RouteStableId(r)) in reading.read;
    }
  }
}
