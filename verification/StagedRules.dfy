// The HTTPRoutes rendered from staged routes: applying them installs a rule for
// every staged identity, and where it sends.
module StagedRules {
  import opened HttpRoutes
  import opened Overlays
  import opened Routes
  import opened StableIds
  import opened Wrappers

  // ----- the rules of one model -----

  // The identities that some rule matches.
  function RuleIds(rules: seq<Rule>): set<StableId> {
    set a | a in Alternatives(rules) && a.m.selected.Some? :: a.m.selected.value
  }

  lemma {:induction false} RuleIdsAreFirsts(names: Names, namespace: string, routes: seq<Route>)
    requires routes != []
    ensures RuleIds(RulesOf(names, namespace, routes)) == RouteIds(Firsts(names, routes))
  {
    var path, client, firsts := CanonicalPath(namespace, routes), routes[0].clientName, Firsts(names, routes);
    var all := Alternatives(RulesOf(names, namespace, routes));
    forall id | id in RuleIds(RulesOf(names, namespace, routes)) ensures id in RouteIds(firsts) {
      var a :| a in all && a.m.selected == Some(id);
      ModelAlternatives(names, namespace, routes, a);
      var r :| r in firsts && OfRoute(names, path, client, r, a);
    }
    forall r | r in firsts ensures RouteStableId(r) in RuleIds(RulesOf(names, namespace, routes)) {
      var a := Alternative(Match(Prefix(path), Some(RouteStableId(r)), None), Service(names, r));
      assert OfRoute(names, path, client, r, a);
      ModelAlternatives(names, namespace, routes, a);
    }
  }

  // One provider Service never carries two identities.
  predicate OneIdEach(names: Names, routes: seq<Route>) {
    forall a, b | a in routes && b in routes && Service(names, a) == Service(names, b) ::
      RouteStableId(a) == RouteStableId(b)
  }

  predicate DistinctIds(routes: seq<Route>) {
    forall i, j | 0 <= i < j < |routes| :: RouteStableId(routes[i]) != RouteStableId(routes[j])
  }

  lemma {:induction false} FirstsAreApart(names: Names, routes: seq<Route>)
    ensures forall i, j | 0 <= i < j < |Firsts(names, routes)| ::
      Service(names, Firsts(names, routes)[i]) != Service(names, Firsts(names, routes)[j])
    ensures forall f | f in Firsts(names, routes) :: f in routes
  {
    if routes != [] {
      var front, last := routes[..|routes| - 1], routes[|routes| - 1];
      FirstsAreApart(names, front);
      assert routes == front + [last];
      var firsts := Firsts(names, front);
      if Service(names, last) !in Services(names, front) {
        forall i | 0 <= i < |firsts| ensures Service(names, firsts[i]) != Service(names, last) {
          assert firsts[i] in firsts && firsts[i] in front;
        }
      }
    }
  }

  lemma {:induction false} SameIdSameRoute(routes: seq<Route>, a: Route, b: Route)
    requires DistinctIds(routes) && a in routes && b in routes && RouteStableId(a) == RouteStableId(b)
    ensures a == b
  {
    var i :| 0 <= i < |routes| && routes[i] == a;
    var j :| 0 <= j < |routes| && routes[j] == b;
    if i < j { assert false; }
    if j < i { assert false; }
  }

  // Every route of a model has a rule for its identity exactly when no provider
  // Service carries two of them.
  lemma {:induction false} CoveredIffOneIdEach(names: Names, namespace: string, routes: seq<Route>)
    requires routes != [] && DistinctIds(routes)
    ensures RuleIds(RulesOf(names, namespace, routes)) == RouteIds(routes) <==> OneIdEach(names, routes)
  {
    var firsts := Firsts(names, routes);
    RuleIdsAreFirsts(names, namespace, routes);
    FirstsAreApart(names, routes);
    if OneIdEach(names, routes) {
      OneIdCovers(names, routes);
    } else {
      var a, b :| a in routes && b in routes && Service(names, a) == Service(names, b)
        && RouteStableId(a) != RouteStableId(b);
      TwoIdsNotCovered(names, routes, a, b);
      assert RouteStableId(a) in RouteIds(routes) && RouteStableId(b) in RouteIds(routes);
    }
  }

  lemma {:induction false} TwoFirstsAreApart(names: Names, routes: seq<Route>, f: Route, g: Route)
    requires f in Firsts(names, routes) && g in Firsts(names, routes) && f != g
    ensures Service(names, f) != Service(names, g)
  {
    var firsts := Firsts(names, routes);
    FirstsAreApart(names, routes);
    var i :| 0 <= i < |firsts| && firsts[i] == f;
    var j :| 0 <= j < |firsts| && firsts[j] == g;
    assert i < j || j < i;
  }

  lemma {:induction false} TwoIdsNotCovered(names: Names, routes: seq<Route>, a: Route, b: Route)
    requires DistinctIds(routes) && a in routes && b in routes
    requires Service(names, a) == Service(names, b) && RouteStableId(a) != RouteStableId(b)
    ensures RouteStableId(a) !in RouteIds(Firsts(names, routes)) || RouteStableId(b) !in RouteIds(Firsts(names, routes))
  {
    var firsts := Firsts(names, routes);
    FirstsAreApart(names, routes);
    forall f, g | f in firsts && g in firsts && f != g ensures Service(names, f) != Service(names, g) {
      TwoFirstsAreApart(names, routes, f, g);
    }
    forall f, r | f in firsts && r in routes && RouteStableId(f) == RouteStableId(r) ensures f == r {
      SameIdSameRoute(routes, f, r);
    }
  }

  lemma {:induction false} OneIdCovers(names: Names, routes: seq<Route>)
    requires routes != [] && OneIdEach(names, routes)
    ensures RouteIds(Firsts(names, routes)) == RouteIds(routes)
  {
    FirstsAreApart(names, routes);
    forall r | r in routes ensures RouteStableId(r) in RouteIds(Firsts(names, routes)) {
      FirstsCover(names, routes, r);
      var f :| f in Firsts(names, routes) && Service(names, f) == Service(names, r);
      assert f in routes && RouteStableId(f) == RouteStableId(r);
    }
  }

  // ----- the rules of a tenant -----

  // The routes of one model, in order.
  function OfModel(routes: seq<Route>, model: string): (r: seq<Route>)
    ensures forall x :: x in r <==> x in routes && x.model == model
  {
    if routes == [] then []
    else
      var last := routes[|routes| - 1];
      assert routes == routes[..|routes| - 1] + [last];
      OfModel(routes[..|routes| - 1], model) + if last.model == model then [last] else []
  }

  // Applying writes one HTTPRoute per model of the routes. Each of its rules
  // matches an identity and sends to a Service.
  function AppliedPairs(names: Names, namespace: string, routes: seq<Route>): set<(StableId, string)> {
    set r, a | r in routes && a in Alternatives(RulesOf(names, namespace, OfModel(routes, r.model)))
               && a.m.selected.Some? :: (a.m.selected.value, a.service)
  }

  // One identity per provider, over the whole list.
  predicate OneIdPerTarget(routes: seq<Route>) {
    forall a, b | a in routes && b in routes && TargetOf(a) == TargetOf(b) :: RouteStableId(a) == RouteStableId(b)
  }

  // And one provider per identity.
  predicate OneTargetPerId(routes: seq<Route>) {
    forall a, b | a in routes && b in routes && RouteStableId(a) == RouteStableId(b) :: TargetOf(a) == TargetOf(b)
  }

  // Shortened digests tell providers apart, and no local provider is named like
  // the transport of another namespace's provider.
  ghost predicate NamesTell(names: Names, routes: seq<Route>) {
    && (forall x :: |names.shortHash(x)| == 12)
    && (forall a, b | a in routes && b in routes && CrossNamespace(a) && CrossNamespace(b) ::
          names.shortHash(a.providerNamespace + "/" + a.provider) ==
            names.shortHash(b.providerNamespace + "/" + b.provider)
          ==> a.providerNamespace + "/" + a.provider == b.providerNamespace + "/" + b.provider)
    && forall a, b | a in routes && b in routes && !CrossNamespace(a) && CrossNamespace(b) ::
         a.provider != b.provider + "-" + names.shortHash(b.providerNamespace + "/" + b.provider)
  }

  lemma {:induction false} ServiceTail(names: Names, r: Route)
    ensures Service(names, r)[|PROVIDER_SERVICE_PREFIX|..] ==
      if CrossNamespace(r) then r.provider + "-" + names.shortHash(r.providerNamespace + "/" + r.provider)
      else r.provider
  {
  }

  lemma {:induction false} HyphenTells(p: string, s: string, q: string, t: string)
    requires |s| == |t| && p + "-" + s == q + "-" + t
    ensures p == q && s == t
  {
    SuffixesTell(p + "-", s, q + "-", t);
    assert (p + "-")[..|p|] == p && (q + "-")[..|q|] == q;
  }

  lemma {:induction false} PrefixTells(n: string, m: string, p: string)
    requires n + "/" + p == m + "/" + p
    ensures n == m
  {
    assert n + "/" + p == n + ("/" + p) && m + "/" + p == m + ("/" + p);
    SuffixesTell(n, "/" + p, m, "/" + p);
  }

  lemma {:induction false} SameScopedProvider(names: Names, a: Route, b: Route)
    requires |names.shortHash(a.providerNamespace + "/" + a.provider)| == 12
    requires |names.shortHash(b.providerNamespace + "/" + b.provider)| == 12
    requires names.shortHash(a.providerNamespace + "/" + a.provider) ==
      names.shortHash(b.providerNamespace + "/" + b.provider)
      ==> a.providerNamespace + "/" + a.provider == b.providerNamespace + "/" + b.provider
    requires CrossNamespace(a) && CrossNamespace(b) && Service(names, a) == Service(names, b)
    ensures a.providerNamespace == b.providerNamespace && a.provider == b.provider
  {
    ServiceTail(names, a);
    ServiceTail(names, b);
    HyphenTells(a.provider, names.shortHash(a.providerNamespace + "/" + a.provider),
                b.provider, names.shortHash(b.providerNamespace + "/" + b.provider));
    PrefixTells(a.providerNamespace, b.providerNamespace, a.provider);
  }

  lemma {:induction false} SameServiceSameTarget(names: Names, routes: seq<Route>, a: Route, b: Route)
    requires NamesTell(names, routes) && a in routes && b in routes && a.namespace == b.namespace && a.model == b.model
    ensures Service(names, a) == Service(names, b) <==> TargetOf(a) == TargetOf(b)
  {
    ServiceTail(names, a);
    ServiceTail(names, b);
    if CrossNamespace(a) && CrossNamespace(b) && Service(names, a) == Service(names, b) {
      SameScopedProvider(names, a, b);
    }
  }

  lemma {:induction false} SuffixesTell(a: string, s: string, b: string, t: string)
    ensures |s| == |t| && a + s == b + t ==> a == b && s == t
  {
    if |s| == |t| && a + s == b + t {
      assert |a| == |b| && (a + s)[..|a|] == a && (b + t)[..|b|] == b;
      assert (a + s)[|a|..] == s && (b + t)[|b|..] == t;
    }
  }

  // One identity per provider gives each Service of a model one identity, and
  // one provider per identity gives each identity one Service.
  lemma {:induction false} TargetsGiveServices(names: Names, namespace: string, routes: seq<Route>, model: string)
    requires NamesTell(names, routes) && OneIdPerTarget(routes) && forall r | r in routes :: r.namespace == namespace
    ensures OneIdEach(names, OfModel(routes, model))
    ensures OneTargetPerId(OfModel(routes, model)) <==> OneIdPerService(names, OfModel(routes, model))
  {
    var own := OfModel(routes, model);
    forall a, b | a in own && b in own
      ensures Service(names, a) == Service(names, b) <==> TargetOf(a) == TargetOf(b)
    {
      SameServiceSameTarget(names, routes, a, b);
    }
  }

  lemma {:induction false} PairIsOfRoute(names: Names, namespace: string, own: seq<Route>, a: Alternative)
    returns (r: Route)
    requires own != [] && a in Alternatives(RulesOf(names, namespace, own)) && a.m.selected.Some?
    ensures r in own && RouteStableId(r) == a.m.selected.value && Service(names, r) == a.service
  {
    var path, client, firsts := CanonicalPath(namespace, own), own[0].clientName, Firsts(names, own);
    FirstsAreApart(names, own);
    ModelAlternatives(names, namespace, own, a);
    r :| r in firsts && OfRoute(names, path, client, r, a);
  }

  lemma {:induction false} RouteHasPair(names: Names, namespace: string, own: seq<Route>, r: Route)
    returns (a: Alternative)
    requires r in own && OneIdEach(names, own)
    ensures a in Alternatives(RulesOf(names, namespace, own))
    ensures a.m.selected == Some(RouteStableId(r)) && a.service == Service(names, r)
  {
    var path, client, firsts := CanonicalPath(namespace, own), own[0].clientName, Firsts(names, own);
    FirstsAreApart(names, own);
    FirstsCover(names, own, r);
    var f :| f in firsts && Service(names, f) == Service(names, r);
    a := Alternative(Match(Prefix(path), Some(RouteStableId(r)), None), Service(names, r));
    assert OfRoute(names, path, client, f, a);
    ModelAlternatives(names, namespace, own, a);
  }

  function PairsOf(names: Names, routes: seq<Route>): set<(StableId, string)> {
    set r | r in routes :: (RouteStableId(r), Service(names, r))
  }

  // Applying routes installs a rule from the identity of every one of them to
  // its provider's Service, and no other.
  lemma {:induction false} EveryRuleIsApplied(names: Names, namespace: string, routes: seq<Route>)
    requires NamesTell(names, routes) && OneIdPerTarget(routes) && forall r | r in routes :: r.namespace == namespace
    ensures AppliedPairs(names, namespace, routes) == PairsOf(names, routes)
  {
    forall p | p in AppliedPairs(names, namespace, routes) ensures p in PairsOf(names, routes) {
      var r, a :| r in routes && a in Alternatives(RulesOf(names, namespace, OfModel(routes, r.model)))
        && a.m.selected.Some? && p == (a.m.selected.value, a.service);
      assert r in OfModel(routes, r.model);
      var x := PairIsOfRoute(names, namespace, OfModel(routes, r.model), a);
    }
    forall r | r in routes ensures (RouteStableId(r), Service(names, r)) in AppliedPairs(names, namespace, routes) {
      assert r in OfModel(routes, r.model);
      TargetsGiveServices(names, namespace, routes, r.model);
      var a := RouteHasPair(names, namespace, OfModel(routes, r.model), r);
    }
  }

  // ----- where requests go -----

  // Every request for the model that selects one of its routes reaches that
  // route's own provider.
  ghost predicate AllReached(names: Names, namespace: string, own: seq<Route>)
    requires own != []
  {
    forall r, q | r in own && Selects(q, r) && ForModel(namespace, own, q) ::
      Destination(RulesOf(names, namespace, own), q) == Some(Service(names, r))
  }

  // Two providers under one identity: a request gets one destination only.
  lemma {:induction false} TwoTargetsMisroute(names: Names, namespace: string, routes: seq<Route>, a: Route, b: Route)
    requires NamesTell(names, routes) && a in routes && b in routes && a.namespace == b.namespace && a.model == b.model
    requires RouteStableId(a) == RouteStableId(b) && TargetOf(a) != TargetOf(b)
    ensures OfModel(routes, a.model) != [] && !AllReached(names, namespace, OfModel(routes, a.model))
  {
    var own := OfModel(routes, a.model);
    assert a in own && b in own;
    var q := Request(CanonicalPath(namespace, own), Some(RouteStableId(a)), None);
    assert Selects(q, a) && Selects(q, b) && ForModel(namespace, own, q);
    SameServiceSameTarget(names, routes, a, b);
  }

  // Every route is reached exactly when no two providers are under one
  // identity.
  lemma {:induction false} EveryRouteIsReached(names: Names, namespace: string, routes: seq<Route>, model: string)
    requires NamesTell(names, routes) && OneIdPerTarget(routes) && forall r | r in routes :: r.namespace == namespace
    requires OfModel(routes, model) != []
    ensures AllReached(names, namespace, OfModel(routes, model)) <==> OneTargetPerId(OfModel(routes, model))
  {
    var own := OfModel(routes, model);
    TargetsGiveServices(names, namespace, routes, model);
    if OneTargetPerId(own) {
      forall r, q | r in own && Selects(q, r) && ForModel(namespace, own, q)
        ensures Destination(RulesOf(names, namespace, own), q) == Some(Service(names, r))
      {
        SelectedReachesItsProvider(names, namespace, own, q, r);
      }
    } else {
      var a, b :| a in own && b in own && RouteStableId(a) == RouteStableId(b) && TargetOf(a) != TargetOf(b);
      TwoTargetsMisroute(names, namespace, routes, a, b);
    }
  }

  // ----- the order of equals -----

  lemma {:induction false} ChooseKeeps(a: seq<Alternative>, b: seq<Alternative>, q: HttpRoutes.Request)
    requires Choose(a, q).Some?
    requires forall x | x in b && HttpRoutes.Matches(x.m, q) :: !Better(x.m, Choose(a, q).value.m)
    ensures Choose(a + b, q) == Choose(a, q)
  {
    if b == [] {
      assert a + b == a;
    } else {
      var front := b[..|b| - 1];
      assert b == front + [b[|b| - 1]];
      assert (a + b)[..|a + b| - 1] == a + front;
      ChooseKeeps(a, front, q);
    }
  }

  lemma {:induction false} ChooseNone(a: seq<Alternative>, q: HttpRoutes.Request)
    requires forall x | x in a :: !HttpRoutes.Matches(x.m, q)
    ensures Choose(a, q) == None
  {
    ChosenIsBest(a, q);
  }

  // The first alternative that matches is chosen, when none is better.
  lemma {:induction false} FirstOfEquals(front: seq<Alternative>, x: Alternative, back: seq<Alternative>,
                                         q: HttpRoutes.Request)
    requires HttpRoutes.Matches(x.m, q) && forall y | y in front :: !HttpRoutes.Matches(y.m, q)
    requires forall y | y in back && HttpRoutes.Matches(y.m, q) :: !Better(y.m, x.m)
    ensures Choose(front + [x] + back, q) == Some(x)
  {
    ChooseNone(front, q);
    assert (front + [x])[..|front|] == front;
    assert Choose(front + [x], q) == Some(x);
    ChooseKeeps(front + [x], back, q);
  }

  lemma {:induction false} ProviderRulesConcat(names: Names, path: string, client: string, a: seq<Route>, b: seq<Route>)
    ensures ProviderRules(names, path, client, a + b)
         == ProviderRules(names, path, client, a) + ProviderRules(names, path, client, b)
  {
    if b == [] {
      assert a + b == a;
    } else {
      var front, last := b[..|b| - 1], b[|b| - 1];
      assert a + b == (a + front) + [last] && (a + b)[..|a + b| - 1] == a + front;
      ProviderRulesConcat(names, path, client, a, front);
      assert b == front + [last];
    }
  }

  lemma {:induction false} FirstsGrow(names: Names, routes: seq<Route>, i: nat) returns (rest: seq<Route>)
    requires i <= |routes|
    ensures Firsts(names, routes) == Firsts(names, routes[..i]) + rest
    decreases |routes| - i
  {
    if i == |routes| {
      assert routes[..i] == routes;
      rest := [];
    } else {
      rest := FirstsGrow(names, routes, i + 1);
      OneMoreFirst(names, routes, i);
      if Service(names, routes[i]) !in Services(names, routes[..i]) {
        assert Firsts(names, routes[..i]) + [routes[i]] + rest == Firsts(names, routes[..i]) + ([routes[i]] + rest);
        rest := [routes[i]] + rest;
      }
    }
  }

  // The request is for the canonical path and no route with its identity has
  // that path as its own.
  predicate Canonical(namespace: string, own: seq<Route>, q: HttpRoutes.Request)
    requires own != []
  {
    && Under(q.path, CanonicalPath(namespace, own))
    && forall r | r in own && Selects(q, r) && Rewrites(r) :: q.path != r.path
  }

  // Nothing that matches is better than the canonical alternative.
  lemma {:induction false} CanonicalIsBest(names: Names, namespace: string, own: seq<Route>, q: HttpRoutes.Request,
                                           x: Alternative, y: Alternative)
    requires own != [] && Canonical(namespace, own, q) && x.m.path == Prefix(CanonicalPath(namespace, own))
    requires HeaderCount(x.m) == 1
    requires y in Alternatives(RulesOf(names, namespace, own)) && HttpRoutes.Matches(y.m, q)
    ensures !Better(y.m, x.m)
  {
    ModelAlternatives(names, namespace, own, y);
    if OfSome(names, CanonicalPath(namespace, own), own[0].clientName, Firsts(names, own), y) {
      FirstsAreApart(names, own);
      var r :| r in Firsts(names, own) && OfRoute(names, CanonicalPath(namespace, own), own[0].clientName, r, y);
      assert r in own && Selects(q, r);
    }
  }

  lemma {:induction false} RulesInParts(names: Names, namespace: string, own: seq<Route>, front: seq<Route>, f: Route,
                                        rest: seq<Route>)
    returns (back: seq<Alternative>)
    requires own != [] && Firsts(names, own) == front + [f] + rest
    ensures var path, client := CanonicalPath(namespace, own), own[0].clientName;
      Alternatives(RulesOf(names, namespace, own)) ==
        Alternatives(ProviderRules(names, path, client, front))
        + [Alternative(Match(Prefix(path), Some(RouteStableId(f)), None), Service(names, f))] + back
  {
    var path, client := CanonicalPath(namespace, own), own[0].clientName;
    var canonical, body := CanonicalRule(names, path, f), BodyRule(names, client, f);
    var sinks := SinkRules(names, path, own[0]);
    ProviderRulesConcat(names, path, client, front + [f], rest);
    OneMoreProvider(names, path, client, front, f);
    var a, b := ProviderRules(names, path, client, front), ProviderRules(names, path, client, rest);
    assert RulesOf(names, namespace, own) == a + ([canonical, body] + (b + sinks));
    AlternativesConcat(a, [canonical, body] + (b + sinks));
    AlternativesConcat([canonical, body], b + sinks);
    PairAlternatives(canonical, body);
    back := AlternativesOf(body) + Alternatives(b + sinks);
    assert AlternativesOf(canonical) == [Alternative(canonical.matches[0], canonical.service)];
    Regroup(Alternatives(a), AlternativesOf(canonical), AlternativesOf(body), Alternatives(b + sinks));
  }

  lemma {:induction false} Regroup<T>(a: seq<T>, b: seq<T>, c: seq<T>, d: seq<T>)
    ensures a + ((b + c) + d) == a + b + (c + d)
  {
  }

  lemma {:induction false} OthersDoNotMatch(names: Names, path: string, client: string, front: seq<Route>,
                                            q: HttpRoutes.Request, y: Alternative)
    requires forall r | r in front :: !Selects(q, r)
    requires y in Alternatives(ProviderRules(names, path, client, front))
    ensures !HttpRoutes.Matches(y.m, q)
  {
    ProviderAlternatives(names, path, client, front, y);
    var r :| r in front && OfRoute(names, path, client, r, y);
  }

  // The first route with an identity has a rule, after rules of others only.
  lemma {:induction false} FirstOfIdStands(names: Names, own: seq<Route>, i: nat) returns (rest: seq<Route>)
    requires i < |own| && OneIdEach(names, own)
    requires forall j | 0 <= j < i :: RouteStableId(own[j]) != RouteStableId(own[i])
    ensures Firsts(names, own) == Firsts(names, own[..i]) + [own[i]] + rest
    ensures forall r | r in Firsts(names, own[..i]) :: RouteStableId(r) != RouteStableId(own[i])
  {
    forall r | r in own[..i]
      ensures Service(names, r) != Service(names, own[i]) && RouteStableId(r) != RouteStableId(own[i])
    {
      var j :| 0 <= j < i && own[j] == r;
      assert r in own;
    }
    OneMoreFirst(names, own, i);
    FirstsAreApart(names, own[..i]);
    rest := FirstsGrow(names, own, i + 1);
  }

  // Where two routes carry one identity, the one that stands first gets the
  // requests.
  lemma {:induction false} EarlierRouteIsReached(names: Names, namespace: string, own: seq<Route>, i: nat,
                                                 q: HttpRoutes.Request)
    requires i < |own| && OneIdEach(names, own) && Selects(q, own[i]) && Canonical(namespace, own, q)
    requires forall j | 0 <= j < i :: RouteStableId(own[j]) != RouteStableId(own[i])
    ensures Destination(RulesOf(names, namespace, own), q) == Some(Service(names, own[i]))
  {
    var path, client, f := CanonicalPath(namespace, own), own[0].clientName, own[i];
    var rest := FirstOfIdStands(names, own, i);
    var front := Firsts(names, own[..i]);
    var back := RulesInParts(names, namespace, own, front, f, rest);
    var before := Alternatives(ProviderRules(names, path, client, front));
    var x := Alternative(Match(Prefix(path), Some(RouteStableId(f)), None), Service(names, f));
    forall y | y in before ensures !HttpRoutes.Matches(y.m, q) {
      OthersDoNotMatch(names, path, client, front, q, y);
    }
    BackIsNotBetter(names, namespace, own, q, before, x, back);
    FirstOfEquals(before, x, back, q);
  }

  lemma {:induction false} BackIsNotBetter(names: Names, namespace: string, own: seq<Route>, q: HttpRoutes.Request,
                                           front: seq<Alternative>, x: Alternative, back: seq<Alternative>)
    requires own != [] && Canonical(namespace, own, q) && x.m.path == Prefix(CanonicalPath(namespace, own))
    requires HeaderCount(x.m) == 1 && Alternatives(RulesOf(names, namespace, own)) == front + [x] + back
    ensures forall y | y in back && HttpRoutes.Matches(y.m, q) :: !Better(y.m, x.m)
  {
    forall y | y in back && HttpRoutes.Matches(y.m, q) ensures !Better(y.m, x.m) {
      CanonicalIsBest(names, namespace, own, q, x, y);
    }
  }
}
