// The Envoy plane of one model: the HTTPRoute rules rendered from its routes,
// and what Gateway API's match precedence makes of them.
module HttpRoutes {
  import opened Drain
  import Envelopes
  import opened Overlays
  import opened Routes
  import Selection
  import SelectionOdds
  import opened Wrappers

  // ----- rules -----

  // AnyPath stands for a match without a path, which Gateway API reads as the
  // prefix "/".
  datatype PathMatch = AnyPath | Prefix(path: string) | Exact(path: string)

  // selected and model are the values the selection and model-name headers
  // must have.
  datatype Match = Match(path: PathMatch, selected: Option<StableId>, model: Option<string>)

  // The matches of one rule are alternatives. endpoint is the provider its
  // rewrite names, empty without one.
  datatype Rule = Rule(matches: seq<Match>, service: string, timeout: int, endpoint: string)

  // Sinks: the model's Service without endpoints, by model name.
  datatype Names = Names(shortHash: string -> string, sink: string -> string)

  function Service(names: Names, r: Route): string {
    ServiceName(names.shortHash, r)
  }

  function CanonicalPath(namespace: string, routes: seq<Route>): string
    requires routes != []
  {
    "/" + namespace + "/" + routes[0].clientName
  }

  function CanonicalRule(names: Names, path: string, r: Route): Rule {
    Rule([Match(Prefix(path), Some(RouteStableId(r)), None)], Service(names, r), REQUEST_TIMEOUT,
         r.endpoint)
  }

  function BodyRule(names: Names, clientName: string, r: Route): Rule {
    Rule([Match(AnyPath, Some(RouteStableId(r)), Some(clientName))]
         + (if Rewrites(r) then [Match(Exact(r.path), Some(RouteStableId(r)), None)] else []),
         Service(names, r), REQUEST_TIMEOUT, r.endpoint)
  }

  // A profile may rewrite the request path before Envoy selects again.
  predicate Rewrites(r: Route) {
    r.apiTranslationEnabled && r.path != ""
  }

  function Services(names: Names, routes: seq<Route>): set<string> {
    set r | r in routes :: Service(names, r)
  }

  // The first route of each provider Service.
  function Firsts(names: Names, routes: seq<Route>): seq<Route> {
    if routes == [] then []
    else
      var front, last := routes[..|routes| - 1], routes[|routes| - 1];
      Firsts(names, front) + if Service(names, last) in Services(names, front) then [] else [last]
  }

  function ProviderRules(names: Names, path: string, clientName: string, firsts: seq<Route>): (rules: seq<Rule>)
    ensures |rules| == 2 * |firsts|
  {
    if firsts == [] then []
    else
      var last := firsts[|firsts| - 1];
      ProviderRules(names, path, clientName, firsts[..|firsts| - 1])
      + [CanonicalRule(names, path, last), BodyRule(names, clientName, last)]
  }

  function SinkRules(names: Names, path: string, first: Route): seq<Rule> {
    [Rule([Match(Prefix(path), None, None)], names.sink(first.model), REQUEST_TIMEOUT, ""),
     Rule([Match(AnyPath, None, Some(first.clientName))], names.sink(first.model), REQUEST_TIMEOUT, "")]
  }

  function RulesOf(names: Names, namespace: string, routes: seq<Route>): seq<Rule> {
    if routes == [] then []
    else
      var path := CanonicalPath(namespace, routes);
      ProviderRules(names, path, routes[0].clientName, Firsts(names, routes)) + SinkRules(names, path, routes[0])
  }

  lemma {:induction false} OneMoreFirst(names: Names, routes: seq<Route>, i: nat)
    requires i < |routes|
    ensures Services(names, routes[..i + 1]) == Services(names, routes[..i]) + {Service(names, routes[i])}
    ensures Firsts(names, routes[..i + 1])
         == if Service(names, routes[i]) in Services(names, routes[..i]) then Firsts(names, routes[..i])
            else Firsts(names, routes[..i]) + [routes[i]]
  {
    assert routes[..i + 1] == routes[..i] + [routes[i]] && routes[..i + 1][..i] == routes[..i];
  }

  lemma {:induction false} OneMoreProvider(names: Names, path: string, clientName: string, firsts: seq<Route>, r: Route)
    ensures ProviderRules(names, path, clientName, firsts + [r])
         == ProviderRules(names, path, clientName, firsts)
           + [CanonicalRule(names, path, r), BodyRule(names, clientName, r)]
  {
    assert (firsts + [r])[..|firsts|] == firsts;
  }

  method ModelHTTPRouteSet(names: Names, namespace: string, routes: seq<Route>) returns (rules: seq<Rule>)
    ensures rules == RulesOf(names, namespace, routes)
  {
    rules := [];
    if routes == [] { return; }
    var route := routes[0];
    var path := "/" + namespace + "/" + route.clientName;
    var seen: set<string> := {};
    var i := 0;
    while i < |routes|
      invariant 0 <= i <= |routes|
      invariant seen == Services(names, routes[..i])
      invariant rules == ProviderRules(names, path, route.clientName, Firsts(names, routes[..i]))
    {
      OneMoreFirst(names, routes, i);
      var service := Service(names, routes[i]);
      if service !in seen {
        OneMoreProvider(names, path, route.clientName, Firsts(names, routes[..i]), routes[i]);
        seen := seen + {service};
        rules := rules + [CanonicalRule(names, path, routes[i]), BodyRule(names, route.clientName, routes[i])];
      }
      i := i + 1;
    }
    assert routes[..|routes|] == routes;
    rules := rules + SinkRules(names, path, route);
  }

  // Route i is the first that goes to its Service.
  predicate IsFirst(names: Names, routes: seq<Route>, i: int) {
    0 <= i < |routes| && forall j | 0 <= j < i :: Service(names, routes[j]) != Service(names, routes[i])
  }

  lemma {:induction false} LastIsFirst(names: Names, front: seq<Route>, r: Route)
    ensures IsFirst(names, front + [r], |front|) <==> Service(names, r) !in Services(names, front)
  {
    var routes := front + [r];
    assert routes[|front|] == r && forall j :: 0 <= j < |front| ==> routes[j] == front[j];
    if s :| s in front && Service(names, s) == Service(names, r) {
      var j :| 0 <= j < |front| && front[j] == s;
      assert Service(names, routes[j]) == Service(names, r);
    }
  }

  lemma {:induction false} FrontIsFirst(names: Names, front: seq<Route>, r: Route, i: int)
    requires i < |front|
    ensures IsFirst(names, front + [r], i) <==> IsFirst(names, front, i)
  {
    assert forall j :: 0 <= j < |front| ==> (front + [r])[j] == front[j];
  }

  ghost predicate FirstIs(names: Names, routes: seq<Route>, i: int, r: Route) {
    IsFirst(names, routes, i) && routes[i] == r
  }

  lemma {:induction false} FirstsAreFirst(names: Names, routes: seq<Route>, r: Route)
    ensures r in Firsts(names, routes) <==> exists i :: FirstIs(names, routes, i, r)
  {
    if routes != [] {
      var front, n := routes[..|routes| - 1], |routes| - 1;
      assert routes == front + [routes[n]];
      FirstsAreFirst(names, front, r);
      LastIsFirst(names, front, routes[n]);
      if i :| FirstIs(names, front, i, r) {
        FrontIsFirst(names, front, routes[n], i);
        assert FirstIs(names, routes, i, r);
      }
      if i :| FirstIs(names, routes, i, r) {
        if i < n {
          FrontIsFirst(names, front, routes[n], i);
          assert FirstIs(names, front, i, r);
        }
      }
      if routes[n] == r && IsFirst(names, routes, n) { assert FirstIs(names, routes, n, r); }
    }
  }

  // The two rules of a route: under the model's path, and by the model's name
  // or, if a profile may rewrite the path first, by the path it rewrites to.
  predicate ServesRoute(names: Names, path: string, clientName: string, r: Route, rule: Rule) {
    var id := Some(RouteStableId(r));
    && rule.service == Service(names, r) && rule.endpoint == r.endpoint && rule.timeout == 300 * SECOND
    && (|| rule.matches == [Match(Prefix(path), id, None)]
        || (r.apiTranslationEnabled && r.path != ""
            && rule.matches == [Match(AnyPath, id, Some(clientName)), Match(Exact(r.path), id, None)])
        || (!(r.apiTranslationEnabled && r.path != "") && rule.matches == [Match(AnyPath, id, Some(clientName))]))
  }

  // The two rules that catch what selects no route of the model.
  predicate ServesNone(names: Names, path: string, first: Route, rule: Rule) {
    && rule.service == names.sink(first.model) && rule.endpoint == "" && rule.timeout == 300 * SECOND
    && (|| rule.matches == [Match(Prefix(path), None, None)]
        || rule.matches == [Match(AnyPath, None, Some(first.clientName))])
  }

  lemma {:induction false} RulesOfRoute(names: Names, path: string, clientName: string, r: Route, rule: Rule)
    ensures ServesRoute(names, path, clientName, r, rule) <==>
      rule == CanonicalRule(names, path, r) || rule == BodyRule(names, clientName, r)
  {
  }

  lemma {:induction false} ProviderRulesFrom(names: Names, path: string, clientName: string, firsts: seq<Route>,
                                             rule: Rule)
    ensures rule in ProviderRules(names, path, clientName, firsts) <==>
      exists r :: r in firsts && ServesRoute(names, path, clientName, r, rule)
  {
    if firsts != [] {
      var front, last := firsts[..|firsts| - 1], firsts[|firsts| - 1];
      assert firsts == front + [last];
      ProviderRulesFrom(names, path, clientName, front, rule);
      RulesOfRoute(names, path, clientName, last, rule);
    }
  }

  ghost predicate ServesFirst(names: Names, path: string, routes: seq<Route>, i: int, rule: Rule) {
    IsFirst(names, routes, i) && ServesRoute(names, path, routes[0].clientName, routes[i], rule)
  }

  // The rules are exactly the two of the first route to each provider Service,
  // with that route's endpoint, and the two of the sink, which rewrite nothing;
  // each gives up after 300 seconds.
  lemma {:induction false} RulesAreExact(names: Names, namespace: string, routes: seq<Route>, rule: Rule)
    requires routes != []
    ensures var path := "/" + namespace + "/" + routes[0].clientName;
      rule in RulesOf(names, namespace, routes) <==>
        (exists i :: ServesFirst(names, path, routes, i, rule)) || ServesNone(names, path, routes[0], rule)
  {
    var path := CanonicalPath(namespace, routes);
    ProviderRulesFrom(names, path, routes[0].clientName, Firsts(names, routes), rule);
    SinkRulesAre(names, path, routes[0], rule);
    if r :| r in Firsts(names, routes) && ServesRoute(names, path, routes[0].clientName, r, rule) {
      FirstsAreFirst(names, routes, r);
      var i :| FirstIs(names, routes, i, r);
      assert ServesFirst(names, path, routes, i, rule);
    }
    if i :| ServesFirst(names, path, routes, i, rule) {
      assert FirstIs(names, routes, i, routes[i]);
      FirstsAreFirst(names, routes, routes[i]);
    }
  }

  lemma {:induction false} SinkRulesAre(names: Names, path: string, first: Route, rule: Rule)
    ensures rule in SinkRules(names, path, first) <==> ServesNone(names, path, first, rule)
  {
  }

  // The count that is checked against Gateway API's limit before anything is
  // rendered is the number of rules that are rendered.
  method ModelHTTPRouteRuleCount(names: Names, namespace: string, routes: seq<Route>) returns (count: nat)
    ensures count == |RulesOf(names, namespace, routes)|
  {
    if routes == [] { return 0; }
    count := 2;
    var seen: set<string> := {};
    var i := 0;
    while i < |routes|
      invariant 0 <= i <= |routes|
      invariant seen == Services(names, routes[..i])
      invariant count == 2 + 2 * |Firsts(names, routes[..i])|
    {
      OneMoreFirst(names, routes, i);
      if Service(names, routes[i]) !in seen {
        seen := seen + {Service(names, routes[i])};
        count := count + 2;
      }
      i := i + 1;
    }
    assert routes[..|routes|] == routes;
  }

  // ----- what Envoy does with them -----

  datatype Request = Request(path: string, selected: Option<StableId>, model: Option<string>)

  predicate HeaderMatches(wanted: Option<string>, got: Option<string>) {
    wanted.Some? ==> got == wanted
  }

  // A prefix matches whole path elements.
  predicate Under(path: string, prefix: string) {
    path == prefix || prefix + "/" <= path
  }

  predicate Matches(m: Match, q: Request) {
    && (match m.path
        case AnyPath => true
        case Prefix(p) => Under(q.path, p)
        case Exact(p) => q.path == p)
    && HeaderMatches(m.selected, q.selected) && HeaderMatches(m.model, q.model)
  }

  function PathLength(p: PathMatch): nat {
    match p case AnyPath => 1 case Prefix(s) => |s| case Exact(s) => |s|
  }

  function HeaderCount(m: Match): nat {
    (if m.selected.Some? then 1 else 0) + (if m.model.Some? then 1 else 0)
  }

  // Gateway API's precedence: an exact path, then the longest path, then the
  // most headers.
  predicate Better(a: Match, b: Match) {
    if a.path.Exact? != b.path.Exact? then a.path.Exact?
    else if PathLength(a.path) != PathLength(b.path) then PathLength(a.path) > PathLength(b.path)
    else HeaderCount(a) > HeaderCount(b)
  }

  datatype Alternative = Alternative(m: Match, service: string)

  function AlternativesOf(rule: Rule): (r: seq<Alternative>)
    ensures |r| == |rule.matches| && forall i | 0 <= i < |r| :: r[i] == Alternative(rule.matches[i], rule.service)
  {
    seq(|rule.matches|, i requires 0 <= i < |rule.matches| => Alternative(rule.matches[i], rule.service))
  }

  function Alternatives(rules: seq<Rule>): seq<Alternative> {
    if rules == [] then [] else AlternativesOf(rules[0]) + Alternatives(rules[1..])
  }

  // The best match, the earlier one of equals.
  function Choose(alternatives: seq<Alternative>, q: Request): Option<Alternative> {
    if alternatives == [] then None
    else
      var last := alternatives[|alternatives| - 1];
      var best := Choose(alternatives[..|alternatives| - 1], q);
      if Matches(last.m, q) && (best.None? || Better(last.m, best.value.m)) then Some(last) else best
  }

  // The Service a request is sent to, if any rule matches.
  function Destination(rules: seq<Rule>, q: Request): Option<string> {
    match Choose(Alternatives(rules), q) case None => None case Some(a) => Some(a.service)
  }

  lemma {:induction false} BetterIsTransitive(a: Match, b: Match, c: Match)
    ensures !Better(b, a) && Better(c, a) ==> Better(c, b)
  {
  }

  lemma {:induction false} ChosenIsBest(alternatives: seq<Alternative>, q: Request)
    ensures match Choose(alternatives, q)
            case None => forall a | a in alternatives :: !Matches(a.m, q)
            case Some(c) =>
              && c in alternatives && Matches(c.m, q)
              && forall a | a in alternatives && Matches(a.m, q) :: !Better(a.m, c.m)
  {
    if alternatives != [] {
      var front, last := alternatives[..|alternatives| - 1], alternatives[|alternatives| - 1];
      ChosenIsBest(front, q);
      assert alternatives == front + [last];
      var best := Choose(front, q);
      if best.Some? && Matches(last.m, q) && Better(last.m, best.value.m) {
        forall a | a in front && Matches(a.m, q) ensures !Better(a.m, last.m) {
          if Better(a.m, last.m) { BetterIsTransitive(best.value.m, last.m, a.m); }
        }
      }
    }
  }

  // ----- the alternatives of a model -----

  lemma {:induction false} AlternativesConcat(a: seq<Rule>, b: seq<Rule>)
    ensures Alternatives(a + b) == Alternatives(a) + Alternatives(b)
  {
    if a == [] {
      assert a + b == b;
    } else {
      assert (a + b)[1..] == a[1..] + b;
      AlternativesConcat(a[1..], b);
    }
  }

  lemma {:induction false} PairAlternatives(a: Rule, b: Rule)
    ensures Alternatives([a, b]) == AlternativesOf(a) + AlternativesOf(b)
  {
    assert [a, b][1..] == [b];
    assert Alternatives([b]) == AlternativesOf(b) + Alternatives([]);
    assert AlternativesOf(b) + [] == AlternativesOf(b);
  }

  // A provider alternative belongs to one of the routes and names its identity.
  predicate OfRoute(names: Names, path: string, clientName: string, r: Route, a: Alternative) {
    && a.service == Service(names, r)
    && (|| a.m == Match(Prefix(path), Some(RouteStableId(r)), None)
        || a.m == Match(AnyPath, Some(RouteStableId(r)), Some(clientName))
        || (Rewrites(r) && a.m == Match(Exact(r.path), Some(RouteStableId(r)), None)))
  }

  ghost predicate OfSome(names: Names, path: string, clientName: string, firsts: seq<Route>, a: Alternative) {
    exists r :: r in firsts && OfRoute(names, path, clientName, r, a)
  }

  lemma {:induction false} RouteAlternatives(names: Names, path: string, clientName: string, r: Route, a: Alternative)
    ensures a in Alternatives([CanonicalRule(names, path, r), BodyRule(names, clientName, r)])
       <==> OfRoute(names, path, clientName, r, a)
  {
    var canonical, body := CanonicalRule(names, path, r), BodyRule(names, clientName, r);
    PairAlternatives(canonical, body);
    assert AlternativesOf(canonical)[0] == Alternative(canonical.matches[0], canonical.service);
    assert AlternativesOf(body)[0] == Alternative(body.matches[0], body.service);
    if Rewrites(r) { assert AlternativesOf(body)[1] == Alternative(body.matches[1], body.service); }
  }

  lemma {:induction false} ProviderAlternatives(names: Names, path: string, clientName: string, firsts: seq<Route>,
                                                a: Alternative)
    ensures a in Alternatives(ProviderRules(names, path, clientName, firsts))
       <==> OfSome(names, path, clientName, firsts, a)
  {
    if firsts != [] {
      var front, last := firsts[..|firsts| - 1], firsts[|firsts| - 1];
      ProviderAlternatives(names, path, clientName, front, a);
      RouteAlternatives(names, path, clientName, last, a);
      AlternativesConcat(ProviderRules(names, path, clientName, front),
                         [CanonicalRule(names, path, last), BodyRule(names, clientName, last)]);
      assert firsts == front + [last];
    }
  }

  predicate OfSink(names: Names, path: string, first: Route, a: Alternative) {
    a.service == names.sink(first.model)
    && (a.m == Match(Prefix(path), None, None) || a.m == Match(AnyPath, None, Some(first.clientName)))
  }

  lemma {:induction false} ModelAlternatives(names: Names, namespace: string, routes: seq<Route>, a: Alternative)
    requires routes != []
    ensures var path := CanonicalPath(namespace, routes);
      a in Alternatives(RulesOf(names, namespace, routes))
      <==> OfSome(names, path, routes[0].clientName, Firsts(names, routes), a) || OfSink(names, path, routes[0], a)
  {
    var path := CanonicalPath(namespace, routes);
    var sinks := SinkRules(names, path, routes[0]);
    ProviderAlternatives(names, path, routes[0].clientName, Firsts(names, routes), a);
    AlternativesConcat(ProviderRules(names, path, routes[0].clientName, Firsts(names, routes)), sinks);
    PairAlternatives(sinks[0], sinks[1]);
    assert AlternativesOf(sinks[0])[0] == Alternative(sinks[0].matches[0], sinks[0].service);
    assert AlternativesOf(sinks[1])[0] == Alternative(sinks[1].matches[0], sinks[1].service);
  }

  // ----- where requests go -----

  // Each provider Service of the model has one identity.
  predicate OneIdPerService(names: Names, routes: seq<Route>) {
    forall a, b | a in routes && b in routes ::
      RouteStableId(a) == RouteStableId(b) <==> Service(names, a) == Service(names, b)
  }

  // A request for the model: under its path, or naming it.
  predicate ForModel(namespace: string, routes: seq<Route>, q: Request)
    requires routes != []
  {
    Under(q.path, CanonicalPath(namespace, routes)) || q.model == Some(routes[0].clientName)
  }

  predicate Selects(q: Request, r: Route) {
    q.selected == Some(RouteStableId(r))
  }

  // A request already rewritten to the selected route's own path.
  predicate Rewritten(names: Names, routes: seq<Route>, q: Request) {
    exists f :: f in Firsts(names, routes) && Rewrites(f) && q.path == f.path && Selects(q, f)
  }

  lemma {:induction false} FirstsCover(names: Names, routes: seq<Route>, r: Route)
    requires r in routes
    ensures exists f :: f in Firsts(names, routes) && Service(names, f) == Service(names, r)
    ensures forall f | f in Firsts(names, routes) :: f in routes
  {
    var front, last := routes[..|routes| - 1], routes[|routes| - 1];
    assert routes == front + [last];
    if r in front {
      FirstsCover(names, front, r);
    } else if Service(names, last) in Services(names, front) {
      var s :| s in front && Service(names, s) == Service(names, last);
      FirstsCover(names, front, s);
    }
    if front != [] { FirstsCover(names, front, front[0]); }
  }

  // The candidate ExtProc selected decides the provider: Envoy sends the
  // request to the Service of exactly the route with the selected identity.
  lemma {:induction false} SelectedReachesItsProvider(names: Names, namespace: string, routes: seq<Route>, q: Request,
                                                      r: Route)
    requires r in routes && Selects(q, r) && OneIdPerService(names, routes)
    requires ForModel(namespace, routes, q) || Rewritten(names, routes, q)
    ensures Destination(RulesOf(names, namespace, routes), q) == Some(Service(names, r))
  {
    var path, client := CanonicalPath(namespace, routes), routes[0].clientName;
    var all := Alternatives(RulesOf(names, namespace, routes));
    FirstsCover(names, routes, r);
    var f :| f in Firsts(names, routes) && Service(names, f) == Service(names, r);
    var mine: Alternative;
    if Under(q.path, path) {
      mine := Alternative(Match(Prefix(path), Some(RouteStableId(f)), None), Service(names, f));
    } else if q.model == Some(client) {
      mine := Alternative(Match(AnyPath, Some(RouteStableId(f)), Some(client)), Service(names, f));
    } else {
      f :| f in Firsts(names, routes) && Rewrites(f) && q.path == f.path && Selects(q, f);
      mine := Alternative(Match(Exact(f.path), Some(RouteStableId(f)), None), Service(names, f));
    }
    assert OfRoute(names, path, client, f, mine) && Matches(mine.m, q);
    ModelAlternatives(names, namespace, routes, mine);
    ChosenIsBest(all, q);
    var best := Choose(all, q).value;
    ModelAlternatives(names, namespace, routes, best);
    if OfSink(names, path, routes[0], best) {
      assert !Better(mine.m, best.m) || !Matches(best.m, q);
      ProviderBeatsSink(path, client, mine.m, best.m);
    } else {
      OwnerIsSelected(names, path, client, routes, q, best);
    }
  }

  lemma {:induction false} ProviderBeatsSink(path: string, client: string, mine: Match, sink: Match)
    requires |path| > 1 && mine.selected.Some?
    requires sink == Match(Prefix(path), None, None) || sink == Match(AnyPath, None, Some(client))
    ensures mine.path == Prefix(path) || mine.path.Exact? ==> Better(mine, sink)
    ensures mine.path == AnyPath && mine.model.Some? && sink.path == AnyPath ==> Better(mine, sink)
  {
  }

  // Without a selection of this model's routes a request reaches the sink,
  // never a provider, and a request that is not for the model reaches nothing.
  lemma {:induction false} UnselectedReachesNoProvider(names: Names, namespace: string, routes: seq<Route>, q: Request)
    requires routes != [] && forall r | r in routes :: !Selects(q, r)
    ensures Destination(RulesOf(names, namespace, routes), q)
         == if ForModel(namespace, routes, q) then Some(names.sink(routes[0].model)) else None
  {
    var path, client := CanonicalPath(namespace, routes), routes[0].clientName;
    var all := Alternatives(RulesOf(names, namespace, routes));
    ChosenIsBest(all, q);
    FirstsCover(names, routes, routes[0]);
    var canonical := Alternative(Match(Prefix(path), None, None), names.sink(routes[0].model));
    var body := Alternative(Match(AnyPath, None, Some(client)), names.sink(routes[0].model));
    ModelAlternatives(names, namespace, routes, canonical);
    ModelAlternatives(names, namespace, routes, body);
    match Choose(all, q)
    case None =>
      assert !Matches(canonical.m, q) && !Matches(body.m, q);
    case Some(best) =>
      ModelAlternatives(names, namespace, routes, best);
      if OfSome(names, path, client, Firsts(names, routes), best) {
        OwnerIsSelected(names, path, client, routes, q, best);
      }
  }

  lemma {:induction false} OwnerIsSelected(names: Names, path: string, client: string, routes: seq<Route>, q: Request,
                                           a: Alternative)
    requires routes != [] && OfSome(names, path, client, Firsts(names, routes), a) && Matches(a.m, q)
    ensures exists r :: r in routes && Selects(q, r) && a.service == Service(names, r)
  {
    FirstsCover(names, routes, routes[0]);
    var owner :| owner in Firsts(names, routes) && OfRoute(names, path, client, owner, a);
    assert owner in routes && Selects(q, owner);
  }

  function RoutesOf(bs: seq<Selection.Binding>): (r: seq<Route>)
    ensures |r| == |bs| && forall i | 0 <= i < |r| :: r[i] == bs[i].route
  {
    seq(|bs|, i requires 0 <= i < |bs| => bs[i].route)
  }

  // The two planes agree: for the routes of one model, Envoy carries a request
  // for a published candidate to the cluster that candidate names.
  lemma {:induction false} PlanesAgree(names: Names, namespace: string, bs: seq<Selection.Binding>,
                                       scope: Envelopes.Scope,
                                       opts: Envelopes.Options, i: nat, q: Request)
    requires i < |bs| && OneIdPerService(names, RoutesOf(bs))
    requires forall b | b in bs ::
      b.route.clientName == bs[0].route.clientName && b.route.cluster == Service(names, b.route)
    ensures |SelectionOdds.Appended(bs, scope, opts)| == |bs|
    ensures var c := SelectionOdds.Appended(bs, scope, opts)[i];
      q.selected == Some(c.stableId) && q.model == Some(c.name) ==>
        Destination(RulesOf(names, namespace, RoutesOf(bs)), q) == Some(c.cluster)
  {
    SelectionOdds.AppendedAt(bs, scope, opts, i);
    var c, routes := SelectionOdds.Appended(bs, scope, opts)[i], RoutesOf(bs);
    assert bs[i] in bs && routes[i] in routes && routes[0] == bs[0].route;
    if q.selected == Some(c.stableId) && q.model == Some(c.name) {
      SelectedReachesItsProvider(names, namespace, routes, q, routes[i]);
    }
  }
}
