// Routes of models or providers outside a tenant's namespace, made fit for the
// tenant's overlay: a scoped identity, and a credential inside the namespace.
module Localize {
  import opened Envelopes
  import opened Overlays
  import Resolver
  import opened Routes
  import opened Selection
  import opened SelectionOdds
  import opened StableIds
  import opened Wrappers

  datatype CredentialCopy = CredentialCopy(
    name: string, sourceNamespace: string, sourceName: string, key: string, header: string)

  // Names the tenant's copy of a source Secret for a provider-boundary header,
  // by a shortened digest of all five.
  type CopyNames = (string, string, string, string, string) -> string

  predicate Home(tenant: string, r: Route) {
    r.namespace == tenant && !CrossNamespace(r)
  }

  function HeaderOf(r: Route): string {
    match StrategyFor(r) case Ok(s) => s.header case Err(_) => ""
  }

  // A Secret already in the tenant's namespace is used as it is, unless the
  // provider needs a header, which only a copy carries.
  predicate NeedsCopy(tenant: string, r: Route) {
    !Home(tenant, r) && r.authType != "" && (SecretRefNamespace(r) != tenant || HeaderOf(r) != "")
  }

  function CopyFor(names: CopyNames, tenant: string, r: Route): CredentialCopy {
    var source, header := SecretRefNamespace(r), HeaderOf(r);
    CredentialCopy(names(tenant, source, r.secretName, r.secretKey, header), source, r.secretName, r.secretKey, header)
  }

  function Localized(sha: string -> string, names: CopyNames, tenant: string, r: Route): Route {
    if Home(tenant, r) then r
    else
      var scoped := r.(stableId := ScopedStableId(sha, r.namespace, r.model, r.providerNamespace, r.provider));
      if NeedsCopy(tenant, r) then scoped.(secretName := CopyFor(names, tenant, r).name, secretNamespace := tenant)
      else scoped
  }

  function LocalizedAll(sha: string -> string, names: CopyNames, tenant: string, routes: seq<Route>): (r: seq<Route>)
    ensures |r| == |routes| && forall i | 0 <= i < |r| :: r[i] == Localized(sha, names, tenant, routes[i])
  {
    seq(|routes|, i requires 0 <= i < |routes| => Localized(sha, names, tenant, routes[i]))
  }

  // The copies the routes need, each once.
  function CopiesOf(names: CopyNames, tenant: string, routes: seq<Route>): seq<CredentialCopy> {
    if routes == [] then []
    else
      var front, last := CopiesOf(names, tenant, routes[..|routes| - 1]), routes[|routes| - 1];
      if NeedsCopy(tenant, last) && CopyFor(names, tenant, last) !in front then front + [CopyFor(names, tenant, last)]
      else front
  }

  method LocalizeOne(sha: string -> string, names: CopyNames, tenant: string, route: Route)
    returns (localized: Route, copied: Option<CredentialCopy>)
    ensures localized == Localized(sha, names, tenant, route)
    ensures copied == if NeedsCopy(tenant, route) then Some(CopyFor(names, tenant, route)) else None
  {
    localized, copied := route, None;
    if Home(tenant, route) { return; }
    localized := localized.(
      stableId := ScopedStableId(sha, route.namespace, route.model, route.providerNamespace, route.provider));
    if route.authType == "" { return; }
    var header, source := HeaderOf(route), SecretRefNamespace(route);
    if source == tenant && header == "" { return; }
    var name := names(tenant, source, route.secretName, route.secretKey, header);
    copied := Some(CredentialCopy(name, source, route.secretName, route.secretKey, header));
    localized := localized.(secretName := name, secretNamespace := tenant);
  }

  lemma {:induction false} CopiesStep(names: CopyNames, tenant: string, routes: seq<Route>, i: nat)
    requires i < |routes|
    ensures var front, c := CopiesOf(names, tenant, routes[..i]), CopyFor(names, tenant, routes[i]);
      CopiesOf(names, tenant, routes[..i + 1])
      == if NeedsCopy(tenant, routes[i]) && c !in front then front + [c] else front
  {
    assert routes[..i + 1][..i] == routes[..i];
  }

  // Route i of routes, with the copies of the routes before it.
  method LocalizeNext(sha: string -> string, names: CopyNames, tenant: string, ghost routes: seq<Route>, ghost i: nat,
                      route: Route, copies: seq<CredentialCopy>)
    returns (localized: Route, more: seq<CredentialCopy>)
    requires i < |routes| && route == routes[i] && copies == CopiesOf(names, tenant, routes[..i])
    ensures localized == LocalizedAll(sha, names, tenant, routes)[i]
    ensures more == CopiesOf(names, tenant, routes[..i + 1])
  {
    var copied;
    localized, copied := LocalizeOne(sha, names, tenant, route);
    CopiesStep(names, tenant, routes, i);
    more := if copied.Some? && copied.value !in copies then copies + [copied.value] else copies;
  }

  method LocalizeRoutes(sha: string -> string, names: CopyNames, tenant: string, routes: array<Route>)
    returns (copies: seq<CredentialCopy>)
    modifies routes
    ensures routes[..] == LocalizedAll(sha, names, tenant, old(routes[..]))
    ensures copies == CopiesOf(names, tenant, old(routes[..]))
  {
    copies := [];
    ghost var before := routes[..];
    ghost var after := LocalizedAll(sha, names, tenant, before);
    var i := 0;
    while i < routes.Length
      invariant 0 <= i <= routes.Length == |before| == |after|
      invariant forall k :: 0 <= k < i ==> routes[k] == after[k]
      invariant forall k :: i <= k < routes.Length ==> routes[k] == before[k]
      invariant copies == CopiesOf(names, tenant, before[..i])
    {
      var localized;
      localized, copies := LocalizeNext(sha, names, tenant, before, i, routes[i], copies);
      routes[i] := localized;
      i := i + 1;
    }
    assert before[..|before|] == before;
  }

  // ----- credentials -----

  // Every credential of a localized route is a Secret of the tenant's own
  // namespace, whichever namespaces its model and provider are in.
  lemma {:induction false} CredentialsAreLocal(sha: string -> string, names: CopyNames, tenant: string,
                                               shortHash: string -> string, m: Resolver.Model, ref: Resolver.Ref,
                                               p: Resolver.Provider, t: Resolver.Transport, translation: bool)
    requires tenant != "" && p.key.namespace != ""
    ensures var r := Resolver.RouteOf(shortHash, m, ref, p, t, translation);
      r.authType != "" ==> SecretRefNamespace(Localized(sha, names, tenant, r)) == tenant
  {
    var r := Resolver.RouteOf(shortHash, m, ref, p, t, translation);
    assert r.secretNamespace != "" ==> CrossNamespace(r);
  }

  lemma {:induction false} CopiesAreExact(names: CopyNames, tenant: string, routes: seq<Route>, c: CredentialCopy)
    ensures c in CopiesOf(names, tenant, routes)
       <==> exists r :: r in routes && NeedsCopy(tenant, r) && CopyFor(names, tenant, r) == c
    ensures forall i, j | 0 <= i < j < |CopiesOf(names, tenant, routes)| ::
      CopiesOf(names, tenant, routes)[i] != CopiesOf(names, tenant, routes)[j]
  {
    if routes != [] {
      CopiesAreExact(names, tenant, routes[..|routes| - 1], c);
      assert routes == routes[..|routes| - 1] + [routes[|routes| - 1]];
    }
  }

  // The header a provider takes its key in, none for a bearer token.
  predicate KeyHeader(r: Route, header: string) {
    if r.authType == "apikey" && r.providerType == "anthropic" && r.apiFormat == "messages" then
      header == "x-api-key"
    else if r.authType == "apikey" && r.providerType in {"azure", "azure-openai"} && r.apiFormat == "openai-chat" then
      header == "api-key"
    else header == ""
  }

  // The Secret of a route, and the copy that stands in for it in the tenant's
  // namespace.
  predicate Copies(names: CopyNames, tenant: string, r: Route, c: CredentialCopy) {
    && c.sourceNamespace == (if r.secretNamespace == "" then r.namespace else r.secretNamespace)
    && c.sourceName == r.secretName && c.key == r.secretKey && KeyHeader(r, c.header)
    && c.name == names(tenant, c.sourceNamespace, c.sourceName, c.key, c.header)
  }

  // A route from elsewhere, authenticated, whose Secret is elsewhere too or is
  // wanted in a header.
  predicate WantsCopy(tenant: string, r: Route) {
    && (r.namespace != tenant || (r.providerNamespace != "" && r.providerNamespace != r.namespace))
    && r.authType != ""
    && (tenant != (if r.secretNamespace == "" then r.namespace else r.secretNamespace) || !KeyHeader(r, ""))
  }

  // The tenant's own routes are left alone. Any other keeps everything but its
  // identity, which names model and provider with their namespaces, and, when
  // it wants a copy, its Secret, which is then a returned copy of its own.
  lemma {:induction false} LocalizedIsExact(sha: string -> string, names: CopyNames, tenant: string,
                                            routes: seq<Route>, i: nat)
    requires i < |routes|
    ensures var r, l := routes[i], LocalizedAll(sha, names, tenant, routes)[i];
      var elsewhere := r.namespace != tenant || (r.providerNamespace != "" && r.providerNamespace != r.namespace);
      && l == r.(stableId := l.stableId, secretName := l.secretName, secretNamespace := l.secretNamespace)
      && l.stableId == (if elsewhere then ScopedStableId(sha, r.namespace, r.model, r.providerNamespace, r.provider)
                        else r.stableId)
      && if WantsCopy(tenant, r) then
           l.secretNamespace == tenant && exists c ::
             c in CopiesOf(names, tenant, routes) && Copies(names, tenant, r, c) && l.secretName == c.name
         else l.secretName == r.secretName && l.secretNamespace == r.secretNamespace
  {
    var r := routes[i];
    if WantsCopy(tenant, r) {
      assert Copies(names, tenant, r, CopyFor(names, tenant, r));
      assert r in routes && NeedsCopy(tenant, r);
      CopiesAreExact(names, tenant, routes, CopyFor(names, tenant, r));
    }
  }

  // And every copy is some route's.
  lemma {:induction false} EveryCopyIsUsed(sha: string -> string, names: CopyNames, tenant: string,
                                           routes: seq<Route>, c: CredentialCopy) returns (i: nat)
    requires c in CopiesOf(names, tenant, routes)
    ensures i < |routes| && WantsCopy(tenant, routes[i]) && Copies(names, tenant, routes[i], c)
    ensures LocalizedAll(sha, names, tenant, routes)[i].secretName == c.name
  {
    CopiesAreExact(names, tenant, routes, c);
    var r :| r in routes && NeedsCopy(tenant, r) && CopyFor(names, tenant, r) == c;
    i :| 0 <= i < |routes| && routes[i] == r;
  }

  ghost predicate Separates(names: CopyNames) {
    forall t, s, n, k, h, t', s', n', k', h' ::
      names(t, s, n, k, h) == names(t', s', n', k', h') ==> t == t' && s == s' && n == n' && k == k' && h == h'
  }

  // With collision-free names no copy stands in for another: routes that
  // share a copy share the source Secret, its key and the header.
  lemma {:induction false} SharedCopySharesSource(sha: string -> string, names: CopyNames, tenant: string, a: Route,
                                                  b: Route)
    requires Separates(names) && NeedsCopy(tenant, a) && NeedsCopy(tenant, b)
    requires Localized(sha, names, tenant, a).secretName == Localized(sha, names, tenant, b).secretName
    ensures CopyFor(names, tenant, a) == CopyFor(names, tenant, b)
    ensures HeaderOf(a) == HeaderOf(b) && SecretRefNamespace(a) == SecretRefNamespace(b)
    ensures a.secretName == b.secretName && a.secretKey == b.secretKey
  {
  }

  // ----- identities -----

  function SourceOf(tenant: string, r: Route): Source {
    if Home(tenant, r) then Local(r.model, r.provider)
    else Scoped(r.namespace, r.model, r.providerNamespace, r.provider)
  }

  // A route as the resolver makes it, before any identity is set.
  ghost predicate Plain(r: Route) {
    && r.stableId == "" && r.namespace != ""
    && Printable(Scoped(r.namespace, r.model, r.providerNamespace, r.provider))
  }

  predicate SameSource(a: Route, b: Route) {
    a.namespace == b.namespace && a.model == b.model
    && a.providerNamespace == b.providerNamespace && a.provider == b.provider
  }

  lemma {:induction false} LocalizedId(sha: string -> string, names: CopyNames, tenant: string, r: Route)
    requires Plain(r) && HexDigest(sha)
    ensures RouteStableId(Localized(sha, names, tenant, r)) == Print(sha, SourceOf(tenant, r))
  {
    var fields := [r.namespace, r.model, r.providerNamespace, r.provider];
    assert Join(fields) == fields[0] + "/" + Join(fields[1..]);
    assert ScopedStableId(sha, r.namespace, r.model, r.providerNamespace, r.provider) != "";
  }

  // Two routes get one identity only when they are the same model's binding of
  // the same provider.
  lemma {:induction false} LocalizedIdsAreUnambiguous(sha: string -> string, names: CopyNames, tenant: string,
                                                      a: Route, b: Route)
    requires HexDigest(sha) && Plain(a) && Plain(b)
    ensures RouteStableId(Localized(sha, names, tenant, a)) == RouteStableId(Localized(sha, names, tenant, b))
       <==> SameSource(a, b)
  {
    LocalizedId(sha, names, tenant, a);
    LocalizedId(sha, names, tenant, b);
    var s, t := SourceOf(tenant, a), SourceOf(tenant, b);
    if Print(sha, s) == Print(sha, t) { PrintInjective(sha, s, t); }
  }

  // Every overlay published from localized routes, however many namespaces
  // they come from, has a distinct identity on each candidate it adds.
  lemma {:induction false} PublishedIdsAreDistinct(sha: string -> string, names: CopyNames, tenant: string,
                                                   routes: seq<Route>,
                                                   bs: seq<Binding>, scope: Scope, opts: Options, i: nat, j: nat)
    requires HexDigest(sha) && i < j < |bs| == |routes|
    requires forall k | 0 <= k < |bs| :: bs[k].route == LocalizedAll(sha, names, tenant, routes)[k]
    requires Plain(routes[i]) && Plain(routes[j]) && !SameSource(routes[i], routes[j])
    ensures |Appended(bs, scope, opts)| == |bs|
    ensures Appended(bs, scope, opts)[i].stableId != Appended(bs, scope, opts)[j].stableId
  {
    AppendedAt(bs, scope, opts, i);
    AppendedAt(bs, scope, opts, j);
    LocalizedIdsAreUnambiguous(sha, names, tenant, routes[i], routes[j]);
  }
}
