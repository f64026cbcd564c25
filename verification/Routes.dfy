// One resolved (model, provider) pair: the record both output planes, Envoy's
// rules and the routing overlay, are rendered from.
module Routes {
  import opened Overlays
  import opened StableIds

  // An empty stableId keeps the tenant-local form; an empty providerNamespace
  // or secretNamespace means namespace; port 0 means unset.
  datatype Route = Route(
    model: string, clientName: string, namespace: string,
    provider: string, providerNamespace: string, providerType: string,
    cluster: string, endpoint: string, port: int,
    tlsCACertificates: string, tlsCredentialName: string,
    targetModel: string, apiFormat: string, path: string, apiTranslationEnabled: bool,
    weight: int, authType: string, secretName: string, secretKey: string,
    stableId: StableId, secretNamespace: string)

  const NO_ROUTE := Route("", "", "", "", "", "", "", "", 0, "", "", "", "", "", false, 0, "", "", "", "", "")

  const PROVIDER_SERVICE_PREFIX := "provider-"

  predicate CrossNamespace(r: Route) {
    r.providerNamespace != "" && r.providerNamespace != r.namespace
  }

  function RouteStableId(r: Route): StableId {
    if r.stableId != "" then r.stableId else CandidateStableId(r.model, r.provider)
  }

  function RouteIds(routes: seq<Route>): set<StableId> {
    set r | r in routes :: RouteStableId(r)
  }

  // The candidate a route stands for, by its provider.
  function TargetOf(r: Route): Source {
    if CrossNamespace(r) then Scoped(r.namespace, r.model, r.providerNamespace, r.provider)
    else Local(r.model, r.provider)
  }

  // And the one it is named by, which may be the local form of it.
  function IdOf(r: Route): Source {
    if RouteStableId(r) == CandidateStableId(r.model, r.provider) then Local(r.model, r.provider) else TargetOf(r)
  }

  // A rule that matches the identity id and sends to the provider of
  // target.
  datatype Bound = Bound(id: Source, target: Source)

  function BoundOf(r: Route): Bound {
    Bound(IdOf(r), TargetOf(r))
  }

  function Bounds(routes: seq<Route>): set<Bound> {
    set r | r in routes :: BoundOf(r)
  }

  function Native(candidates: set<Source>): set<Bound> {
    set c | c in candidates :: Bound(c, c)
  }

  function Ids(rules: set<Bound>): set<Source> {
    set x | x in rules :: x.id
  }

  function Targets(rules: set<Bound>): set<Source> {
    set x | x in rules :: x.target
  }

  function SecretRefNamespace(r: Route): string {
    if r.secretNamespace != "" then r.secretNamespace else r.namespace
  }

  // The transport Service of a provider; shortHash is the truncated digest
  // that separates same-named providers of different namespaces. Truncation of
  // over-long names is not part of this model.
  function ServiceName(shortHash: string -> string, r: Route): string {
    if !CrossNamespace(r) then PROVIDER_SERVICE_PREFIX + r.provider
    else PROVIDER_SERVICE_PREFIX + r.provider + "-" + shortHash(r.providerNamespace + "/" + r.provider)
  }
}
