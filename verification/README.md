# AI gateway controller: a verified model

The AI gateway controller turns `ExternalModel` and `ExternalProvider` objects
into two planes that must agree: Envoy rules that carry requests to providers,
and a routing overlay (a ConfigMap) that tells the ExtProc pods which provider
candidates exist. This project models the parts of the controller whose
correctness is a matter of ordering, state and arithmetic, and proves what they
promise. `dafny verify dfyconfig.toml` checks everything.

## What is modelled

**Staged provider withdrawal** (`Drain`, `Rollout`, `RolloutTheorems`, `Staging`,
`StagingTheorems`, `AppliedRoutes`, `StagedRules`, `Rereading`, `StagingStep`,
`Reconcile`, `WithdrawalProtocol`, `StableIds`, `Routes`). The drain annotation is a class whose methods rewrite
it; the rollout check is the three loops over pods, replica sets and endpoint
slices; staging is the two passes over applied rules, as they are parsed back
from HTTPRoutes, and published candidates. They are tied together by a
transition system with a clock, pods that reload on their own, requests in
flight with deadlines, applying and pruning that can stop after any of the
HTTPRoutes, a controller that can fail between any two steps, and reconciles of
models attached from other namespaces that share the overlay and the
annotation. A rule of that system is the candidate whose identity it matches
and the candidate whose provider it sends to. `Reconcile` proves that parsing
the HTTPRoutes of a tenant back, staging and rendering again are the system's
stage and apply steps, and that requests go where the system says.

**Rendering and the revision chain** (`Resolver`, `ResolverTheorems`,
`ResolvedRoutes`, `Selection`, `SelectionOdds`, `Localize`, `Envelope`,
`RenderedEnvelopes`, `Json`, `JsonRecords`, `WireDigest`, `WireFields`,
`Publisher`, `Ordering`, `PathTemplate`). Resolution in both
modes, the selection metadata, the JSON document with canonicalisation by
section 3.2.3 of RFC 8785, the digest computed from the structure and the one
recomputed from the wire, and publication as a class over the ConfigMap.

**The Envoy plane of a model** (`HttpRoutes`). The HTTPRoute rules rendered from
a model's routes, an interpreter for Gateway API's match precedence, and the
agreement of the two planes.

**Guardrail catalog compiler** (`Catalog`, `NemoCompiler`). Ordering and
deduplication of attachments, fail-closed callouts, the filters of the ExtProc
chain, and an interpreter that walks the chain forwards for requests and
backwards for responses.

**Smaller algorithms**: the backend handoff with its compare-and-swap claim
(`Handoff`), attachment admission (`Admission`), retained attachment rules
(`RetainedRules`), and the command-line filter against a model of Go's
`flag.Parse` (`Flags`).

## Assumptions

Stated where they are used, and collected here.

- The clock is monotone; a pod only ever moves to the currently published
  overlay; a request chosen by a pod reaches Envoy within the 10 s safety
  margin and its rule times out after 300 s.
- An overlay revision is a digest of its content, so it is identified with that
  content; where digests appear as text, SHA-256 is an arbitrary function of
  the canonical document, injective where a lemma says so.
- One controller worker at a time per tenant. A safe verdict is computed from a
  snapshot in which the endpoints that take traffic are the serving pods, and
  shows what each last reported.
- The tenant's own routes carry the identities that localizing them gives, and
  published local candidates name their provider's own Service.
- Shortened digests are hexadecimal and tell a tenant's providers apart, and no
  local provider is named like the transport of another namespace's provider,
  so different providers have different Services.
- Provider endpoints are not empty, and looking up the provider of a transport
  finds the one it belongs to, or none when that is gone.
- Kubernetes names are not empty and contain no slash.
- The Deployment controller writes a status for the generation it observed, and
  counts the pods of that moment against that generation's template; replicas
  are set in the spec, as the API server defaults them.
- Gateway API's match precedence: an exact path, then the longest path prefix,
  then the most header matches, then the earlier rule.
- The peer controller obeys the status contract of
  `pkg/tenant/constants.go:83-98`, and this controller's reads are never older
  than its own last write.
- Results of calls into code outside the model (transport validation, the API
  server accepting a write, NeMo's verdicts, whether a flag's `Set` takes a
  value) are parameters.

## What turned out to need a condition

- **Names under which staging drops a rule.** Staging is meant to keep the rule
  of every candidate that is published or still served. It does not in five
  cases, each a test on names and on what was found:
  - a provider of another namespace, once the reduced overlay is published: an
    applied rule is read back without its scoped identity
    (`pkg/controller/withdrawal.go:381-465`), which only a published candidate
    restores (`pkg/controller/withdrawal.go:145-176`), so the retry renders it
    under the local identity while pods still select the scoped one;
  - a provider named `selection-required-…`, or `selection-required` in another
    namespace: its Service has the prefix of the sinks, so its rule is never
    read back (`pkg/controller/withdrawal.go:424`); only the published overlay
    keeps it, and only while the provider object exists;
  - an identity over 256 bytes: the hashed form belongs to no tenant, so the
    candidate is never staged, not even while it is published;
  - a local provider that is withdrawn while one of the same name in another
    namespace stays: the desired one also goes by the local identity
    (`pkg/controller/withdrawal.go:221-227`) and hides it;
  - two same-named providers that are both withdrawn: their rules come back
    under one identity.

  `WithdrawalProtocol.StrandingIsExact` proves that what is published, and what
  pods serve, stays routed exactly when none of these applies;
  `StrandingIsReachable` and `ClashIsReachable` give runs for each.
  `OrdinaryNamesSuffice` proves that with distinct names that are read back
  everything published stays routed in every run, and everything served when all
  providers are the tenant's own.
- **Transport that goes without a drain.** Where a dropped rule is not kept under
  another identity either, applying removes the provider's transport at once,
  and the dropped rule makes no withdrawal pending.
  `WithdrawalProtocol.CutIsExact` proves that this cuts a request in flight
  exactly when its rule is not read back, or a desired candidate goes by its
  identity, and the published overlay does not restore it; `LossIsReachable`
  gives the runs, and `NoRequestIsCut` proves that otherwise nothing is cut.
- **Two providers under one identity.** Envoy then sends every request for it to
  the rule that stands first, and kept rules stand in map order.
  `StagedRules.EveryRouteIsReached` proves that all requests reach the provider
  of their route exactly when no two providers are under one identity,
  `Reconcile.SameNamesClash` derives the failure from the HTTPRoutes of any
  tenant with two such providers, and `AppliedRoutes.ClashMixesTransports` shows
  that the next reading puts the other provider's endpoint into the local one's
  profile when its rule is the last.
- **Republishing a drained overlay.** Revisions are content addressed and an
  unknown observation leaves the stored start time alone
  (`pkg/controller/withdrawal.go:652-654`). If overlay A drains, B is published
  without any recorded observation, and A is published again, A's old start
  time authorises pruning at once. `WithdrawalProtocol.StaleIsExact` proves
  that publishing A, if it has candidates of the tenant, can lead to a prune
  under a request exactly when A's clock is stale in this way and something
  outside A is still exposed: the published overlay or some pod's overlay has a
  candidate outside A, or a request to one outlasts the stored clock.
  `CutIsReachable` gives the run, and `PruneNeverCuts` proves that no prune cuts
  a request without a stale clock.
- **Signalling cleanup from an unclaimed copy.** The finalizer is added before
  the claim, so switching Praxis off before it ever claimed runs the cleanup
  and writes `cleanup-complete` over an absent status while legacy may still be
  live. `Handoff.OverwriteIsExact` proves that both dataplanes can become live
  exactly then, and `BothLiveIsReachable` gives the run. Praxis alone still
  exists only while the status is `steady`, without any condition.
- **The wire digest of a document with stray keys.** The overlay section is
  decoded into the map that already holds the document
  (`pkg/envelope/envelope.go:651-667`), so one of the four semantic keys beside
  the section fills a gap of the section. The comment above the function
  describes the digest of the section alone;
  `WireDigests.SectionDigestIsExact` proves the two agree exactly when no such
  key leaks. Documents this controller writes never have one.
- **Order of path configuration keys.** A value that names another placeholder
  makes the order matter (`PathTemplate.ChainedValuesDependOnOrder`): one order
  fills the other's placeholder and the other order leaves it. That is why the
  code sorts; without braces in names and values no order matters.

## Model

| member | source | states |
|---|---|---|
| Drain.OverlayConfigMap.WithdrawalDrainRemaining | pkg/controller/withdrawal.go:904-944 | the annotation and the wait after a known observation; a refused write leaves the annotation |
| Drain.OverlayConfigMap.ClearWithdrawalDrainState | pkg/controller/withdrawal.go:946-959 | clearing removes the stored clock |
| Drain.ReplayIsSeriesStart | pkg/controller/withdrawal.go:904-959 | over any history the annotation holds the first observation of the current unbroken series of safe observations at one revision, and nothing when there is none |
| Drain.ZeroWaitIffDrained | pkg/controller/withdrawal.go:46-67 | a zero wait is returned if and only if the observations were safe at this revision, uninterrupted, for at least 310 s |
| Drain.WaitIsTheRest | pkg/controller/withdrawal.go:904-944 | over any history an unsafe observation waits five seconds and ends the series, and a safe one waits what is left of 310 s since the first observation of its unbroken series |
| Drain.UnreadableStays | pkg/controller/withdrawal.go:914-944 | an annotation that cannot be read stays exactly until an observation is safe, which starts the drain anew, or the state is cleared |
| Rollout.ReadServingRevision | pkg/controller/withdrawal.go:843-863 | the last report in a pod's log decides whether it serves the revision, does not, or is undecided |
| Rollout.FindCurrent | pkg/controller/withdrawal.go:766-800 | finds the first of the owned ReplicaSets with the greatest revision, and none only when every owned one has a negative revision |
| Rollout.PodsSafe | pkg/controller/withdrawal.go:766-841 | safe if and only if exactly the newest ReplicaSet's pods run, all ready, of the expected configuration and at the revision; unknown exactly when only a log is undecided |
| Rollout.EndpointsSafe | pkg/controller/withdrawal.go:865-893 | safe if and only if the endpoints that can take traffic are exactly the current pods, for lists of any size |
| Rollout.RolloutVerdict | pkg/controller/withdrawal.go:613-635 | the verdict is safe, unsafe or unknown exactly as the deployment, pods and endpoints say |
| Rollout.SafeIsSound | pkg/controller/withdrawal.go:708-893 | after a safe verdict every endpoint that can take traffic is a ready, non-terminating pod of the newest ReplicaSet whose last report is the published revision, and there are as many as the replica count |
| RolloutTheorems.SafeIsExact | pkg/controller/withdrawal.go:613-893 | safe if and only if the Deployment and ConfigMap are managed and carry the expected hash, the status is about the current generation and counts only updated, ready, available pods with none terminating, one ReplicaSet runs them, every running pod last reported the revision, and traffic goes to exactly those pods |
| RolloutTheorems.UnknownIsExact | pkg/controller/withdrawal.go:613-863 | unknown if and only if all that holds of the Deployment, ConfigMap and ReplicaSets and the first pod that does not serve is only silent in its log |
| RolloutTheorems.SafeCountsAreCurrent | pkg/controller/withdrawal.go:746-758 | for every history of a Deployment, its pods and the controller that reports its status: behind a safe verdict there was a moment since the last edit at which all its pods, as many as asked for, ran the current template, ready and available |
| RolloutTheorems.StaleCountsMislead | pkg/controller/withdrawal.go:746-758 | without the observed generation every count can be right while no pod runs the current template |
| Staging.TransportRoutesForPublication | pkg/controller/withdrawal.go:124-219 | the staged list starts with the desired routes, appends each stale candidate once, misses none but those without a rule whose provider is gone, and is pending exactly when something was appended; an error is that of something that could not be staged |
| Staging.StageApplied | pkg/controller/withdrawal.go:124-176 | the pass over applied rules stages every rule that is not desired |
| Staging.StagePublished | pkg/controller/withdrawal.go:176-219 | the pass over the published overlay stages every tenant-owned candidate not covered, except those whose provider is gone |
| Staging.StagedIsNotBlocked | pkg/controller/withdrawal.go:124-219 | with distinct published identities, staging succeeds only when nothing was unstageable, so it fails exactly then |
| Staging.StagedIdentities | pkg/controller/withdrawal.go:124-227 | the identities appended are exactly the applied ones and the published ones whose provider is not gone, outside every spelling of a desired route, and a withdrawal is pending exactly when there is one |
| StagingTheorems.AppliedDrainsAsPublished | pkg/controller/withdrawal.go:276-379 | a stale applied rule still published is staged with the published names, the published credential when there is one and the provider's otherwise, the published profile when it has a format and the rule's own otherwise, the applied endpoint when there is one, and the provider's current type and trust; without its provider it is kept unchanged, when it knows its transport or needs no credential |
| StagingTheorems.UnpublishedIsKept | pkg/controller/withdrawal.go:144-176 | a stale applied rule that is not published any more is staged as it is |
| StagingTheorems.PublishedDrainsAsPublished | pkg/controller/withdrawal.go:276-379 | a published candidate without a rule is staged for the model and provider of its identity, in the namespace its identity or its Service gives, with the published profile and credential and the provider's transport |
| StagingTheorems.AppendedIsExact | pkg/controller/withdrawal.go:124-227 | what is appended are exactly the stale applied rules and the stale published candidates of the tenant whose provider is located and found |
| StagingTheorems.BlockedIsExact | pkg/controller/withdrawal.go:124-219 | staging is blocked exactly by a published rule of another tenant, a rule without transport whose credential's provider is gone, a model candidate without identity, or one that names no model, provider or cluster or whose provider cannot be located, and with that error |
| AppliedRoutes.ReadAppliedModelRoutes | pkg/controller/withdrawal.go:381-465 | parses the applied HTTPRoutes into routes by identity, with the source's reasons to skip a rule |
| AppliedRoutes.ReadAllExact | pkg/controller/withdrawal.go:381-465 | an identity is read back exactly when some rule of some HTTPRoute gives a route for it, and its entry is such a route |
| AppliedRoutes.LastRuleDecides | pkg/controller/withdrawal.go:381-465 | an identity is read back exactly when a rule for it goes to a provider's own Service and names an endpoint, and the last such rule of the last such HTTPRoute decides what it is read back to, field by field |
| AppliedRoutes.AppliedIdentities | pkg/controller/withdrawal.go:381-465 | every applied rule comes back under its identity as it is read back: a local one unchanged, a scoped one in the local form |
| AppliedRoutes.SurvivesIffLocal | pkg/envelope/envelope.go:535-581 | a printed identity survives applying and reading back if and only if model and provider share the tenant's namespace |
| AppliedRoutes.RenderedIsReadBack | pkg/controller/withdrawal.go:247-266 | a rendered rule is read back, to the same model, provider, Service and endpoint, if and only if its Service is no sink's, its identity is not hashed, and a provider the identity does not locate is found |
| AppliedRoutes.ClashMixesTransports | pkg/controller/withdrawal.go:455-461 | a relabelled rule of a same-named provider puts its Service and endpoint into the local provider's profile |
| Rereading.ReadsExactly | pkg/controller/withdrawal.go:381-465 | over all HTTPRoutes rendered for a tenant, the identities read back are exactly those of the routes whose rules are recognised |
| Rereading.AllReadBackIffNoSink | pkg/controller/withdrawal.go:381-465 | every rendered identity is read back if and only if some recognised rule carries it; with one provider per identity, none hashed and none gone, if and only if no Service has the prefix of the sinks |
| StagedRules.CoveredIffOneIdEach | pkg/controller/reconciler.go:2925-2994 | the rules rendered for a model match the identity of every one of its routes if and only if no provider Service carries two identities |
| StagedRules.TargetsGiveServices | pkg/controller/reconciler.go:2925-2950 | with one identity per provider over the whole staged list, each Service of a model carries one identity, and each identity one Service exactly when it has one provider |
| StagedRules.EveryRuleIsApplied | pkg/controller/reconciler.go:2286-2361 | applying staged routes installs a rule from the identity of every one of them to its own provider's Service, and no other |
| StagedRules.EveryRouteIsReached | pkg/controller/reconciler.go:2939-2979 | every request that selects a staged route of a model reaches that route's own provider if and only if no two providers are under one identity |
| StagedRules.EarlierRouteIsReached | pkg/controller/reconciler.go:2939-2979 | where routes share an identity, requests under the model's path go to the provider of the one that stands first |
| StagingStep.StagingIsStage | pkg/controller/withdrawal.go:124-219 | what the staging loops return are the rules of the protocol's staging step, and pending exactly then |
| Reconcile.ReconcileIsTheProtocol | pkg/controller/reconciler.go:912-953 | parsing the applied HTTPRoutes, staging and rendering again are the protocol's stage and apply steps: the rules rendered, identities and Services, are those of the next state |
| Reconcile.RoutedIsReached | pkg/controller/reconciler.go:2939-2979 | a request under the model's path for a candidate that the protocol takes as routed reaches that candidate's provider |
| Reconcile.SameNamesClash | pkg/controller/withdrawal.go:144-176 | from the HTTPRoutes of a tenant with a local provider and one of the same name elsewhere, both withdrawn and unpublished: some staged request reaches the wrong provider |
| WithdrawalProtocol.PublishedAlwaysRoutable | pkg/controller/reconciler.go:912-953 | in every run in which staging drops no published candidate, every tenant-owned candidate of the published overlay is routed to its provider |
| WithdrawalProtocol.MakeBeforeBreakAlways | pkg/controller/reconciler.go:912-953 | so is every one of any overlay a pod still serves, when staging drops none of those either |
| WithdrawalProtocol.StrandingIsExact | pkg/controller/withdrawal.go:124-219 | staging and applying keep every published, and every served, candidate routed if and only if none is hidden by a desired name, shares one with another kept provider, or has a rule that neither the HTTPRoutes nor the overlay restore under its identity |
| WithdrawalProtocol.StrandingIsReachable | pkg/controller/withdrawal.go:381-465 | for every candidate that is scoped, named like a sink, or shares the name of one that stays: a run in which a pod ends up serving it without a rule |
| WithdrawalProtocol.ClashIsReachable | pkg/controller/withdrawal.go:441-459 | for every readable provider of another namespace: a run that ends with its rule under the identity of a local one that a pod serves |
| WithdrawalProtocol.OrdinaryNamesSuffice | pkg/controller/withdrawal.go:124-219 | with distinct names that are all read back, what is published stays routed in every run, and what is served when all providers are local |
| WithdrawalProtocol.PruneNeverCuts | pkg/controller/withdrawal.go:637-676 | in every run without a stale republication, no request to a withdrawn candidate is in flight when it is pruned |
| WithdrawalProtocol.ClockIsExact | pkg/controller/withdrawal.go:637-676 | in every state the drain clock moves only with a recorded, known observation or a clear without a pending attachment withdrawal, and how |
| WithdrawalProtocol.DrainsExactly | pkg/controller/withdrawal.go:652-663 | transport is released for pruning exactly when a safe observation finds the clock running for the published overlay since 310 s, written or not |
| WithdrawalProtocol.NoRequestIsCut | pkg/controller/withdrawal.go:637-676 | in every such run in which staging loses no rule that requests may use, neither pruning nor applying cuts a request |
| WithdrawalProtocol.CutIsExact | pkg/controller/withdrawal.go:124-219 | applying what was staged cuts a request in flight if and only if its rule is not read back, or hidden by a desired name, and not restored by the overlay |
| WithdrawalProtocol.LossIsReachable | pkg/controller/withdrawal.go:381-465 | for every candidate whose rule is never read back or whose name one that stays shares: a run in which its withdrawal cuts a request without a drain |
| WithdrawalProtocol.StaleCuts | pkg/controller/withdrawal.go:637-676 | a concrete continuation that prunes under a request, from any sound state with a stale clock and something exposed |
| WithdrawalProtocol.StaleIsExact | pkg/controller/withdrawal.go:637-676 | a continuation that publishes only this overlay can prune under a request if and only if the overlay has candidates of the tenant, its clock is stale, and a candidate outside it is still selectable or in flight beyond the clock |
| WithdrawalProtocol.StaleIsReachable | pkg/controller/withdrawal.go:637-676 | for any two candidates of different names, the withdrawn one not hashed, a run that ends with a stale clock and something exposed |
| WithdrawalProtocol.CutIsReachable | pkg/controller/withdrawal.go:637-676 | a run of the whole system in which a prune cuts a request |
| WithdrawalProtocol.SafeVerdictIsTrue | pkg/controller/withdrawal.go:613-635 | a safe rollout verdict means that pods serve, and every one of them the published overlay |
| StableIds.SplitUndoesJoin | pkg/envelope/envelope.go:553-557 | splitting at slashes undoes the joined form, for names without slashes |
| StableIds.LocalFormSplits | pkg/controller/withdrawal.go:235-274 | splitting undoes the tenant-local form, for every tenant |
| StableIds.SplitTenantIsExact | pkg/controller/withdrawal.go:228-245 | an identity splits into these parts for a tenant exactly when it is their local form, or their four-part form with the tenant in front, for all parts without slashes |
| StableIds.ScopedFormSplits | pkg/controller/withdrawal.go:235-245 | the four-part form belongs to exactly the tenant whose namespace it names, and splitting undoes it |
| StableIds.HashFormIsUnowned | pkg/controller/withdrawal.go:235-245 | no tenant owns the hash form |
| StableIds.LengthPrefixedInjective | pkg/envelope/envelope.go:558-565 | the length-prefixed bytes that are hashed determine the fields |
| StableIds.PrintedForm | pkg/envelope/envelope.go:547-581 | the three printed forms are told apart by their slashes, and the scoped test recognises exactly the scoped ones |
| StableIds.PrintInjective | pkg/envelope/envelope.go:535-581 | equal stable IDs come from equal identities, across all three forms |
| Resolver.Resolve | pkg/resolver/resolver.go:329-466 | the nested loops compute the resolution: routes, skips and the error with what was resolved before it; `ResolvedRoutes` says which |
| ResolvedRoutes.OneReason | pkg/resolver/resolver.go:351-420 | a reference yields a route exactly when nothing is wrong with it, and at most one thing is the first that is wrong |
| ResolvedRoutes.ResolvedIsExact | pkg/resolver/resolver.go:329-466 | on success every reference of every model yields its route, exactly when it is enabled, permitted, found, allowed by the translation rule, ready and qualified, or is skipped for the first of these that fails, in order; otherwise the first model and reference that is unqualified, active twice or without transport decides the error and what is handed back |
| ResolvedRoutes.ReturnedAreReady | pkg/resolver/resolver.go:393-456 | every returned route goes to a ready provider, the one its reference names, and carries that provider's endpoint and type, the reference's target model, format and weight, the shared transport, and the reference's own credential before the provider's |
| ResolvedRoutes.ByKeyIsLatest | pkg/resolver/resolver.go:329-337 | of providers given twice the later one counts |
| ResolverTheorems.ServingIsPositivePart | pkg/resolver/resolver.go:265-292 | when the resolution that includes disabled references succeeds, the serving one has exactly its positive-weight routes, model by model in the same order |
| ResolverTheorems.ReturnedIsProper | pkg/resolver/resolver.go:329-466 | in every returned set no model has two active routes to one provider, no route uses Messages without the translation permission, disabled routes appear only when asked for, and every route goes to a known provider through its own Service |
| ResolverTheorems.QualifiedFormatsHaveStrategies | pkg/envelope/envelope.go:489-529 | the formats the resolver qualifies are exactly those with a credential strategy, and a header goes with the apikey strategy only |
| ResolverTheorems.ResolvedRoutesAreRenderable | pkg/resolver/resolver.go:490-503 | rendering's validation accepts resolved routes if and only if each uses an API key or no credential and goes to an allowed cluster; a missing credential strategy is never the reason |
| ResolverTheorems.ResolvedRoutesAreFromResolver | pkg/resolver/resolver.go:204-214 | resolved routes satisfy what selection keys rely on |
| ResolverTheorems.ServedOddsAreWeights | pkg/envelope/envelope.go:343-411 | from references to the picker: served routes are drawn in proportion to their references' weights |
| PathTemplate.ResolvePath | pkg/resolver/resolver.go:535-565 | substitutes key by key in sorted order; success leaves no placeholder |
| PathTemplate.ParseRenders | pkg/resolver/resolver.go:525-533 | the pieces of a closed, unnested template spell the template |
| PathTemplate.LeftoverIsUnfilled | pkg/resolver/resolver.go:557-563 | a placeholder is left in the text exactly when a named hole was not filled |
| PathTemplate.AnyOrderIsSimultaneous | pkg/resolver/resolver.go:525-565 | without braces in names and values every key order gives the simultaneous substitution, result and error alike |
| PathTemplate.ChainedValuesDependOnOrder | pkg/resolver/resolver.go:539-548 | for all distinct names, a value that names the other placeholder in plain text is filled in one order and left unfilled in the other |
| Selection.DeriveSelectionMetadata | pkg/envelope/envelope.go:355-415 | fails exactly on a repeated provider of one client name, and otherwise yields the mode, groups and weights of the whole set |
| Selection.ResolvedKeysAreDistinct | pkg/envelope/envelope.go:324-329 | without repeated providers, resolved routes have distinct selection keys |
| SelectionOdds.MetadataFitsMode | pkg/envelope/envelope.go:343-444 | for every input, traffic weights are on all candidates when the mode is weightedRandom and on none otherwise, and no group appears without a policy |
| SelectionOdds.OneGroupPerName | pkg/envelope/envelope.go:349-411 | routes that share a client name contend in group zero under a policy |
| SelectionOdds.FlagOffHasNoProfiles | pkg/envelope/envelope.go:273-284 | with profiles off no candidate carries one, preserved ones included |
| SelectionOdds.CredentialIffAuthenticated | pkg/envelope/envelope.go:253-266 | a candidate names its route's Secret exactly when the route authenticates |
| SelectionOdds.OddsAreWeights | pkg/envelope/envelope.go:193-290 | for client names without preserved candidates and weights 1 to 1000, the picker's odds equal the routes' weights |
| Localize.LocalizeRoutes | pkg/controller/attachment.go:1409-1452 | rewrites the routes in place to their localized form and returns the credential copies they need |
| Localize.CredentialsAreLocal | pkg/controller/attachment.go:1405-1452 | every credential of a localized route is a Secret of the tenant's namespace |
| Localize.CopiesAreExact | pkg/controller/attachment.go:1434-1448 | a copy is returned exactly when some route needs it, once |
| Localize.LocalizedIsExact | pkg/controller/attachment.go:1405-1452 | a route of the tenant is left alone; any other keeps everything but its identity and, when it is authenticated and its Secret is elsewhere or wanted in a header, its Secret, which becomes a returned copy of the same Secret, key and header |
| Localize.EveryCopyIsUsed | pkg/controller/attachment.go:1434-1452 | every returned copy is the Secret of some localized route that wants one |
| Localize.SharedCopySharesSource | pkg/controller/attachment.go:1434-1448 | routes that share a copy share source Secret, key and header |
| Localize.LocalizedIdsAreUnambiguous | pkg/controller/attachment.go:1409-1416 | two localized routes have one stable ID if and only if they bind the same model to the same provider |
| Localize.PublishedIdsAreDistinct | pkg/envelope/envelope.go:226-241 | candidates rendered from localized routes of any namespaces have distinct stable IDs |
| Envelopes.Render | pkg/envelope/envelope.go:193-322 | renders candidates, applies the mode over all of them and chains the revision, with the errors in the source's order |
| Envelopes.FinishCandidates | pkg/envelope/envelope.go:433-444 | the in-place passes complete the weighted contract and strip profile fields on every candidate |
| Envelopes.RenderedChains | pkg/envelope/envelope.go:295-303 | the declared digest is the overlay's, the generation moves exactly with the digest, and the transition check never refuses it |
| RenderedEnvelopes.AppendedIsExact | pkg/envelope/envelope.go:216-266 | the candidate of a route: client name, Service, the route's identity, site, and the strategy, header and Secret of its credential, with the profile exactly when profiles are on |
| RenderedEnvelopes.SelectionIsExact | pkg/envelope/envelope.go:349-444 | its group and weight: grouped exactly in a weighted overlay or when a route of its selection key shares its name, weighted with the clamped weight of the last route of its key |
| RenderedEnvelopes.PreservedIsKept | pkg/envelope/envelope.go:216-284 | a preserved candidate stays as published, ahead of the others, but for the weighted contract and for profiles that are off |
| RenderedEnvelopes.PolicyIsExact | pkg/envelope/envelope.go:207-215 | weighted if and only if two weights of one name differ or a preserved candidate has one; else random if and only if a name is shared or a preserved candidate is grouped |
| RenderedEnvelopes.RenderedIsStamped | pkg/envelope/envelope.go:286-322 | scope, network, site, origin, version and timestamp of the envelope are the given ones |
| RenderedEnvelopes.RefusalIsExact | pkg/envelope/envelope.go:193-303 | rendering fails exactly, and in this order, on a negative generation, an incomplete scope, a provider repeated under a name, the first route to an unknown cluster or with an unusable credential, or an exhausted generation |
| RenderedEnvelopes.TransitionIsExact | pkg/envelope/envelope.go:684-705 | a revision may follow another exactly when neither is negative, it is at least one, and the generation rises with a new digest and stays with the old |
| HttpRoutes.ModelHTTPRouteSet | pkg/controller/reconciler.go:2925-2994 | renders a rule pair for the first route of each provider Service, then the two sink rules |
| HttpRoutes.RulesAreExact | pkg/controller/reconciler.go:2925-2994 | the rules are exactly the two of the first route to each provider Service, with its identity, endpoint and, if a profile may rewrite the path, that path, and the two of the sink; all time out after 300 s |
| HttpRoutes.ModelHTTPRouteRuleCount | pkg/controller/reconciler.go:2896-2914 | the count checked against the Gateway API limit is the number of rules rendered |
| HttpRoutes.SelectedReachesItsProvider | pkg/controller/reconciler.go:2939-2979 | under Gateway API precedence a request with a selected identity reaches exactly that route's Service, by its canonical path, by model name, or after a path rewrite |
| HttpRoutes.UnselectedReachesNoProvider | pkg/controller/reconciler.go:2980-2994 | a request without a selection of the model's routes reaches the sink and never a provider, and one that is not for the model reaches nothing |
| HttpRoutes.PlanesAgree | pkg/envelope/envelope.go:224-241 | Envoy carries a request for a published candidate to the cluster the candidate names |
| Json.CanonDecidesMeaning | pkg/envelope/envelope.go:613-637 | two documents without repeated names have one canonical form if and only if they say the same, whatever order their members are in |
| Json.SortedByCodeUnits | pkg/envelope/envelope.go:613-637 | the canonical form lists members in the order of their names' UTF-16 code units |
| Json.CanonPermutes | pkg/envelope/envelope.go:613-637 | and they are the document's own members, each as often, with canonical values |
| Json.CodeUnitsAreUtf16 | pkg/envelope/envelope.go:613-637 | a character beyond the basic plane counts as its two surrogates |
| JsonRecords.RecordDecides | pkg/envelope/envelope.go:613-620 | equal structs on the wire are equal field by field, including absent fields |
| WireDigests.ComputeDigestFromWire | pkg/envelope/envelope.go:651-682 | the recomputation from a wire document, with its error cases |
| WireDigests.WireErrorsAreExact | pkg/envelope/envelope.go:651-667 | which documents have no digest, and why, and that a null document or a null overlay section has the digest of an empty overlay |
| WireDigests.WireAgreesWithStruct | pkg/envelope/envelope.go:613-682 | the digest recomputed from every written envelope is the digest computed from the structure |
| WireDigests.ReorderingKeepsDigest | pkg/envelope/envelope.go:651-682 | reordering members at any depth keeps the wire digest |
| WireDigests.DigestDecidesContent | pkg/envelope/envelope.go:606-637 | two overlays have one digest if and only if they publish the same content; the injected header never counts |
| WireDigests.SectionDigestIsExact | pkg/envelope/envelope.go:639-667 | the digest is that of the overlay section alone if and only if no semantic key beside it fills a gap |
| WireFields.EnvelopeSays | pkg/envelope/envelope.go:31-135 | what the written document says under every name its consumers read: digest, generation, scope, provenance, policy and each candidate with its credential |
| Publishers.Publisher.Publish | pkg/publisher/publisher.go:136-214 | one publication: the new ConfigMap and the reported result |
| Publishers.WrittenIsAccepted | pkg/publisher/publisher.go:148-173 | every written envelope is accepted by the next read-back, with its revision and timestamp |
| Publishers.DecodeIsExact | pkg/publisher/publisher.go:157-173 | what is read of a stored document: sections and fields of the right kinds, empty when missing or null, and nothing of any other |
| Publishers.StepIsSound | pkg/publisher/publisher.go:175-192 | whatever the ConfigMap held, the final transition check never fires and a success leaves exactly the reported envelope |
| Publishers.StepIsExact | pkg/publisher/publisher.go:128-214 | every publication case by case: rendered only onto nothing or an intact envelope; the timestamp is the injected one, else the distributed one exactly when the content is the distributed content, else the clock's; created exactly when the ConfigMap was absent, unchanged exactly when nothing was written; and each error exactly when it is due, leaving the ConfigMap alone |
| Publishers.RunsAreChained | pkg/publisher/publisher.go:136-214 | over any sequence of publications from an absent ConfigMap, generations start at one and rise by one exactly when the digest changes |
| Publishers.RepeatWritesNothing | pkg/publisher/publisher.go:128-135 | publishing the same inputs again without an injected timestamp writes nothing, at any time |
| Catalog.ParseGuardrailRefs | pkg/tenant/catalog.go:340-366 | every list entry becomes a reference or an unreadable entry, and each unreadable one is reported |
| Catalog.ApplyAttachmentOrder | pkg/tenant/catalog.go:76-111 | visits callouts in attachment order, unreadable entries selecting everything last |
| Catalog.ByNameIsLast | pkg/tenant/catalog.go:76-85 | of callouts of one name the last counts |
| Catalog.OrderedIsFirstNaming | pkg/tenant/catalog.go:76-131 | the ordered catalog, flattened, is the stream of named checks with each check at its first naming |
| Catalog.CatalogIsExact | pkg/tenant/catalog.go:76-131 | with unique names, a check is in the catalog if and only if some entry selects it, once and with its policy's own settings |
| Catalog.CatalogIsStable | pkg/tenant/catalog.go:76-131 | selected checks stand in the order of their first naming |
| Catalog.AppendingExtends | pkg/tenant/catalog.go:76-131 | appending readable entries to an all-readable list only extends the flattened catalog |
| Catalog.UnreadableRunsLast | pkg/tenant/catalog.go:92-111 | checks no readable entry names appear only when some entry is unreadable, after all others and in policy-name order |
| NemoCompiler.AcceptedNemoCallouts | pkg/tenant/nemocaller.go:147-207 | the ordered callouts of attached policies; a stale acceptance of an attached policy fails the whole call |
| NemoCompiler.NemoCalloutFrom | pkg/tenant/nemocaller.go:263-314 | an accepted, callable policy yields an open callout with a call for each named check and phase |
| NemoCompiler.PinNemoCalloutsToInfra | pkg/tenant/nemocaller.go:348-371 | closes in place exactly the open callouts outside the infrastructure namespace and reports them |
| NemoCompiler.ExpandNemoChecks | pkg/tenant/nemocaller.go:613-647 | request filters in catalog order, then response filters reversed; fails exactly on an unreachable open callout or an empty result |
| NemoCompiler.InsertAfterRequestId | pkg/tenant/nemocaller.go:542-570 | inserts after the first request_id filter of the first chain that has one, and fails exactly when none has |
| NemoCompiler.CompileNemoExtproc | pkg/tenant/nemocaller.go:502-540 | compiles the catalog into the chain and removes exactly its selection headers; fails exactly when expansion or insertion fails |
| NemoCompiler.NothingSelectedIsDropped | pkg/tenant/nemocaller.go:147-371 | every named check that an attachment selects, or an unreadable entry may select, is compiled: as a call for each phase to the policy's own service, at its checks URL, with its configuration, token and timeout, if the policy may call, and as a rejection otherwise; a policy that may call and whose URL does not parse fails the compilation |
| NemoCompiler.NothingElseIsCompiled | pkg/tenant/nemocaller.go:147-371 | every compiled filter is a call for a phase that a selected check asks for, or the rejection of a selected check of a policy that may not call |
| NemoCompiler.CompiledForward | pkg/tenant/nemocaller.go:572-647 | the compiled entries on a request perform exactly the chosen input and closed checks in order, each call with the endpoint, configuration, token and timeout of its entry, then the selection headers are gone |
| NemoCompiler.CompiledBackward | pkg/tenant/nemocaller.go:572-647 | on the response they perform exactly the chosen output checks in catalog order, with the same settings |
| NemoCompiler.CompilationPreservesMeaning | pkg/tenant/nemocaller.go:502-647 | for every selection and every verdict the whole chain means: the filters before, the catalog, the filters after without the selection headers, forwards and backwards |
| NemoCompiler.CompiledDocumentMeans | pkg/tenant/nemocaller.go:502-570 | the chain that the compiler returns means that, around the first request_id filter and without exactly the catalog's selection headers, and the other chains are unchanged |
| Handoff.ClaimPraxisSteady | pkg/tenant/migration.go:73-96 | the claim succeeds only onto a cleanup-complete status that is still current |
| Handoff.EnsurePraxisMayDeploy | pkg/tenant/migration.go:55-71 | ready exactly when steady, or after a successful claim |
| Handoff.DeployIsExact | pkg/tenant/migration.go:55-96 | deploying makes Praxis ready exactly from a steady copy, or from a cleanup-complete one when the current object, reread, is still cleanup-complete and selects Praxis, which is then claimed |
| Handoff.FinalizerIsLocked | pkg/tenant/reconciler.go:1288-1320 | the finalizer is written only onto the version the reconcile read or wrote last, and is all that such a write changes |
| Handoff.MarkCleanupComplete | pkg/tenant/migration.go:97-104 | writes cleanup-complete over whatever is current unless the copy already has it |
| Handoff.PraxisOnlyWhileSteadyAlways | pkg/tenant/reconciler.go:489-529 | in every interleaving, Praxis resources exist only while the status is steady |
| Handoff.NeverBothLive | pkg/tenant/reconciler.go:1212-1250 | in every run that never signals cleanup over a live legacy from an unclaimed copy, Praxis and legacy are never both live |
| Handoff.StatusTellsWhoServes | pkg/tenant/migration.go:39-46 | in such runs legacy is reported as serving wherever it runs, and where Praxis runs exactly when the tenant has left it |
| Handoff.OverwriteIsExact | pkg/tenant/reconciler.go:1212-1250 | both can become live from a signal if and only if it is written from an unclaimed copy while legacy runs |
| Handoff.BothLiveIsReachable | pkg/tenant/reconciler.go:1212-1250 | a run from a tenant of a live legacy dataplane to both live |
| Handoff.OnlyClaimsConsume | pkg/tenant/constants.go:83-98 | the signal is consumed by exactly the claims of the two parties |
| Handoff.ClaimConsumes | pkg/tenant/migration.go:73-96 | every claim consumes a current signal and is made by the party selected at that moment |
| Handoff.EachSignalClaimedOnce | pkg/tenant/migration.go:73-104 | between any two claims, by either party, one of the two cleanups signalled again |
| Handoff.SignalsAreConserved | pkg/tenant/migration.go:55-104 | in every run the signals written and the initial one equal the claims made and the one still pending |
| Admission.HoldNames | pkg/controller/attachment.go:1250-1300 | a model conflicts exactly when its name is held by another namespace |
| Admission.OneNamespacePerName | pkg/controller/attachment.go:1250-1300 | models that keep a name share their namespace, and none keeps a name the tenant serves |
| Admission.ExcludeUnsupported | pkg/controller/reconciler.go:2161-2195 | keeps in order exactly the models neither invalid nor behind a name that repeats a provider |
| Admission.ShareableIsExact | pkg/controller/reconciler.go:2161-2195 | each model is kept as often as given exactly when it is valid and no name of its routes has a provider twice |
| Admission.ShareableNeverRepeats | pkg/controller/reconciler.go:2161-2195 | what is kept repeats no provider under a client name, so rendering accepts it |
| Admission.AdmitAttachments | pkg/controller/attachment.go:1528-1560 | the loop over capacity computes one decision per eligible candidate, oldest first |
| Admission.CapacityHolds | pkg/controller/attachment.go:1528-1560 | the tenant's own candidates and all admitted routes never exceed max(own, 1024) |
| Admission.ServedFits | pkg/controller/attachment.go:1564-1572 | nor do the own candidates and what is served |
| Admission.OlderDecide | pkg/controller/attachment.go:1528-1560 | each decision depends only on that candidate and older ones |
| Admission.ExcludedIffFull | pkg/controller/attachment.go:1528-1560 | a candidate has a decision, at the place its elders leave it, exactly when it is accepted without a reason against it; it is then excluded for capacity exactly when it does not fit in what they left of 1024, and else ready once it owns its copies |
| Admission.ReadinessDisplacesNone | pkg/controller/attachment.go:1528-1572 | who is admitted does not depend on whose credential copies are there yet: a slot is reserved either way |
| RetainedRules.RetainAttachmentRules | pkg/controller/attachment.go:1984-2058 | merges retained rules, and fails exactly when rules are missing or some retained candidate has a rule in neither route |
| RetainedRules.UnroutableIsExact | pkg/controller/attachment.go:2018-2030 | merging stops exactly for an identity to retain that neither route has a rule for |
| RetainedRules.MergedIsExact | pkg/controller/attachment.go:1984-2058 | the desired rules in their order with exactly the retained old rules, each as often as before and in old order, ahead of every desired sink |
| RetainedRules.RetainedStayRoutable | pkg/controller/attachment.go:1981-2058 | after merging every retained and every desired candidate has a rule |
| RetainedRules.RetainingIsIdempotent | pkg/controller/attachment.go:1981-2058 | merging again onto the merged route changes nothing |
| RetainedRules.MergeAttachmentRoutes | pkg/controller/attachment.go:1776-1790 | keeps each identity at its first route |
| RetainedRules.FirstRoutesAreExact | pkg/controller/attachment.go:1776-1790 | no identity is lost and none is kept twice |
| RetainedRules.EarlierRoutesStay | pkg/controller/attachment.go:1776-1790 | later groups never change what earlier ones contributed |
| Flags.DropUnknownFlags | cmd/manager/flags.go:50-94 | the index loop computes what is kept and what is dropped |
| Flags.KeptParsesLeniently | cmd/manager/flags.go:50-121 | parsing the kept arguments meets no undefined or ill-formed flag and gives what a lenient parse of all arguments gives |
| Flags.DroppedIsReported | cmd/manager/flags.go:50-94 | every dropped name is that of an undefined flag among the arguments, and each takes one or two arguments with it |
| Flags.FilteringIsIdempotent | cmd/manager/flags.go:50-94 | filtering twice is filtering once |
| Flags.IdentityIffNothingDropped | cmd/manager/flags.go:50-94 | the filter is the identity if and only if it drops nothing |
| Flags.AcceptedIsUntouched | cmd/manager/flags.go:50-94 | a command line Go parses to the end is left alone |

## Left out

- Kubernetes reads, watches, server-side apply, status, events and metrics: the store is a value or a class field, a failed read or write is a parameter or an error return.
- Attachment make-before-break: the home path can publish freshly resolved attachment routes before their HTTPRoute is updated, so the invariant covers tenant-owned candidates.
- Policy, all-zero-weight and teardown withdrawals, and deletion of the ConfigMap or of the tenant's configuration object.
- Withdrawn attachment candidates and their own drain (`pkg/controller/attachment.go:1077-1170`): they appear in the protocol only as a second writer of the overlay and the annotation.
- WithdrawalProtocol.NoRequestIsCut: follows requests sent over their candidate's own rule; one that a shared identity sends to another provider is not followed further.
- Provider finalizers (`pkg/controller/withdrawal.go:466-505`): whether a provider object is gone is an input of staging.
- SHA-256, hexadecimal printing and white space of JSON text; numbers are integers.
- AppliedRoutes.ReadAppliedModelRoutes: an HTTPRoute is its rules' identity, Service and endpoint and the profiles of its annotation; malformed rules, failed reads, the refusal of invalid profiles and the derivation of the client name are parameters or absent.
- Publishers.Publisher.Publish: decodes only the digest, generation and timestamp of the stored envelope; a type error in any other field, which the source also reports as tampering, is not modelled, and bytes are compared as JSON trees in member order.
- Resolver.Resolve: takes the validation of a reference's transport (trust settings, port, target model and path checks) as one function; path substitution is modelled on its own, and nil list entries are absent.
- Selection.DeriveSelectionMetadata: works on the flattened route set and keys capabilities and bindings by tuples instead of joined text, so names with NUL characters or slashes are not told apart from the source's joined keys.
- Envelopes.Render: the nil route set is not modelled, and per-model validation runs over the flattened set, which reports the same first error.
- Routes.ServiceName: does not shorten names to 63 characters, and the shortened digests are assumed collision free where keys must be distinct.
- HttpRoutes.ModelHTTPRouteSet: of the filters only the provider of the URL rewrite is modelled, header removal, ports and parents are not, the profile annotation is part of `Rereading`, and the routes of other models on the same Gateway do not compete.
- Admission.HoldNames: attached models are given oldest first; the sort by creation time and the resolution of each model are not modelled.
- Admission.ExcludeUnsupported: the label check and the HTTPRoute rule count are one predicate on the model.
- RetainedRules.RetainAttachmentRules: a rule is its stable id, its first backend's Service and opaque content, and the error lists all unroutable candidates where the source names one of them.
- Flags.KeptParsesLeniently: the parse stops where Go's would stop; usage output and exit codes are not modelled.
- PathTemplate.AnyOrderIsSimultaneous: keys sort by Unicode scalar values, as UTF-8 bytes do.
- Catalog inputs read from the cluster (`pkg/tenant/catalog.go:133-340`) and the sorting of attachment sources by level and name.
- NemoCompiler.CompileNemoExtproc: does not set `insecure_options.allow_private_upstreams` on the document (`pkg/tenant/nemocaller.go:528-533`).
- Egress rules, pod selectors and placeholder replacement of the ExtProc manifests.
