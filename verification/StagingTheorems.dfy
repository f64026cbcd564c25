// What staging puts into each route it appends, what it leaves out, and exactly
// when it fails, all read off the published overlay, the applied rules and the
// providers.
module StagingTheorems {
  import opened Overlays
  import opened Routes
  import opened StableIds
  import opened Staging
  import opened Wrappers

  // The last published model candidate of an identity: the one that speaks for
  // an applied rule.
  ghost predicate LastPublished(previous: seq<Candidate>, id: StableId, j: int) {
    && 0 <= j < |previous| && IsModel(previous[j]) && previous[j].stableId == id
    && forall i :: j < i < |previous| && IsModel(previous[i]) ==> previous[i].stableId != id
  }

  lemma {:induction false} PriorIsLast(previous: seq<Candidate>, id: StableId, j: int)
    requires id != "" && LastPublished(previous, id, j)
    ensures PriorCandidate(previous, id) == Some(previous[j])
  {
    var front := previous[..|previous| - 1];
    if j < |front| {
      assert LastPublished(front, id, j) by {
        assert forall i :: 0 <= i < |front| ==> front[i] == previous[i];
      }
      PriorIsLast(front, id, j);
    }
  }

  // While it drains, a published credential stands before the provider's own,
  // and the rest of the transport is the provider's as it is now.
  ghost predicate DrainsAs(c: Candidate, p: Provider, route: Route) {
    && (c.credential.Some? ==>
          var secret := c.credential.value.secretRef;
          && route.authType == "apikey" && route.secretName == secret.name
          && route.secretNamespace == secret.namespace && route.secretKey == secret.key)
    && (c.credential.None? ==>
          && route.authType == p.authType && route.secretName == p.secretName
          && route.secretNamespace == p.namespace && route.secretKey == "api-key")
    && route.providerType == p.providerType && route.tlsCACertificates == p.tlsCACertificates
  }

  predicate SameProfile(route: Route, apiFormat: string, path: string, targetModel: string) {
    route.apiFormat == apiFormat && route.path == path && route.targetModel == targetModel
  }

  // The route is for the same binding as the rule it replaces.
  predicate SameBinding(route: Route, was: Route) {
    && route.model == was.model && route.namespace == was.namespace && route.weight == was.weight
    && route.provider == was.provider && route.providerNamespace == was.providerNamespace
    && route.port == was.port && route.tlsCredentialName == was.tlsCredentialName
  }

  predicate SameTransport(route: Route, was: Route) {
    && route.providerType == was.providerType && route.endpoint == was.endpoint
    && route.tlsCACertificates == was.tlsCACertificates && SameProfile(route, was.apiFormat, was.path, was.targetModel)
    && route.authType == was.authType && route.secretName == was.secretName
    && route.secretNamespace == was.secretNamespace && route.secretKey == was.secretKey
  }

  // A stale rule whose identity is still published stays in place and is
  // brought up to date: the overlay is authoritative for the names, the
  // credential and the profile it carries, the provider for the rest, and the
  // rule for its endpoint. A rule that already knows its transport, or needs no
  // credential, outlives its provider unchanged.
  lemma {:induction false} AppliedDrainsAsPublished(w: World, desired: seq<Route>, keys: seq<StableId>, staged: Staged,
                                                    k: nat, j: nat)
    requires StagesExactly(w, desired, keys, staged) && k < |keys| && keys[k] in w.applied
    requires LastPublished(w.previous, keys[k], j)
    ensures SplitTenant(keys[k], w.namespace).Some?
    ensures var provider := SplitTenant(keys[k], w.namespace).value.provider;
      var c, was, route := w.previous[j], w.applied[keys[k]], staged.routes[|desired| + k];
      && route.stableId == keys[k] && route.clientName == c.name && SameBinding(route, was)
      && route.apiTranslationEnabled == w.apiTranslationEnabled
      && if (was.providerNamespace, provider) in w.providers then
           var p := w.providers[(was.providerNamespace, provider)];
           && DrainsAs(c, p, route)
           && (c.apiFormat != "" ==> SameProfile(route, c.apiFormat, c.path, c.targetModel))
           && (c.apiFormat == "" ==> SameProfile(route, was.apiFormat, was.path, was.targetModel))
           && route.endpoint == (if was.endpoint != "" then was.endpoint else p.endpoint)
           && route.cluster == (if c.cluster != "" then c.cluster else PROVIDER_SERVICE_PREFIX + provider)
         else
           && (was.providerType != "" || c.credential.None?)
           && SameTransport(route, was) && route.cluster == c.cluster
  {
    assert StandsFor(w, keys[k], staged.routes[|desired| + k]);
    PriorIsLast(w.previous, keys[k], j);
  }

  // A stale rule whose identity is no longer published is kept as it is.
  lemma {:induction false} UnpublishedIsKept(w: World, desired: seq<Route>, keys: seq<StableId>, staged: Staged, k: nat)
    requires StagesExactly(w, desired, keys, staged) && k < |keys| && keys[k] in w.applied
    requires forall j :: 0 <= j < |w.previous| && IsModel(w.previous[j]) ==> w.previous[j].stableId != keys[k]
    ensures staged.routes[|desired| + k] == w.applied[keys[k]]
  {
    assert StandsFor(w, keys[k], staged.routes[|desired| + k]);
    PriorCandidateExact(w.previous, keys[k]);
  }

  // Where the provider of a published candidate is: where its identity says, or
  // for a local identity wherever its transport Service shows it to be.
  ghost predicate LocatedIn(w: World, c: Candidate, identity: Identity, namespace: string) {
    if identity.providerNamespace != "" && identity.providerNamespace != w.namespace then
      namespace == identity.providerNamespace
    else if c.cluster == PROVIDER_SERVICE_PREFIX + identity.provider then namespace == w.namespace
    else
      var service := (identity.provider, c.cluster);
      service in w.serviceOwner
      && namespace == if w.serviceOwner[service] != "" then w.serviceOwner[service] else w.namespace
  }

  // A published candidate the tenant must keep routable: a model's, under a
  // local identity or a scoped one of this namespace.
  predicate OwnCandidate(w: World, c: Candidate) {
    IsModel(c) && (Count(c.stableId, '/') == 1 || SplitTenant(c.stableId, w.namespace).Some?)
  }

  // A published candidate that never got a rule is given one from scratch: all
  // the overlay does not carry is the provider's.
  lemma {:induction false} PublishedDrainsAsPublished(w: World, desired: seq<Route>, keys: seq<StableId>,
                                                      staged: Staged, k: nat) returns (j: nat)
    requires StagesExactly(w, desired, keys, staged) && k < |keys| && keys[k] !in w.applied
    ensures j < |w.previous| && OwnCandidate(w, w.previous[j]) && w.previous[j].stableId == keys[k]
    ensures SplitTenant(keys[k], w.namespace).Some?
    ensures var identity := SplitTenant(keys[k], w.namespace).value;
      var c, route := w.previous[j], staged.routes[|desired| + k];
      && route.stableId == keys[k] && route.model == identity.model && route.provider == identity.provider
      && route.namespace == w.namespace && LocatedIn(w, c, identity, route.providerNamespace)
      && route.clientName == (if c.name != "" then c.name
                              else if identity.model in w.modelNames && w.modelNames[identity.model] != "" then
                                w.modelNames[identity.model]
                              else identity.model)
      && route.weight == 0 && route.port == 0 && route.tlsCredentialName == ""
      && (route.providerNamespace, identity.provider) in w.providers
      && var p := w.providers[(route.providerNamespace, identity.provider)];
      && DrainsAs(c, p, route) && SameProfile(route, c.apiFormat, c.path, c.targetModel)
      && route.endpoint == p.endpoint && route.cluster == c.cluster != ""
      && route.apiTranslationEnabled == w.apiTranslationEnabled
  {
    assert StandsFor(w, keys[k], staged.routes[|desired| + k]);
    j :| 0 <= j < |w.previous| && w.previous[j].stableId == keys[k] && TenantOwned(w, w.previous[j])
      && PublishedOutcome(w, w.previous[j]) == Found(staged.routes[|desired| + k]);
  }

  // ----- what is appended, and what stops staging -----

  // The identities a desired route may be published under: its own, the local
  // one, and the scoped one when its provider is elsewhere.
  predicate GoesBy(sha: string -> string, r: Route, id: StableId) {
    || id == (if r.stableId != "" then r.stableId else CandidateStableId(r.model, r.provider))
    || id == CandidateStableId(r.model, r.provider)
    || (r.providerNamespace != "" && r.providerNamespace != r.namespace
        && id == ScopedStableId(sha, r.namespace, r.model, r.providerNamespace, r.provider))
  }

  ghost predicate Stale(w: World, desired: seq<Route>, id: StableId) {
    forall r | r in desired :: !GoesBy(w.sha, r, id)
  }

  lemma {:induction false} StaleIsNotCurrent(w: World, desired: seq<Route>, id: StableId)
    ensures Stale(w, desired, id) <==> id !in CurrentIds(w.sha, desired)
  {
    if r :| r in desired && GoesBy(w.sha, r, id) {
      var i :| 0 <= i < |desired| && desired[i] == r;
      assert id in DesiredIds(w.sha, desired[i]);
    }
    if i :| 0 <= i < |desired| && id in DesiredIds(w.sha, desired[i]) {
      assert GoesBy(w.sha, desired[i], id);
    }
  }

  // Its provider is found where it is located.
  ghost predicate HasProvider(w: World, c: Candidate, identity: Identity) {
    exists namespace ::
      LocatedIn(w, c, identity, namespace) && (namespace, identity.provider) in w.providers
  }

  // A published rule of another tenant, or one that does not know the transport
  // its credential needs and whose provider is gone.
  ghost predicate StuckRule(w: World, was: Route, c: Candidate, e: StagingError) {
    match SplitTenant(c.stableId, w.namespace)
    case None => e == NotThisTenant
    case Some(identity) =>
      && (was.providerNamespace, identity.provider) !in w.providers
      && was.providerType == "" && c.credential.Some? && e == ProviderUnreadable
  }

  // A candidate without a rule that does not say what it routes to, or whose
  // provider cannot be located.
  ghost predicate StuckCandidate(w: World, c: Candidate, e: StagingError) {
    match SplitTenant(c.stableId, w.namespace)
    case None => e == Unstageable
    case Some(identity) =>
      if identity.model == "" || identity.provider == "" || c.cluster == "" then e == Unstageable
      else e == UnknownProviderNamespace && !exists namespace :: LocatedIn(w, c, identity, namespace)
  }

  ghost predicate RuleBlocks(w: World, desired: seq<Route>, id: StableId, j: int, e: StagingError) {
    && id in w.applied && id != "" && Stale(w, desired, id)
    && LastPublished(w.previous, id, j) && StuckRule(w, w.applied[id], w.previous[j], e)
  }

  ghost predicate CandidateBlocks(w: World, desired: seq<Route>, c: Candidate, e: StagingError) {
    || (IsModel(c) && c.stableId == "" && e == NoStableId)
    || (OwnCandidate(w, c) && c.stableId !in w.applied && Stale(w, desired, c.stableId) && StuckCandidate(w, c, e))
  }

  lemma {:induction false} LocationIsFound(w: World, c: Candidate, identity: Identity, namespace: string)
    ensures LocatedIn(w, c, identity, namespace) <==> ProviderNamespaceOf(w, c, identity) == Some(namespace)
  {
  }

  lemma {:induction false} LocatedIffFound(w: World, c: Candidate, identity: Identity)
    ensures (exists namespace :: LocatedIn(w, c, identity, namespace)) <==> ProviderNamespaceOf(w, c, identity).Some?
    ensures HasProvider(w, c, identity) <==>
      var namespace := ProviderNamespaceOf(w, c, identity);
      namespace.Some? && (namespace.value, identity.provider) in w.providers
  {
    var found := ProviderNamespaceOf(w, c, identity);
    if found.Some? { assert LocatedIn(w, c, identity, found.value); }
  }

  lemma {:induction false} PublishedOutcomeExact(w: World, c: Candidate)
    requires c.stableId !in w.applied
    ensures forall e :: PublishedOutcome(w, c) == Failed(e) <==> StuckCandidate(w, c, e)
    ensures !PublishedOutcome(w, c).Failed? ==>
      SplitTenant(c.stableId, w.namespace).Some?
      && (PublishedOutcome(w, c).Gone? <==> !HasProvider(w, c, SplitTenant(c.stableId, w.namespace).value))
  {
    var identity := SplitTenant(c.stableId, w.namespace);
    if identity.Some? { LocatedIffFound(w, c, identity.value); }
  }

  lemma {:induction false} LastPublishedExists(previous: seq<Candidate>, id: StableId) returns (j: int)
    requires PriorCandidate(previous, id).Some?
    ensures LastPublished(previous, id, j) && previous[j] == PriorCandidate(previous, id).value && id != ""
  {
    j := |previous| - 1;
    if !(IsModel(previous[j]) && previous[j].stableId == id && id != "") {
      j := LastPublishedExists(previous[..|previous| - 1], id);
    }
  }

  lemma {:induction false} AppliedOutcomeExact(w: World, desired: seq<Route>, id: StableId, e: StagingError)
    requires id in w.applied && Stale(w, desired, id)
    ensures AppliedOutcome(w, id) == Failed(e) <==> exists j :: RuleBlocks(w, desired, id, j, e)
  {
    if PriorCandidate(w.previous, id).Some? {
      var j := LastPublishedExists(w.previous, id);
      assert AppliedOutcome(w, id) == Failed(e) <==> RuleBlocks(w, desired, id, j, e);
    }
    if j :| RuleBlocks(w, desired, id, j, e) { PriorIsLast(w.previous, id, j); }
  }

  // Staging is blocked exactly by such a rule, such a candidate, or a published
  // model candidate without an identity, and with their errors.
  lemma {:induction false} BlockedIsExact(w: World, desired: seq<Route>, e: StagingError)
    ensures Blocked(w, desired, e) <==>
      || (exists id, j :: RuleBlocks(w, desired, id, j, e))
      || exists c :: c in w.previous && CandidateBlocks(w, desired, c, e)
  {
    forall id ensures Stale(w, desired, id) <==> id !in CurrentIds(w.sha, desired) {
      StaleIsNotCurrent(w, desired, id);
    }
    forall id | id in w.applied && Stale(w, desired, id)
      ensures AppliedOutcome(w, id) == Failed(e) <==> exists j :: RuleBlocks(w, desired, id, j, e)
    {
      AppliedOutcomeExact(w, desired, id, e);
    }
    forall c: Candidate | c.stableId !in w.applied
      ensures PublishedOutcome(w, c) == Failed(e) <==> StuckCandidate(w, c, e)
    {
      PublishedOutcomeExact(w, c);
    }
    assert forall c :: OwnCandidate(w, c) <==> TenantOwned(w, c);
    CandidatesBlock(w, desired, e);
    BlockedIffSome(w, desired, e);
  }

  ghost predicate Nameless(w: World) {
    exists j :: 0 <= j < |w.previous| && IsModel(w.previous[j]) && w.previous[j].stableId == ""
  }

  ghost predicate FailsAt(w: World, desired: seq<Route>, j: int, e: StagingError) {
    && 0 <= j < |w.previous| && TenantOwned(w, w.previous[j])
    && w.previous[j].stableId !in CurrentIds(w.sha, desired) && w.previous[j].stableId !in w.applied
    && PublishedOutcome(w, w.previous[j]) == Failed(e)
  }

  lemma {:induction false} CandidatesBlock(w: World, desired: seq<Route>, e: StagingError)
    requires forall id :: Stale(w, desired, id) <==> id !in CurrentIds(w.sha, desired)
    requires forall c: Candidate :: c.stableId !in w.applied ==>
      (PublishedOutcome(w, c) == Failed(e) <==> StuckCandidate(w, c, e))
    requires forall c :: OwnCandidate(w, c) <==> TenantOwned(w, c)
    ensures (exists c :: c in w.previous && CandidateBlocks(w, desired, c, e)) <==>
      || (e == NoStableId && Nameless(w))
      || exists j :: FailsAt(w, desired, j, e)
  {
    if c :| c in w.previous && CandidateBlocks(w, desired, c, e) {
      var j :| 0 <= j < |w.previous| && w.previous[j] == c;
      assert FailsAt(w, desired, j, e) || (IsModel(w.previous[j]) && w.previous[j].stableId == "");
    }
    if j :| 0 <= j < |w.previous| && IsModel(w.previous[j]) && w.previous[j].stableId == "" {
      assert e == NoStableId ==> CandidateBlocks(w, desired, w.previous[j], e);
    }
    if j :| FailsAt(w, desired, j, e) { assert CandidateBlocks(w, desired, w.previous[j], e); }
  }

  lemma {:induction false} BlockedIffSome(w: World, desired: seq<Route>, e: StagingError)
    requires forall id :: Stale(w, desired, id) <==> id !in CurrentIds(w.sha, desired)
    requires forall id :: id in w.applied && Stale(w, desired, id) ==>
      (AppliedOutcome(w, id) == Failed(e) <==> exists j :: RuleBlocks(w, desired, id, j, e))
    requires (exists c :: c in w.previous && CandidateBlocks(w, desired, c, e)) <==>
      || (e == NoStableId && Nameless(w))
      || exists j :: FailsAt(w, desired, j, e)
    ensures Blocked(w, desired, e) <==>
      || (exists id, j :: RuleBlocks(w, desired, id, j, e))
      || exists c :: c in w.previous && CandidateBlocks(w, desired, c, e)
  {
    if j :|
      && 0 <= j < |w.previous| && TenantOwned(w, w.previous[j])
      && w.previous[j].stableId !in CurrentIds(w.sha, desired)
      && w.previous[j].stableId !in w.applied && PublishedOutcome(w, w.previous[j]) == Failed(e)
    {
      assert FailsAt(w, desired, j, e);
    }
    if j :| FailsAt(w, desired, j, e) { assert TenantOwned(w, w.previous[j]); }
  }

  // A published candidate of the tenant that can be given a rule.
  ghost predicate CanDrain(w: World, c: Candidate) {
    && OwnCandidate(w, c) && SplitTenant(c.stableId, w.namespace).Some?
    && HasProvider(w, c, SplitTenant(c.stableId, w.namespace).value)
  }

  lemma {:induction false} GoneIffCannot(w: World, c: Candidate)
    requires TenantOwned(w, c) && c.stableId !in w.applied && !PublishedOutcome(w, c).Failed?
    ensures PublishedOutcome(w, c).Gone? <==> !CanDrain(w, c)
  {
    PublishedOutcomeExact(w, c);
  }

  lemma {:induction false} UnappliedAppends(w: World, desired: seq<Route>, id: StableId)
    requires DistinctPublished(w) && id !in w.applied && id !in CurrentIds(w.sha, desired)
    requires forall e :: !Blocked(w, desired, e)
    ensures Appends(w, desired, id) <==> exists c :: c in w.previous && c.stableId == id && CanDrain(w, c)
  {
    forall j | 0 <= j < |w.previous| && w.previous[j].stableId == id && TenantOwned(w, w.previous[j])
      ensures PublishedOutcome(w, w.previous[j]).Gone? <==> !CanDrain(w, w.previous[j])
    {
      if PublishedOutcome(w, w.previous[j]).Failed? {
        assert Blocked(w, desired, PublishedOutcome(w, w.previous[j]).error);
      }
      GoneIffCannot(w, w.previous[j]);
    }
    if c :| c in w.previous && c.stableId == id && CanDrain(w, c) {
      var j :| 0 <= j < |w.previous| && w.previous[j] == c;
      assert id in OwnIds(w) && !PublishedOutcome(w, w.previous[j]).Gone?;
    }
    if Appends(w, desired, id) {
      var j :| 0 <= j < |w.previous| && TenantOwned(w, w.previous[j]) && w.previous[j].stableId == id;
      assert CanDrain(w, w.previous[j]);
    }
  }

  // When staging succeeds, the identities appended are those of stale rules and
  // of stale candidates whose provider is still there, and nothing else.
  lemma {:induction false} AppendedIsExact(w: World, desired: seq<Route>, keys: seq<StableId>, staged: Staged,
                                           id: StableId)
    requires StagesExactly(w, desired, keys, staged) && DistinctPublished(w)
    ensures id in keys <==>
      Stale(w, desired, id) && (id in w.applied || exists c :: c in w.previous && c.stableId == id && CanDrain(w, c))
    ensures staged.pending <==> |staged.routes| > |desired|
  {
    StagedIdentities(w, desired, keys, staged);
    StagedIsNotBlocked(w, desired, keys, staged);
    StaleIsNotCurrent(w, desired, id);
    if id !in w.applied && id !in CurrentIds(w.sha, desired) { UnappliedAppends(w, desired, id); }
  }
}
