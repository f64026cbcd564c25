// Which routes are applied before an overlay is published: the desired ones
// plus every tenant-owned candidate that is still published or still applied.
module Staging {
  import Envelopes
  import opened Wrappers
  import opened Overlays
  import opened StableIds
  import opened Routes

  type Candidate = Envelopes.Candidate

  predicate IsModel(c: Candidate) {
    c.kind == Envelopes.INFERENCE_MODEL
  }

  datatype Provider = Provider(
    providerType: string, endpoint: string, tlsCACertificates: string,
    authType: string, secretName: string, namespace: string)

  // What the controller reads. serviceOwner is the namespace of the provider
  // with this name whose transport Service has this name. order is any order
  // in which the applied rules are visited.
  datatype World = World(
    sha: string -> string, namespace: string, apiTranslationEnabled: bool,
    applied: map<StableId, Route>, order: seq<StableId>, previous: seq<Candidate>,
    modelNames: map<string, string>, providers: map<(string, string), Provider>,
    serviceOwner: map<(string, string), string>)
  {
    ghost predicate Valid() {
      && (forall i, j :: 0 <= i < j < |order| ==> order[i] != order[j])
      && (forall id :: id in order <==> id in applied)
    }
  }

  datatype StagingError = NoStableId | NotThisTenant | Unstageable | UnknownProviderNamespace | ProviderUnreadable

  datatype Restored = Found(route: Route) | Gone | Failed(error: StagingError)

  function DesiredIds(sha: string -> string, r: Route): set<StableId> {
    {RouteStableId(r), CandidateStableId(r.model, r.provider)}
    + if CrossNamespace(r) then {ScopedStableId(sha, r.namespace, r.model, r.providerNamespace, r.provider)} else {}
  }

  function CurrentIds(sha: string -> string, desired: seq<Route>): set<StableId> {
    set i, id | 0 <= i < |desired| && id in DesiredIds(sha, desired[i]) :: id
  }

  /******* Rebuilding one withdrawn route *******/

  function OrElse(a: string, b: string): string {
    if a != "" then a else b
  }

  function ProviderNamespaceOf(w: World, c: Candidate, identity: Identity): Option<string> {
    if identity.providerNamespace != "" && identity.providerNamespace != w.namespace then
      Some(identity.providerNamespace)
    else if c.cluster == PROVIDER_SERVICE_PREFIX + identity.provider then Some(w.namespace)
    else if (identity.provider, c.cluster) in w.serviceOwner then
      Some(OrElse(w.serviceOwner[(identity.provider, c.cluster)], w.namespace))
    else None
  }

  function RouteForWithdrawn(w: World, c: Candidate, identity: Identity): (r: Restored)
    ensures r.Found? ==> r.route.stableId == c.stableId
    ensures r.Gone? ==> c.stableId !in w.applied
  {
    var isApplied := c.stableId in w.applied;
    var providerNamespace := ProviderNamespaceOf(w, c, identity);
    if !isApplied && providerNamespace.None? then Failed(UnknownProviderNamespace)
    else
      var route :=
        if isApplied then w.applied[c.stableId].(clientName := c.name, cluster := c.cluster)
        else
          var specName := if identity.model in w.modelNames then w.modelNames[identity.model] else "";
          NO_ROUTE.(
            model := identity.model, clientName := OrElse(c.name, OrElse(specName, identity.model)),
            namespace := w.namespace,
            provider := identity.provider, providerNamespace := providerNamespace.value,
            apiTranslationEnabled := w.apiTranslationEnabled, stableId := c.stableId);
      var key := (route.providerNamespace, identity.provider);
      if key !in w.providers then
        if !isApplied then Gone
        else if route.providerType != "" || c.credential.None? then
          Found(route.(apiTranslationEnabled := w.apiTranslationEnabled, stableId := c.stableId))
        else Failed(ProviderUnreadable)
      else
        var p := w.providers[key];
        var profiled :=
          if c.apiFormat != "" || !isApplied then
            route.(apiFormat := c.apiFormat, path := c.path, targetModel := c.targetModel)
          else route;
        var transported := profiled.(
          apiTranslationEnabled := w.apiTranslationEnabled, providerType := p.providerType,
          tlsCACertificates := p.tlsCACertificates,
          cluster := OrElse(route.cluster, OrElse(c.cluster, PROVIDER_SERVICE_PREFIX + identity.provider)),
          endpoint := OrElse(route.endpoint, p.endpoint), stableId := c.stableId);
        Found(match c.credential
              case Some(s) =>
                transported.(authType := "apikey", secretName := s.secretRef.name,
                             secretNamespace := s.secretRef.namespace, secretKey := s.secretRef.key)
              case None =>
                transported.(authType := p.authType, secretName := p.secretName,
                             secretNamespace := p.namespace, secretKey := "api-key"))
  }

  // The last published candidate with this identity.
  function PriorCandidate(previous: seq<Candidate>, id: StableId): Option<Candidate> {
    if previous == [] then None
    else
      var last := previous[|previous| - 1];
      if IsModel(last) && last.stableId == id && id != "" then Some(last)
      else PriorCandidate(previous[..|previous| - 1], id)
  }

  function AppliedOutcome(w: World, id: StableId): (r: Restored)
    requires id in w.applied
    ensures !r.Gone?
  {
    match PriorCandidate(w.previous, id)
    case None => Found(w.applied[id])
    case Some(c) =>
      PriorCandidateMatches(w.previous, id);
      match SplitTenant(id, w.namespace)
      case None => Failed(NotThisTenant)
      case Some(identity) => RouteForWithdrawn(w, c, identity)
  }

  lemma {:induction false} PriorCandidateMatches(previous: seq<Candidate>, id: StableId)
    ensures PriorCandidate(previous, id).Some? ==> PriorCandidate(previous, id).value.stableId == id
  {
    if previous != [] { PriorCandidateMatches(previous[..|previous| - 1], id); }
  }

  // A published candidate this tenant must keep routable. A hashed or
  // four-part identity of another namespace is an attachment with its own
  // lifecycle.
  predicate TenantOwned(w: World, c: Candidate) {
    IsModel(c) && (!IsScoped(c.stableId) || SplitTenant(c.stableId, w.namespace).Some?)
  }

  function PublishedOutcome(w: World, c: Candidate): Restored {
    match SplitTenant(c.stableId, w.namespace)
    case None => Failed(Unstageable)
    case Some(identity) =>
      if identity.model == "" || identity.provider == "" || c.cluster == "" then Failed(Unstageable)
      else RouteForWithdrawn(w, c, identity)
  }

  /******* Staging a publication *******/

  datatype Staged = Staged(routes: seq<Route>, pending: bool)

  // Appended route k stands for identity keys[k], from its applied rule when
  // it has one and from the published overlay otherwise.
  ghost predicate StandsFor(w: World, id: StableId, route: Route) {
    if id in w.applied then AppliedOutcome(w, id) == Found(route)
    else exists j :: 0 <= j < |w.previous| && w.previous[j].stableId == id && TenantOwned(w, w.previous[j])
           && PublishedOutcome(w, w.previous[j]) == Found(route)
  }

  // The desired routes, then every stale identity exactly once, except those
  // with no applied rule whose provider is gone.
  ghost predicate StagesExactly(w: World, desired: seq<Route>, keys: seq<StableId>, staged: Staged) {
    && |staged.routes| == |desired| + |keys|
    && desired <= staged.routes
    && (staged.pending <==> keys != [])
    && (forall i, j :: 0 <= i < j < |keys| ==> keys[i] != keys[j])
    && (forall k :: 0 <= k < |keys| ==> keys[k] !in CurrentIds(w.sha, desired))
    && (forall k :: 0 <= k < |keys| ==> StandsFor(w, keys[k], staged.routes[|desired| + k]))
    && (forall id :: id in w.applied && id !in CurrentIds(w.sha, desired) ==> id in keys)
    && (forall j :: 0 <= j < |w.previous| && IsModel(w.previous[j]) ==> w.previous[j].stableId != "")
    && (forall j | 0 <= j < |w.previous| && TenantOwned(w, w.previous[j])
                   && w.previous[j].stableId !in CurrentIds(w.sha, desired) ::
          w.previous[j].stableId in keys || PublishedOutcome(w, w.previous[j]).Gone?)
  }

  // Something that cannot be staged: staging fails with its error rather than
  // drop it.
  ghost predicate Blocked(w: World, desired: seq<Route>, e: StagingError) {
    || (exists id :: id in w.applied && id !in CurrentIds(w.sha, desired) && AppliedOutcome(w, id) == Failed(e))
    || (e == NoStableId && exists j :: 0 <= j < |w.previous| && IsModel(w.previous[j]) && w.previous[j].stableId == "")
    || (exists j :: 0 <= j < |w.previous| && TenantOwned(w, w.previous[j])
         && w.previous[j].stableId !in CurrentIds(w.sha, desired)
          && w.previous[j].stableId !in w.applied && PublishedOutcome(w, w.previous[j]) == Failed(e))
  }

  // What has been appended so far: keys name the appended routes.
  ghost predicate Appended(w: World, desired: seq<Route>, keys: seq<StableId>, union: seq<Route>) {
    && |union| == |desired| + |keys|
    && desired <= union
    && (forall i, j :: 0 <= i < j < |keys| ==> keys[i] != keys[j])
    && (forall k :: 0 <= k < |keys| ==> keys[k] !in CurrentIds(w.sha, desired))
    && (forall k :: 0 <= k < |keys| ==> StandsFor(w, keys[k], union[|desired| + k]))
  }

  lemma {:induction false} AppendOne(w: World, desired: seq<Route>, keys: seq<StableId>, union: seq<Route>,
                                     id: StableId, route: Route)
    requires Appended(w, desired, keys, union)
    requires id !in keys && id !in CurrentIds(w.sha, desired) && StandsFor(w, id, route)
    ensures Appended(w, desired, keys + [id], union + [route])
  {
    var longer := keys + [id];
    assert forall k :: 0 <= k < |keys| ==>
      longer[k] == keys[k] && (union + [route])[|desired| + k] == union[|desired| + k];
  }

  function Known(w: World, desired: seq<Route>, keys: seq<StableId>): set<StableId> {
    CurrentIds(w.sha, desired) + set k | k in keys
  }

  method IndexDesired(sha: string -> string, desired: seq<Route>) returns (byId: set<StableId>)
    ensures byId == CurrentIds(sha, desired)
  {
    byId := {};
    for i := 0 to |desired|
      invariant byId == CurrentIds(sha, desired[..i])
    {
      assert desired[..i + 1] == desired[..i] + [desired[i]];
      CurrentIdsAppend(sha, desired[..i], desired[i]);
      byId := byId + DesiredIds(sha, desired[i]);
    }
    assert desired[..|desired|] == desired;
  }

  // The first pass: every applied rule that is not desired.
  method StageApplied(w: World, desired: seq<Route>)
    returns (error: Option<StagingError>, byId: set<StableId>, union: seq<Route>, ghost keys: seq<StableId>)
    requires w.Valid()
    ensures error.Some? ==> Blocked(w, desired, error.value)
    ensures error.None? ==>
      && Appended(w, desired, keys, union) && byId == Known(w, desired, keys)
      && forall id :: id in w.applied && id !in CurrentIds(w.sha, desired) ==> id in keys
  {
    byId := IndexDesired(w.sha, desired);
    error, union, keys := None, desired, [];
    for i := 0 to |w.order|
      invariant Appended(w, desired, keys, union) && byId == Known(w, desired, keys)
      invariant forall k :: k in keys ==> k in w.order[..i]
      invariant forall k :: k in w.order[..i] && k !in CurrentIds(w.sha, desired) ==> k in keys
    {
      var id := w.order[i];
      assert w.order[..i + 1] == w.order[..i] + [id];
      assert id !in w.order[..i];
      if id !in byId {
        var restored := AppliedOutcome(w, id);
        if restored.Failed? {
          return Some(restored.error), byId, union, keys;
        }
        AppendOne(w, desired, keys, union, id, restored.route);
        keys, byId, union := keys + [id], byId + {id}, union + [restored.route];
      }
    }
    assert w.order[..|w.order|] == w.order;
  }

  predicate Unpublished(w: World, c: Candidate, known: set<StableId>) {
    TenantOwned(w, c) && c.stableId !in known
  }

  ghost predicate PublishedStaged(w: World, upTo: int, known: set<StableId>)
    requires upTo <= |w.previous|
  {
    && (forall i :: 0 <= i < upTo && IsModel(w.previous[i]) ==> w.previous[i].stableId != "")
    && (forall i :: 0 <= i < upTo && Unpublished(w, w.previous[i], known) ==> PublishedOutcome(w, w.previous[i]).Gone?)
  }

  lemma {:induction false} CandidateBlocks(w: World, desired: seq<Route>, j: nat)
    requires j < |w.previous| && TenantOwned(w, w.previous[j]) && PublishedOutcome(w, w.previous[j]).Failed?
    requires w.previous[j].stableId !in w.applied && w.previous[j].stableId !in CurrentIds(w.sha, desired)
    ensures Blocked(w, desired, PublishedOutcome(w, w.previous[j]).error)
  {
  }

  lemma {:induction false} CandidateStands(w: World, j: nat, route: Route)
    requires j < |w.previous| && TenantOwned(w, w.previous[j]) && PublishedOutcome(w, w.previous[j]) == Found(route)
    requires w.previous[j].stableId !in w.applied
    ensures StandsFor(w, w.previous[j].stableId, route)
  {
  }

  lemma {:induction false} StagedMore(w: World, upTo: nat, known: set<StableId>, id: StableId)
    requires upTo <= |w.previous| && PublishedStaged(w, upTo, known)
    ensures PublishedStaged(w, upTo, known + {id})
  {
  }

  lemma {:induction false} KnownMore(w: World, desired: seq<Route>, keys: seq<StableId>, id: StableId)
    ensures Known(w, desired, keys + [id]) == Known(w, desired, keys) + {id}
  {
  }

  // A candidate that is now known needs no further staging.
  lemma {:induction false} StagedNext(w: World, j: nat, known: set<StableId>)
    requires j < |w.previous| && PublishedStaged(w, j, known)
    requires IsModel(w.previous[j]) ==> w.previous[j].stableId != ""
    requires Unpublished(w, w.previous[j], known) ==> PublishedOutcome(w, w.previous[j]).Gone?
    ensures PublishedStaged(w, j + 1, known)
  {
  }

  // One published candidate of the second pass.
  method StageCandidate(w: World, desired: seq<Route>, j: nat, known: set<StableId>, staged: seq<Route>,
                        ghost given: seq<StableId>)
    returns (error: Option<StagingError>, byId: set<StableId>, union: seq<Route>, ghost keys: seq<StableId>)
    requires j < |w.previous| && Appended(w, desired, given, staged) && known == Known(w, desired, given)
    requires forall id :: id in w.applied ==> id in known
    requires PublishedStaged(w, j, known)
    ensures error.Some? ==> Blocked(w, desired, error.value)
    ensures error.None? ==>
      && given <= keys
      && Appended(w, desired, keys, union) && byId == Known(w, desired, keys)
      && PublishedStaged(w, j + 1, byId)
  {
    error, byId, union, keys := None, known, staged, given;
    var c := w.previous[j];
    if IsModel(c) && c.stableId == "" { return Some(NoStableId), byId, union, keys; }
    if !IsModel(c) || !Unpublished(w, c, byId) {
      StagedNext(w, j, byId);
      return;
    }
    var restored := PublishedOutcome(w, c);
    if restored.Failed? {
      CandidateBlocks(w, desired, j);
      return Some(restored.error), byId, union, keys;
    }
    if restored.Found? {
      CandidateStands(w, j, restored.route);
      AppendOne(w, desired, keys, union, c.stableId, restored.route);
      KnownMore(w, desired, keys, c.stableId);
      StagedMore(w, j, byId, c.stableId);
      keys, byId, union := keys + [c.stableId], byId + {c.stableId}, union + [restored.route];
    }
    StagedNext(w, j, byId);
  }

  // The second pass: every published candidate not covered so far.
  method StagePublished(w: World, desired: seq<Route>, known: set<StableId>, staged: seq<Route>,
                        ghost given: seq<StableId>)
    returns (error: Option<StagingError>, byId: set<StableId>, union: seq<Route>, ghost keys: seq<StableId>)
    requires Appended(w, desired, given, staged) && known == Known(w, desired, given)
    requires forall id :: id in w.applied ==> id in known
    ensures error.Some? ==> Blocked(w, desired, error.value)
    ensures error.None? ==>
      && given <= keys
      && Appended(w, desired, keys, union) && byId == Known(w, desired, keys)
      && PublishedStaged(w, |w.previous|, byId)
  {
    error, byId, union, keys := None, known, staged, given;
    for j := 0 to |w.previous|
      invariant error.None? && given <= keys
      invariant Appended(w, desired, keys, union) && byId == Known(w, desired, keys)
      invariant forall id :: id in w.applied ==> id in byId
      invariant PublishedStaged(w, j, byId)
    {
      ghost var before := keys;
      error, byId, union, keys := StageCandidate(w, desired, j, byId, union, keys);
      if error.Some? { return; }
      KnownGrows(w, desired, before, keys);
    }
  }

  lemma {:induction false} KnownGrows(w: World, desired: seq<Route>, given: seq<StableId>, keys: seq<StableId>)
    requires given <= keys
    ensures Known(w, desired, given) <= Known(w, desired, keys)
  {
    forall id | id in Known(w, desired, given) ensures id in Known(w, desired, keys) {
      if id !in CurrentIds(w.sha, desired) {
        var i :| 0 <= i < |given| && given[i] == id;
        assert keys[i] == id;
      }
    }
  }

  method TransportRoutesForPublication(w: World, desired: seq<Route>)
    returns (result: Result<Staged, StagingError>, ghost keys: seq<StableId>)
    requires w.Valid()
    ensures result.Ok? ==> StagesExactly(w, desired, keys, result.value)
    ensures result.Err? ==> Blocked(w, desired, result.error)
  {
    var error, byId, union;
    error, byId, union, keys := StageApplied(w, desired);
    if error.Some? {
      return Err(error.value), keys;
    }
    error, byId, union, keys := StagePublished(w, desired, byId, union, keys);
    if error.Some? {
      return Err(error.value), keys;
    }
    var currentIds := IndexDesired(w.sha, desired);
    var stale := exists id | id in byId :: id !in currentIds;
    if keys != [] {
      assert keys[0] in byId;
    }
    assert forall i | 0 <= i < |w.previous| && TenantOwned(w, w.previous[i])
                      && w.previous[i].stableId !in currentIds && w.previous[i].stableId !in keys ::
      Unpublished(w, w.previous[i], byId);
    return Ok(Staged(union, stale)), keys;
  }

  lemma {:induction false} CurrentIdsAppend(sha: string -> string, desired: seq<Route>, r: Route)
    ensures CurrentIds(sha, desired + [r]) == CurrentIds(sha, desired) + DesiredIds(sha, r)
  {
    var longer := desired + [r];
    assert longer[|desired|] == r;
    assert forall i :: 0 <= i < |desired| ==> longer[i] == desired[i];
  }

  ghost predicate DistinctPublished(w: World) {
    forall i, j :: 0 <= i < j < |w.previous| ==> w.previous[i].stableId != w.previous[j].stableId
  }

  lemma {:induction false} StagedIsRestored(w: World, desired: seq<Route>, keys: seq<StableId>, staged: Staged,
                                            id: StableId)
    requires StagesExactly(w, desired, keys, staged) && id in keys
    ensures exists route :: StandsFor(w, id, route)
  {
    var k :| 0 <= k < |keys| && keys[k] == id;
    assert StandsFor(w, keys[k], staged.routes[|desired| + k]);
  }

  lemma {:induction false} OneOutcome(w: World, j: nat, id: StableId, route: Route)
    requires DistinctPublished(w) && j < |w.previous| && w.previous[j].stableId == id && id !in w.applied
    requires StandsFor(w, id, route)
    ensures PublishedOutcome(w, w.previous[j]) == Found(route)
  {
  }

  lemma {:induction false} CandidateIsNotFailed(w: World, desired: seq<Route>, keys: seq<StableId>, staged: Staged,
                                                j: nat)
    requires StagesExactly(w, desired, keys, staged) && DistinctPublished(w)
    requires j < |w.previous| && TenantOwned(w, w.previous[j]) && w.previous[j].stableId !in w.applied
    requires w.previous[j].stableId !in CurrentIds(w.sha, desired)
    ensures !PublishedOutcome(w, w.previous[j]).Failed?
  {
    var id := w.previous[j].stableId;
    if id in keys {
      StagedIsRestored(w, desired, keys, staged, id);
      var route :| StandsFor(w, id, route);
      OneOutcome(w, j, id, route);
    }
  }

  // When published identities are distinct, as the overlay's consumer demands,
  // what was staged was not blocked: staging fails exactly when something
  // cannot be staged.
  lemma {:induction false} StagedIsNotBlocked(w: World, desired: seq<Route>, keys: seq<StableId>, staged: Staged)
    requires StagesExactly(w, desired, keys, staged) && DistinctPublished(w)
    ensures forall e :: !Blocked(w, desired, e)
  {
    forall id | id in w.applied && id !in CurrentIds(w.sha, desired) ensures !AppliedOutcome(w, id).Failed? {
      StagedIsRestored(w, desired, keys, staged, id);
    }
    forall j | 0 <= j < |w.previous| && TenantOwned(w, w.previous[j])
      && w.previous[j].stableId !in CurrentIds(w.sha, desired)
               && w.previous[j].stableId !in w.applied
      ensures !PublishedOutcome(w, w.previous[j]).Failed?
    {
      CandidateIsNotFailed(w, desired, keys, staged, j);
    }
  }

  /******* Staging as sets of identities *******/

  function OwnIds(w: World): set<StableId> {
    set j | 0 <= j < |w.previous| && TenantOwned(w, w.previous[j]) :: w.previous[j].stableId
  }

  // A published candidate without an applied rule whose provider is gone.
  ghost predicate GoneCandidate(w: World, id: StableId) {
    && id !in w.applied
    && exists j :: 0 <= j < |w.previous| && w.previous[j].stableId == id && TenantOwned(w, w.previous[j])
         && PublishedOutcome(w, w.previous[j]).Gone?
  }

  // What is appended: every applied identity and every published one of the
  // tenant, except those that a desired route goes by and those that are gone.
  ghost predicate Appends(w: World, desired: seq<Route>, id: StableId) {
    (id in w.applied || (id in OwnIds(w) && !GoneCandidate(w, id))) && id !in CurrentIds(w.sha, desired)
  }

  lemma {:induction false} StagedIdentities(w: World, desired: seq<Route>, keys: seq<StableId>, staged: Staged)
    requires StagesExactly(w, desired, keys, staged) && DistinctPublished(w)
    ensures forall id :: id in keys <==> Appends(w, desired, id)
    ensures staged.pending <==> exists id :: Appends(w, desired, id)
  {
    forall id | id in keys ensures Appends(w, desired, id) {
      var i :| 0 <= i < |keys| && keys[i] == id;
      assert StandsFor(w, id, staged.routes[|desired| + i]);
    }
    forall id | Appends(w, desired, id) ensures id in keys {
      if id !in w.applied {
        var j :| 0 <= j < |w.previous| && TenantOwned(w, w.previous[j]) && w.previous[j].stableId == id;
        assert !PublishedOutcome(w, w.previous[j]).Gone?;
      }
    }
    if staged.pending { assert Appends(w, desired, keys[0]); }
  }

  lemma {:induction false} PriorCandidateExact(previous: seq<Candidate>, id: StableId)
    ensures PriorCandidate(previous, id).Some? ==>
      id != "" && exists j :: 0 <= j < |previous| && IsModel(previous[j]) && previous[j].stableId == id
    ensures id != "" && (exists j :: 0 <= j < |previous| && IsModel(previous[j]) && previous[j].stableId == id) ==>
      PriorCandidate(previous, id).Some?
  {
    if previous != [] {
      var front := previous[..|previous| - 1];
      PriorCandidateExact(front, id);
      if j :| 0 <= j < |previous| && IsModel(previous[j]) && previous[j].stableId == id {
        if j < |front| { assert front[j] == previous[j]; }
      }
      if j :| 0 <= j < |front| && IsModel(front[j]) && front[j].stableId == id { assert previous[j] == front[j]; }
    }
  }

  lemma {:induction false} PriorIsPublished(w: World, id: StableId)
    requires forall j :: 0 <= j < |w.previous| && IsModel(w.previous[j]) ==> w.previous[j].stableId != ""
    ensures PriorCandidate(w.previous, id).Some? && SplitTenant(id, w.namespace).Some? ==> id in OwnIds(w) && id != ""
    ensures id in OwnIds(w) ==> PriorCandidate(w.previous, id).Some?
  {
    PriorCandidateExact(w.previous, id);
    PriorCandidateMatches(w.previous, id);
  }

  // Restoring an applied route keeps its provider, and gives it back the
  // published identity.
  lemma {:induction false} AppliedFound(w: World, id: StableId, route: Route)
    requires id in w.applied && AppliedOutcome(w, id) == Found(route)
    ensures TargetOf(route) == TargetOf(w.applied[id]) && route.namespace == w.applied[id].namespace
    ensures route.model == w.applied[id].model && route.provider == w.applied[id].provider
    ensures PriorCandidate(w.previous, id).Some? ==> SplitTenant(id, w.namespace).Some? && route.stableId == id
    ensures PriorCandidate(w.previous, id).None? ==> route == w.applied[id]
  {
    PriorCandidateMatches(w.previous, id);
  }

  // A restored route of a published candidate sends where the candidate's
  // identity says.
  lemma {:induction false} PublishedFound(w: World, c: Candidate, identity: Identity, route: Route)
    requires c.stableId !in w.applied && PublishedOutcome(w, c) == Found(route)
    requires SplitTenant(c.stableId, w.namespace) == Some(identity)
    requires if identity.providerNamespace == "" then c.cluster == PROVIDER_SERVICE_PREFIX + identity.provider
             else identity.providerNamespace != w.namespace
    ensures route.stableId == c.stableId && route.model == identity.model && route.provider == identity.provider
    ensures route.namespace == w.namespace
    ensures TargetOf(route) ==
      if identity.providerNamespace == "" then Local(identity.model, identity.provider)
      else Scoped(w.namespace, identity.model, identity.providerNamespace, identity.provider)
  {
  }
}
