// What a rendered envelope carries, field by field, and when rendering refuses,
// all stated on routes, preserved candidates and options.
module RenderedEnvelopes {
  import opened Envelopes
  import Json
  import opened Routes
  import opened Selection
  import opened SelectionOdds
  import opened StableIds
  import opened Wrappers

  // ----- the picker policy -----

  predicate ShareName(bs: seq<Binding>, i: int, j: int) {
    0 <= i < j < |bs| && bs[i].route.clientName == bs[j].route.clientName
  }

  // Two routes of one client name with different weights.
  ghost predicate Unequal(bs: seq<Binding>) {
    exists i, j :: ShareName(bs, i, j) && bs[i].route.weight != bs[j].route.weight
  }

  ghost predicate Shared(bs: seq<Binding>) {
    exists i, j :: ShareName(bs, i, j)
  }

  lemma {:induction false} NamedFrom(bs: seq<Binding>, name: string, k: nat) returns (i: nat)
    requires k < |Named(bs, name)|
    ensures i < |bs| && bs[i].route.clientName == name && bs[i].route == Named(bs, name)[k]
    ensures k > 0 ==> exists j :: 0 <= j < i && bs[j].route.clientName == name && bs[j].route == Named(bs, name)[0]
  {
    var front, n := bs[..|bs| - 1], |bs| - 1;
    if k < |Named(front, name)| {
      i := NamedFrom(front, name, k);
    } else {
      i := n;
      if k > 0 {
        var j := NamedFrom(front, name, 0);
        assert bs[j] == front[j];
      }
    }
  }

  lemma {:induction false} NamedTwice(bs: seq<Binding>, i: int, j: int)
    requires ShareName(bs, i, j)
    ensures |Named(bs, bs[i].route.clientName)| > 1
    ensures bs[i].route in Named(bs, bs[i].route.clientName) && bs[j].route in Named(bs, bs[i].route.clientName)
  {
    var name, front := bs[i].route.clientName, bs[..|bs| - 1];
    InNamed(bs, bs[i]);
    InNamed(bs, bs[j]);
    if j < |bs| - 1 {
      assert front[i] == bs[i] && front[j] == bs[j];
      NamedTwice(front, i, j);
    } else {
      assert front[i] == bs[i] && front[i] in front;
      InNamed(front, front[i]);
    }
  }

  lemma {:induction false} SharedIsExact(bs: seq<Binding>)
    ensures HasShared(bs) <==> Shared(bs)
  {
    if b :| b in bs && |Named(bs, b.route.clientName)| > 1 {
      var i := NamedFrom(bs, b.route.clientName, 1);
      var j :| 0 <= j < i && bs[j].route.clientName == b.route.clientName;
      assert ShareName(bs, j, i);
    }
    if i, j :| ShareName(bs, i, j) {
      NamedTwice(bs, i, j);
      assert bs[i] in bs;
    }
  }

  lemma {:induction false} UnequalIsExact(bs: seq<Binding>)
    ensures HasUnequal(bs) <==> Unequal(bs)
  {
    if b :| b in bs && !EqualWeights(Named(bs, b.route.clientName)) {
      var rs := Named(bs, b.route.clientName);
      var k :| 0 <= k < |rs| && rs[k].weight != rs[0].weight;
      var i := NamedFrom(bs, b.route.clientName, k);
      var j :| 0 <= j < i && bs[j].route.clientName == b.route.clientName && bs[j].route == rs[0];
      assert ShareName(bs, j, i);
    }
    if i, j :| ShareName(bs, i, j) && bs[i].route.weight != bs[j].route.weight {
      NamedTwice(bs, i, j);
      assert bs[i] in bs && !EqualWeights(Named(bs, bs[i].route.clientName));
    }
  }

  // One policy for the whole overlay: weighted as soon as two weights of one
  // name differ, or a preserved candidate has one; otherwise random as soon as
  // a name is shared, or a preserved candidate is grouped.
  lemma {:induction false} PolicyIsExact(bs: seq<Binding>, scope: Scope, opts: Options)
    ensures var policy := OverlayOf(bs, scope, opts).policy;
      var weighted := Unequal(bs) || exists c :: c in opts.preserved && c.trafficWeight.Some?;
      && (policy == Some(WeightedRandom) <==> weighted)
      && (policy == Some(Random) <==>
            !weighted && (Shared(bs) || exists c :: c in opts.preserved && c.selectionGroup.Some?))
  {
    UnequalIsExact(bs);
    SharedIsExact(bs);
  }

  // ----- candidates -----

  // The credential table: how a provider takes its API key.
  predicate TakesKeyBy(kind: string, apiFormat: string, strategy: string, header: string) {
    || (apiFormat == "openai-chat" && kind in {"openai", "bedrock-openai"} && header == ""
        && strategy == "bearer_token")
    || (apiFormat == "openai-chat" && kind in {"azure", "azure-openai"} && strategy == "apikey" && header == "api-key")
    || (apiFormat == "messages" && kind == "anthropic" && strategy == "apikey" && header == "x-api-key")
  }

  predicate CarriesSecret(r: Route, c: Candidate) {
    if r.authType == "" then c.credential.None?
    else
      && c.credential.Some? && r.authType == "apikey"
      && TakesKeyBy(r.providerType, r.apiFormat, c.credential.value.strategy, c.credential.value.header)
      && c.credential.value.secretRef.name == r.secretName && c.credential.value.secretRef.key == r.secretKey
      && c.credential.value.secretRef.namespace == (if r.secretNamespace == "" then r.namespace else r.secretNamespace)
  }

  // The profile fields, when profiles are on.
  predicate CarriesProfile(opts: Options, apiFormat: string, path: string, targetModel: string, c: Candidate) {
    if opts.includeProviderProfiles then c.apiFormat == apiFormat && c.path == path && c.targetModel == targetModel
    else c.apiFormat == "" && c.path == "" && c.targetModel == ""
  }

  predicate SameKey(a: Binding, b: Binding) {
    a.modelRef == b.modelRef && a.route.model == b.route.model
    && a.route.provider == b.route.provider && a.route.cluster == b.route.cluster
  }

  // The last route of a selection key decides its weight.
  predicate DecidesWeight(bs: seq<Binding>, i: int, j: int) {
    0 <= i <= j < |bs| && SameKey(bs[i], bs[j]) && forall k | j < k < |bs| :: !SameKey(bs[i], bs[k])
  }

  // A traffic weight is a weight brought into the picker's range.
  predicate Clamps(weight: int, traffic: nat) {
    1 <= traffic <= 1000 && (1 <= weight <= 1000 ==> traffic == weight)
    && (weight < 1 ==> traffic == 1) && (weight > 1000 ==> traffic == 1000)
  }

  lemma {:induction false} WeightIsLast(bs: seq<Binding>, i: nat) returns (j: nat)
    requires i < |bs|
    ensures DecidesWeight(bs, i, j) && KeyOf(bs[i]) in WeightMap(bs)
    ensures Clamps(bs[j].route.weight, WeightMap(bs)[KeyOf(bs[i])])
  {
    var front, n := bs[..|bs| - 1], |bs| - 1;
    if SameKey(bs[i], bs[n]) {
      j := n;
    } else {
      j := WeightIsLast(front, i);
      assert front[i] == bs[i] && front[j] == bs[j];
      assert forall k | j < k < |front| :: front[k] == bs[k];
    }
  }

  // Some route of the same selection key shares its name.
  ghost predicate Contended(bs: seq<Binding>, i: int)
    requires 0 <= i < |bs|
  {
    exists k, j :: 0 <= k < |bs| && SameKey(bs[i], bs[k]) && (ShareName(bs, k, j) || ShareName(bs, j, k))
  }

  lemma {:induction false} GroupedIffShared(bs: seq<Binding>, k: nat)
    requires k < |bs|
    ensures |Named(bs, bs[k].route.clientName)| > 1 <==> exists j :: ShareName(bs, k, j) || ShareName(bs, j, k)
  {
    var name := bs[k].route.clientName;
    if |Named(bs, name)| > 1 {
      var i := NamedFrom(bs, name, 1);
      var j :| 0 <= j < i && bs[j].route.clientName == name;
      if i == k { assert ShareName(bs, j, k); } else if i < k { assert ShareName(bs, i, k); } else {
        assert ShareName(bs, k, i);
      }
    }
    if j :| ShareName(bs, k, j) { NamedTwice(bs, k, j); }
    if j :| ShareName(bs, j, k) { NamedTwice(bs, j, k); }
  }

  lemma {:induction false} GroupMapIsExact(whole: seq<Binding>, bs: seq<Binding>, key: Key)
    ensures key in GroupMap(whole, bs) <==> exists k :: 0 <= k < |bs| && KeyOf(bs[k]) == key && Grouped(whole, bs[k])
    ensures key in GroupMap(whole, bs) ==> GroupMap(whole, bs)[key] == 0
  {
    if bs != [] {
      var front, n := bs[..|bs| - 1], |bs| - 1;
      GroupMapIsExact(whole, front, key);
      if k :| 0 <= k < |front| && KeyOf(front[k]) == key && Grouped(whole, front[k]) { assert bs[k] == front[k]; }
      if k :| 0 <= k < |bs| && KeyOf(bs[k]) == key && Grouped(whole, bs[k]) {
        if k < n { assert front[k] == bs[k]; }
      }
    }
  }

  lemma {:induction false} ContendedIsGrouped(bs: seq<Binding>, i: nat)
    requires i < |bs|
    ensures Contended(bs, i) <==>
      exists k :: 0 <= k < |bs| && KeyOf(bs[k]) == KeyOf(bs[i]) && |Named(bs, bs[k].route.clientName)| > 1
  {
    if Contended(bs, i) {
      var k, j :| 0 <= k < |bs| && SameKey(bs[i], bs[k]) && (ShareName(bs, k, j) || ShareName(bs, j, k));
      GroupedIffShared(bs, k);
      assert KeyOf(bs[k]) == KeyOf(bs[i]);
    }
    if k :| 0 <= k < |bs| && KeyOf(bs[k]) == KeyOf(bs[i]) && |Named(bs, bs[k].route.clientName)| > 1 {
      GroupedIffShared(bs, k);
      var j :| ShareName(bs, k, j) || ShareName(bs, j, k);
      assert SameKey(bs[i], bs[k]);
    }
  }

  lemma {:induction false} GroupIsExact(bs: seq<Binding>, i: nat)
    requires i < |bs|
    ensures Lookup(MetadataOf(bs).groups, KeyOf(bs[i])) == if Unequal(bs) || Contended(bs, i) then Some(0) else None
  {
    UnequalIsExact(bs);
    GroupMapIsExact(bs, bs, KeyOf(bs[i]));
    ContendedIsGrouped(bs, i);
    if Unequal(bs) {
      assert Grouped(bs, bs[i]);
    } else if k :| 0 <= k < |bs| && KeyOf(bs[k]) == KeyOf(bs[i]) && |Named(bs, bs[k].route.clientName)| > 1 {
      assert bs[k] in bs && Grouped(bs, bs[k]);
    }
  }

  lemma {:induction false} AppendedCandidate(bs: seq<Binding>, scope: Scope, opts: Options, i: nat)
    requires i < |bs|
    ensures var o := OverlayOf(bs, scope, opts);
      && |o.candidates| == |opts.preserved| + |bs|
      && o.candidates[|opts.preserved| + i]
         == Finished(o.policy, opts, CandidateFor(MetadataOf(bs), scope, opts, bs[i]))
  {
    AppendedAt(bs, scope, opts, i);
    assert OverlayOf(bs, scope, opts).candidates[|opts.preserved| + i] == Appended(bs, scope, opts)[i];
  }

  lemma {:induction false} SecretIsCarried(r: Route, opts: Options, c: Candidate)
    requires RouteProblem(r, opts).None? && c.credential == CredentialOf(r)
    ensures CarriesSecret(r, c)
  {
  }

  // The candidate of a route: named for its client, addressed to its Service,
  // under the route's identity, fresh, and with its credential and profile.
  lemma {:induction false} AppendedIsExact(bs: seq<Binding>, scope: Scope, opts: Options, i: nat)
    requires i < |bs| && FirstProblem(bs, opts).None?
    ensures |OverlayOf(bs, scope, opts).candidates| == |opts.preserved| + |bs|
    ensures var c, r := OverlayOf(bs, scope, opts).candidates[|opts.preserved| + i], bs[i].route;
      && c.kind == "inference_model" && c.name == r.clientName && c.cluster == r.cluster
      && c.stableId == (if r.stableId == "" then r.model + "/provider-" + r.provider else r.stableId)
      && c.site == scope.localSite && c.isFresh && CarriesSecret(r, c)
      && CarriesProfile(opts, r.apiFormat, r.path, r.targetModel, c)
  {
    AppendedCandidate(bs, scope, opts, i);
    EachIsFine(bs, opts, i);
    SecretIsCarried(bs[i].route, opts, OverlayOf(bs, scope, opts).candidates[|opts.preserved| + i]);
  }

  // It has a group when its name is shared or the overlay is weighted, and in
  // an overlay of unequal routes the weight of its selection key.
  lemma {:induction false} SelectionIsExact(bs: seq<Binding>, scope: Scope, opts: Options, i: nat)
    requires i < |bs|
    ensures |OverlayOf(bs, scope, opts).candidates| == |opts.preserved| + |bs|
    ensures var o := OverlayOf(bs, scope, opts);
      var c := o.candidates[|opts.preserved| + i];
      && c.selectionGroup == (if o.policy == Some(WeightedRandom) || Contended(bs, i) then Some(0) else None)
      && (o.policy != Some(WeightedRandom) ==> c.trafficWeight == None)
      && (o.policy == Some(WeightedRandom) && !Unequal(bs) ==> c.trafficWeight == Some(1))
      && (Unequal(bs) ==>
            c.trafficWeight.Some? && exists j ::
              DecidesWeight(bs, i, j) && Clamps(bs[j].route.weight, c.trafficWeight.value))
  {
    AppendedCandidate(bs, scope, opts, i);
    GroupIsExact(bs, i);
    UnequalIsExact(bs);
    var j := WeightIsLast(bs, i);
  }

  // A preserved candidate stays as it was published, but for the profile when
  // profiles are off, and for the group and the weight one that a weighted
  // overlay completes it with.
  lemma {:induction false} PreservedIsKept(bs: seq<Binding>, scope: Scope, opts: Options, j: nat)
    requires j < |opts.preserved|
    ensures |OverlayOf(bs, scope, opts).candidates| == |opts.preserved| + |bs|
    ensures var o, was := OverlayOf(bs, scope, opts), opts.preserved[j];
      var c, weighted := o.candidates[j], o.policy == Some(WeightedRandom);
      && c.cluster == was.cluster && c.stableId == was.stableId && c.kind == was.kind && c.name == was.name
      && c.site == was.site && c.isFresh == was.isFresh && c.credential == was.credential
      && CarriesProfile(opts, was.apiFormat, was.path, was.targetModel, c)
      && (was.selectionGroup.Some? || !weighted ==> c.selectionGroup == was.selectionGroup)
      && (was.selectionGroup.None? && weighted ==> c.selectionGroup == Some(0))
      && (was.trafficWeight.Some? || !weighted ==> c.trafficWeight == was.trafficWeight)
      && (was.trafficWeight.None? && weighted ==> c.trafficWeight == Some(1))
  {
    var drafts := opts.preserved + CandidatesFor(MetadataOf(bs), scope, opts, bs);
    assert drafts[j] == opts.preserved[j];
  }

  // ----- the envelope -----

  // What rendering refuses in a route.
  ghost predicate RefusedFor(r: Route, opts: Options, e: Error) {
    if opts.knownClusters != {} && r.cluster !in opts.knownClusters then e == UnknownCluster
    else if r.authType !in {"", "apikey", "sigv4", "oauth2"} then e == UnknownAuthType
    else
      && r.authType != "" && e == UnsupportedCredential
      && (r.authType == "apikey" ==> forall strategy, header ::
            !TakesKeyBy(r.providerType, r.apiFormat, strategy, header))
  }

  ghost predicate FirstRefused(bs: seq<Binding>, opts: Options, i: int, e: Error) {
    && 0 <= i < |bs| && RefusedFor(bs[i].route, opts, e)
    && forall j, f :: 0 <= j < i ==> !RefusedFor(bs[j].route, opts, f)
  }

  ghost predicate Refused(bs: seq<Binding>, opts: Options, e: Error) {
    exists i :: FirstRefused(bs, opts, i, e)
  }

  lemma {:induction false} RefusedIsProblem(r: Route, opts: Options, e: Error)
    ensures RefusedFor(r, opts, e) <==> RouteProblem(r, opts) == Some(e)
  {
    if r.authType == "apikey" && StrategyFor(r).Ok? {
      assert TakesKeyBy(r.providerType, r.apiFormat, StrategyFor(r).value.strategy, StrategyFor(r).value.header);
    }
  }

  lemma {:induction false} FirstRefusedShifts(bs: seq<Binding>, opts: Options, i: int, e: Error)
    requires bs != [] && forall f :: !RefusedFor(bs[0].route, opts, f)
    ensures FirstRefused(bs[1..], opts, i, e) <==> FirstRefused(bs, opts, i + 1, e)
  {
    var rest := bs[1..];
    assert forall j :: 0 <= j < |rest| ==> rest[j] == bs[j + 1];
    if FirstRefused(rest, opts, i, e) {
      forall j, f | 0 <= j < i + 1 ensures !RefusedFor(bs[j].route, opts, f) {
        if j > 0 { assert bs[j] == rest[j - 1]; }
      }
    }
  }

  lemma {:induction false} FirstRefusedIsProblem(bs: seq<Binding>, opts: Options, e: Error)
    ensures FirstProblem(bs, opts) == Some(e) <==> Refused(bs, opts, e)
  {
    if bs != [] {
      forall f ensures RefusedFor(bs[0].route, opts, f) <==> RouteProblem(bs[0].route, opts) == Some(f) {
        RefusedIsProblem(bs[0].route, opts, f);
      }
      if RouteProblem(bs[0].route, opts).Some? {
        if RouteProblem(bs[0].route, opts) == Some(e) { assert FirstRefused(bs, opts, 0, e); }
        if i :| FirstRefused(bs, opts, i, e) { OnlyFirstRefused(bs, opts, i, e); }
      } else {
        FirstRefusedIsProblem(bs[1..], opts, e);
        if i :| FirstRefused(bs[1..], opts, i, e) { FirstRefusedShifts(bs, opts, i, e); }
        if i :| FirstRefused(bs, opts, i, e) {
          FirstRefusedShifts(bs, opts, i - 1, e);
        }
      }
    }
  }

  lemma {:induction false} OnlyFirstRefused(bs: seq<Binding>, opts: Options, i: int, e: Error)
    requires FirstRefused(bs, opts, i, e) && exists f :: RefusedFor(bs[0].route, opts, f)
    ensures i == 0
  {
    var f :| RefusedFor(bs[0].route, opts, f);
  }

  ghost predicate Repeats(bs: seq<Binding>) {
    exists i, j :: ShareName(bs, i, j)
      && bs[i].route.provider == bs[j].route.provider
      && bs[i].route.providerNamespace == bs[j].route.providerNamespace
  }

  predicate Incomplete(scope: Scope) {
    scope.network == "" || scope.gateway == "" || scope.namespace == "" || scope.localSite == ""
  }

  predicate Exhausted(prev: Revision, digest: string) {
    prev.generation == MAX_INT64 && prev.digest != digest
  }

  // A success says for whom, from what, by whom and when it was rendered.
  lemma {:induction false} RenderedIsStamped(sha: Json.Json -> string, bs: seq<Binding>, scope: Scope, prev: Revision,
                                             opts: Options)
    requires Rendered(sha, bs, scope, prev, opts).Ok?
    ensures var e := Rendered(sha, bs, scope, prev, opts).value;
      && e.overlay == OverlayOf(bs, scope, opts)
      && e.overlay.network == scope.network && e.overlay.localSite == scope.localSite
      && e.scope == scope && e.sourceUid == opts.sourceUid && e.renderedAt == opts.renderedAt
      && e.producerVersion == (if opts.producerVersion == "" then "dev" else opts.producerVersion)
  {
  }

  // Rendering checks the generation, the scope, the repeats and the routes in
  // this order, and can then only run out of generations.
  ghost predicate RefusesWith(bs: seq<Binding>, scope: Scope, prev: Revision, opts: Options, digest: string, e: Error) {
    if prev.generation < 0 then e == NegativeGeneration
    else if Incomplete(scope) then e == ScopeMismatch
    else if Repeats(bs) then e == DuplicateProvider
    else
      || Refused(bs, opts, e)
      || (e == GenerationExhausted && Exhausted(prev, digest) && forall f :: !Refused(bs, opts, f))
  }

  // The error as it is found.
  function ErrorFound(bs: seq<Binding>, scope: Scope, prev: Revision, opts: Options, digest: string): Option<Error> {
    if prev.generation < 0 then Some(NegativeGeneration)
    else if Incomplete(scope) then Some(ScopeMismatch)
    else if !NoRepeats(bs) then Some(DuplicateProvider)
    else if FirstProblem(bs, opts).Some? then FirstProblem(bs, opts)
    else match NextRevision(prev, digest) case Ok(_) => None case Err(e) => Some(e)
  }

  lemma {:induction false} FoundIsExact(bs: seq<Binding>, scope: Scope, prev: Revision, opts: Options, digest: string,
                                        e: Error)
    ensures ErrorFound(bs, scope, prev, opts, digest) == Some(e) <==> RefusesWith(bs, scope, prev, opts, digest, e)
  {
    RepeatsIsExact(bs);
    RefusedIffProblem(bs, opts);
    FirstRefusedIsProblem(bs, opts, e);
    ChainedOrExhausted(prev, digest);
  }

  lemma {:induction false} RenderedFinds(sha: Json.Json -> string, bs: seq<Binding>, scope: Scope, prev: Revision,
                                         opts: Options)
    ensures var found := ErrorFound(bs, scope, prev, opts, DigestOf(sha, OverlayOf(bs, scope, opts)));
      var r := Rendered(sha, bs, scope, prev, opts);
      found == if r.Err? then Some(r.error) else None
  {
    if prev.generation >= 0 && !Incomplete(scope) && NoRepeats(bs) && FirstProblem(bs, opts).None? {
      assert Rendered(sha, bs, scope, prev, opts).Err? <==>
        NextRevision(prev, DigestOf(sha, OverlayOf(bs, scope, opts))).Err?;
    }
  }

  lemma {:induction false} RefusalIsExact(sha: Json.Json -> string, bs: seq<Binding>, scope: Scope, prev: Revision,
                                          opts: Options, e: Error)
    ensures Rendered(sha, bs, scope, prev, opts) == Err(e) <==>
      RefusesWith(bs, scope, prev, opts, DigestOf(sha, OverlayOf(bs, scope, opts)), e)
  {
    RenderedFinds(sha, bs, scope, prev, opts);
    FoundIsExact(bs, scope, prev, opts, DigestOf(sha, OverlayOf(bs, scope, opts)), e);
  }

  lemma {:induction false} RefusedIffProblem(bs: seq<Binding>, opts: Options)
    ensures FirstProblem(bs, opts).None? <==> forall f :: !Refused(bs, opts, f)
    ensures FirstProblem(bs, opts) != Some(GenerationExhausted)
  {
    forall f ensures FirstProblem(bs, opts) == Some(f) <==> Refused(bs, opts, f) { FirstRefusedIsProblem(bs, opts, f); }
    NotExhaustedByRoutes(bs, opts);
  }

  lemma {:induction false} ChainedOrExhausted(prev: Revision, digest: string)
    ensures match NextRevision(prev, digest)
            case Ok(next) => next.digest == digest && !Exhausted(prev, digest)
            case Err(e) => e == GenerationExhausted && Exhausted(prev, digest)
  {
  }

  // A revision may follow another exactly when neither is negative, it is one
  // at all, and the generation rises with a new digest and stays with the old.
  lemma {:induction false} TransitionIsExact(prev: Revision, next: Revision)
    ensures var r := CheckRevisionTransition(prev, next);
      && (r == Err(NegativeGeneration) <==> prev.generation < 0 || next.generation < 0)
      && (r.Ok? <==>
            && prev.generation >= 0 && next.generation >= 1
            && (prev.generation > 0 && next.digest == prev.digest ==> next.generation == prev.generation)
            && (prev.generation > 0 && next.digest != prev.digest ==> next.generation > prev.generation))
      && (r.Err? ==> r.error in {NegativeGeneration, RegressedRevision})
  {
  }

  lemma {:induction false} RepeatsIsExact(bs: seq<Binding>)
    ensures Repeats(bs) <==> !NoRepeats(bs)
  {
    if !NoRepeats(bs) {
      var i, j :| 0 <= i < j < |bs| && SameBinding(bs[i].route, bs[j].route);
      assert ShareName(bs, i, j);
    }
  }

  lemma {:induction false} NotExhaustedByRoutes(bs: seq<Binding>, opts: Options)
    ensures FirstProblem(bs, opts) != Some(GenerationExhausted)
  {
    if bs != [] { NotExhaustedByRoutes(bs[1..], opts); }
  }
}
