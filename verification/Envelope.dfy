// Rendering the routing overlay: candidates with their selection metadata, the
// JSON document, its content digest and the revision chained onto the last one.
module Envelopes {
  import opened Json
  import opened JsonRecords
  import opened Routes
  import opened Selection
  import opened Wrappers

  datatype SecretRef = SecretRef(name: string, namespace: string, key: string)

  // header is carried for the tenant's ExtProc configuration and never
  // serialized.
  datatype Credential = Credential(strategy: string, header: string, secretRef: SecretRef)

  datatype Candidate = Candidate(
    cluster: string, stableId: string, kind: string, name: string, site: string, isFresh: bool,
    selectionGroup: Option<nat>, trafficWeight: Option<nat>, credential: Option<Credential>,
    apiFormat: string, path: string, targetModel: string)

  datatype Overlay = Overlay(network: string, localSite: string, candidates: seq<Candidate>, policy: Option<Mode>)

  datatype Scope = Scope(network: string, gateway: string, namespace: string, localSite: string)

  datatype Options = Options(
    knownClusters: set<string>, sourceUid: string, producerVersion: string, renderedAt: string,
    includeProviderProfiles: bool, preserved: seq<Candidate>)

  // generation is a signed 64-bit integer, 0 when nothing was published yet.
  datatype Revision = Revision(generation: int, digest: string)

  datatype Envelope = Envelope(
    revision: Revision, scope: Scope, producerVersion: string, sourceUid: string, renderedAt: string, overlay: Overlay)

  datatype Error =
    | NegativeGeneration
    | ScopeMismatch
    | DuplicateProvider
    | UnknownCluster
    | UnsupportedCredential
    | UnknownAuthType
    | GenerationExhausted
    | RegressedRevision

  const MAX_INT64 := 0x7FFF_FFFF_FFFF_FFFF
  const INFERENCE_MODEL := "inference_model"

  // ----- credentials -----

  datatype Strategy = Strategy(strategy: string, header: string)

  const NO_STRATEGY := Strategy("", "")

  // The wire strategy and provider-boundary header of a route's credential.
  function StrategyFor(r: Route): Result<Strategy, Error> {
    if r.authType == "" then Ok(NO_STRATEGY)
    else if r.authType == "apikey" then
      if r.providerType == "openai" && r.apiFormat == "openai-chat" then Ok(Strategy("bearer_token", ""))
      else if r.providerType == "anthropic" && r.apiFormat == "messages" then Ok(Strategy("apikey", "x-api-key"))
      else if (r.providerType == "azure" || r.providerType == "azure-openai") && r.apiFormat == "openai-chat" then
        Ok(Strategy("apikey", "api-key"))
      else if r.providerType == "bedrock-openai" && r.apiFormat == "openai-chat" then Ok(Strategy("bearer_token", ""))
      else Err(UnsupportedCredential)
    else if r.authType == "sigv4" || r.authType == "oauth2" then Err(UnsupportedCredential)
    else Err(UnknownAuthType)
  }

  function RouteProblem(r: Route, opts: Options): Option<Error> {
    if opts.knownClusters != {} && r.cluster !in opts.knownClusters then Some(UnknownCluster)
    else match StrategyFor(r) case Ok(_) => None case Err(e) => Some(e)
  }

  function FirstProblem(bs: seq<Binding>, opts: Options): Option<Error> {
    if bs == [] then None
    else if RouteProblem(bs[0].route, opts).Some? then RouteProblem(bs[0].route, opts)
    else FirstProblem(bs[1..], opts)
  }

  // ----- candidates -----

  predicate PreservedWeighted(opts: Options) {
    exists c :: c in opts.preserved && c.trafficWeight.Some?
  }

  predicate PreservedGrouped(opts: Options) {
    exists c :: c in opts.preserved && c.selectionGroup.Some?
  }

  // Routes decide the picker mode; preserved candidates can only raise it.
  function FinalMode(bs: seq<Binding>, opts: Options): Option<Mode> {
    if HasUnequal(bs) || PreservedWeighted(opts) then Some(WeightedRandom)
    else if ModeOf(bs).None? && PreservedGrouped(opts) then Some(Random)
    else ModeOf(bs)
  }

  function CredentialOf(r: Route): Option<Credential> {
    match StrategyFor(r)
    case Ok(s) =>
      if s.strategy == "" then None
      else Some(Credential(s.strategy, s.header, SecretRef(r.secretName, SecretRefNamespace(r), r.secretKey)))
    case Err(_) => None
  }

  function Lookup(m: map<Key, nat>, k: Key): Option<nat> {
    if k in m then Some(m[k]) else None
  }

  function CandidateFor(selection: Metadata, scope: Scope, opts: Options, b: Binding): Candidate {
    Candidate(b.route.cluster, RouteStableId(b.route), INFERENCE_MODEL, b.route.clientName, scope.localSite, true,
              Lookup(selection.groups, KeyOf(b)), Lookup(selection.weights, KeyOf(b)), CredentialOf(b.route),
              if opts.includeProviderProfiles then b.route.apiFormat else "",
              if opts.includeProviderProfiles then b.route.path else "",
              if opts.includeProviderProfiles then b.route.targetModel else "")
  }

  function Weighted(c: Candidate): Candidate {
    c.(selectionGroup := if c.selectionGroup.None? then Some(0) else c.selectionGroup,
       trafficWeight := if c.trafficWeight.None? then Some(1) else c.trafficWeight)
  }

  function Stripped(c: Candidate): Candidate {
    c.(apiFormat := "", path := "", targetModel := "")
  }

  // A candidate as it is published.
  function Finished(mode: Option<Mode>, opts: Options, c: Candidate): Candidate {
    var d := if mode == Some(WeightedRandom) then Weighted(c) else c;
    if opts.includeProviderProfiles then d else Stripped(d)
  }

  function CandidatesFor(selection: Metadata, scope: Scope, opts: Options, bs: seq<Binding>): (r: seq<Candidate>)
    ensures |r| == |bs| && forall i | 0 <= i < |bs| :: r[i] == CandidateFor(selection, scope, opts, bs[i])
  {
    seq(|bs|, i requires 0 <= i < |bs| => CandidateFor(selection, scope, opts, bs[i]))
  }

  function FinishedAll(mode: Option<Mode>, opts: Options, cs: seq<Candidate>): (r: seq<Candidate>)
    ensures |r| == |cs| && forall i | 0 <= i < |cs| :: r[i] == Finished(mode, opts, cs[i])
  {
    seq(|cs|, i requires 0 <= i < |cs| => Finished(mode, opts, cs[i]))
  }

  function OverlayOf(bs: seq<Binding>, scope: Scope, opts: Options): Overlay {
    var mode := FinalMode(bs, opts);
    Overlay(scope.network, scope.localSite,
            FinishedAll(mode, opts, opts.preserved + CandidatesFor(MetadataOf(bs), scope, opts, bs)), mode)
  }

  // ----- the revision chain -----

  function NextRevision(prev: Revision, digest: string): Result<Revision, Error> {
    if prev.digest == digest && prev.generation > 0 then Ok(prev)
    else if prev.generation > 0 then
      if prev.generation == MAX_INT64 then Err(GenerationExhausted) else Ok(Revision(prev.generation + 1, digest))
    else Ok(Revision(1, digest))
  }

  function CheckRevisionTransition(prev: Revision, next: Revision): Result<(), Error> {
    if prev.generation < 0 || next.generation < 0 then Err(NegativeGeneration)
    else if next.generation == 0 then Err(RegressedRevision)
    else if prev.generation == 0 then Ok(())
    else if next.digest == prev.digest && next.generation != prev.generation then Err(RegressedRevision)
    else if next.digest != prev.digest && next.generation <= prev.generation then Err(RegressedRevision)
    else Ok(())
  }

  // ----- JSON form and digest -----

  const SECRET_REF_KEYS := ["name", "namespace", "key"]
  const CREDENTIAL_KEYS := ["strategy", "secretRef"]
  const CANDIDATE_KEYS := [
    "cluster", "stable_id", "kind", "name", "site", "fresh", "selection_group", "traffic_weight", "credential",
    "api_format", "path", "target_model"]
  const OVERLAY_KEYS := ["network", "local_site", "candidates", "selection_policy"]
  const SEMANTIC_KEYS := ["candidates", "local_site", "network", "selection_policy"]

  function Text(s: string): Option<Json> {
    Some(Str(s))
  }

  // A string field that is left out when empty.
  function Optional(s: string): Option<Json> {
    if s == "" then None else Text(s)
  }

  function OptionalNumber(n: Option<nat>): Option<Json> {
    match n case None => None case Some(v) => Some(Num(v))
  }

  function SecretRefValues(s: SecretRef): seq<Option<Json>> {
    [Text(s.name), Text(s.namespace), Text(s.key)]
  }

  function CredentialValues(c: Credential): seq<Option<Json>> {
    [Text(c.strategy), Some(SecretRefJson(c.secretRef))]
  }

  function SecretRefJson(s: SecretRef): Json {
    Obj(Record(SECRET_REF_KEYS, SecretRefValues(s)))
  }

  function CredentialJson(c: Credential): Json {
    Obj(Record(CREDENTIAL_KEYS, CredentialValues(c)))
  }

  function OptionalCredential(c: Option<Credential>): Option<Json> {
    match c case None => None case Some(v) => Some(CredentialJson(v))
  }

  function CandidateValues(c: Candidate): seq<Option<Json>> {
    ValuesWith(c, OptionalCredential(c.credential))
  }

  function ValuesWith(c: Candidate, credential: Option<Json>): seq<Option<Json>> {
    [Text(c.cluster), Optional(c.stableId), Text(c.kind), Text(c.name), Text(c.site), Some(Bool(c.isFresh)),
     OptionalNumber(c.selectionGroup), OptionalNumber(c.trafficWeight), credential,
     Optional(c.apiFormat), Optional(c.path), Optional(c.targetModel)]
  }

  function CandidateJson(c: Candidate): Json {
    Obj(Record(CANDIDATE_KEYS, CandidateValues(c)))
  }

  function CandidatesJson(cs: seq<Candidate>): seq<Json> {
    if cs == [] then [] else [CandidateJson(cs[0])] + CandidatesJson(cs[1..])
  }

  function PolicyJson(m: Mode): Json {
    Obj([Member("mode", Str(match m case Random => "random" case WeightedRandom => "weightedRandom"))])
  }

  function OptionalPolicy(m: Option<Mode>): Option<Json> {
    match m case None => None case Some(v) => Some(PolicyJson(v))
  }

  function OverlayJson(o: Overlay): Json {
    Obj(Record(OVERLAY_KEYS, [Text(o.network), Text(o.localSite), Some(Arr(CandidatesJson(o.candidates))),
                              OptionalPolicy(o.policy)]))
  }

  function SemanticValues(o: Overlay): seq<Option<Json>> {
    [Some(Arr(CandidatesJson(o.candidates))), Text(o.localSite), Text(o.network), OptionalPolicy(o.policy)]
  }

  // What the digest covers, in the order the digest's own struct lists it.
  function DigestInput(o: Overlay): Json {
    Obj(Record(SEMANTIC_KEYS, SemanticValues(o)))
  }

  // sha stands for SHA-256 of the canonical text, in hexadecimal.
  function DigestOf(sha: Json -> string, o: Overlay): string {
    sha(Canon(DigestInput(o)))
  }

  // ----- rendering -----

  function Rendered(sha: Json -> string, bs: seq<Binding>, scope: Scope, prev: Revision, opts: Options)
    : Result<Envelope, Error>
  {
    if prev.generation < 0 then Err(NegativeGeneration)
    else if scope.network == "" || scope.gateway == "" || scope.namespace == "" || scope.localSite == "" then
      Err(ScopeMismatch)
    else if !NoRepeats(bs) then Err(DuplicateProvider)
    else if FirstProblem(bs, opts).Some? then Err(FirstProblem(bs, opts).value)
    else
      var overlay := OverlayOf(bs, scope, opts);
      var next :- NextRevision(prev, DigestOf(sha, overlay));
      Ok(Envelope(next, scope, if opts.producerVersion == "" then "dev" else opts.producerVersion,
                  opts.sourceUid, opts.renderedAt, overlay))
  }

  method AnyPreserved(opts: Options) returns (weighted: bool, grouped: bool)
    ensures weighted == PreservedWeighted(opts) && grouped == PreservedGrouped(opts)
  {
    weighted := exists c :: c in opts.preserved && c.trafficWeight.Some?;
    grouped := exists c :: c in opts.preserved && c.selectionGroup.Some?;
  }

  method AppendRoutes(selection: Metadata, scope: Scope, opts: Options, bs: seq<Binding>)
    returns (r: Result<seq<Candidate>, Error>)
    ensures r == match FirstProblem(bs, opts)
                 case Some(e) => Err(e)
                 case None => Ok(opts.preserved + CandidatesFor(selection, scope, opts, bs))
  {
    var candidates := opts.preserved;
    var i := 0;
    assert bs[0..] == bs;
    while i < |bs|
      invariant 0 <= i <= |bs|
      invariant FirstProblem(bs, opts) == FirstProblem(bs[i..], opts)
      invariant candidates == opts.preserved + CandidatesFor(selection, scope, opts, bs[..i])
    {
      var problem := RouteProblem(bs[i].route, opts);
      if problem.Some? { return Err(problem.value); }
      assert bs[i..][1..] == bs[i + 1..];
      assert CandidatesFor(selection, scope, opts, bs[..i + 1])
          == CandidatesFor(selection, scope, opts, bs[..i]) + [CandidateFor(selection, scope, opts, bs[i])];
      candidates := candidates + [CandidateFor(selection, scope, opts, bs[i])];
      i := i + 1;
    }
    assert bs[..|bs|] == bs;
    r := Ok(candidates);
  }

  // The passes over the finished candidate list, in place: the weighted
  // contract first, then the removal of profile fields.
  method FinishCandidates(candidates: array<Candidate>, mode: Option<Mode>, opts: Options)
    modifies candidates
    ensures candidates[..] == FinishedAll(mode, opts, old(candidates[..]))
  {
    if mode == Some(WeightedRandom) {
      var i := 0;
      while i < candidates.Length
        invariant 0 <= i <= candidates.Length
        invariant forall k :: 0 <= k < i ==> candidates[k] == Weighted(old(candidates[k]))
        invariant forall k :: i <= k < candidates.Length ==> candidates[k] == old(candidates[k])
      {
        if candidates[i].selectionGroup.None? {
          candidates[i] := candidates[i].(selectionGroup := Some(0));
        }
        if candidates[i].trafficWeight.None? {
          candidates[i] := candidates[i].(trafficWeight := Some(1));
        }
        i := i + 1;
      }
    }
    label normalized:
    if !opts.includeProviderProfiles {
      var i := 0;
      while i < candidates.Length
        invariant 0 <= i <= candidates.Length
        invariant forall k :: 0 <= k < i ==> candidates[k] == Stripped(old@normalized(candidates[k]))
        invariant forall k :: i <= k < candidates.Length ==> candidates[k] == old@normalized(candidates[k])
      {
        candidates[i] := candidates[i].(apiFormat := "", path := "", targetModel := "");
        i := i + 1;
      }
    }
  }

  method FinishList(candidates: seq<Candidate>, mode: Option<Mode>, opts: Options) returns (r: seq<Candidate>)
    ensures r == FinishedAll(mode, opts, candidates)
  {
    var list := new Candidate[|candidates|](i requires 0 <= i < |candidates| => candidates[i]);
    assert list[..] == candidates;
    FinishCandidates(list, mode, opts);
    r := list[..];
  }

  // No bump without a content change.
  method Chain(prev: Revision, digest: string) returns (r: Result<Revision, Error>)
    ensures r == NextRevision(prev, digest)
  {
    var next := Revision(1, digest);
    if prev.digest == digest && prev.generation > 0 {
      next := prev;
    } else if prev.generation > 0 {
      if prev.generation == MAX_INT64 { return Err(GenerationExhausted); }
      next := Revision(prev.generation + 1, digest);
    }
    r := Ok(next);
  }

  method Render(sha: Json -> string, bs: seq<Binding>, scope: Scope, prev: Revision, opts: Options)
    returns (r: Result<Envelope, Error>)
    ensures r == Rendered(sha, bs, scope, prev, opts)
  {
    if prev.generation < 0 { return Err(NegativeGeneration); }
    if scope.network == "" || scope.gateway == "" || scope.namespace == "" || scope.localSite == "" {
      return Err(ScopeMismatch);
    }
    var derived := DeriveSelectionMetadata(bs);
    if derived.Err? { return Err(DuplicateProvider); }
    var selection := derived.value;
    var weighted, grouped := AnyPreserved(opts);
    var mode := selection.policy;
    if selection.weighted || weighted {
      mode := Some(WeightedRandom);
    } else if selection.policy.None? && grouped {
      mode := Some(Random);
    }
    var candidates :- AppendRoutes(selection, scope, opts, bs);
    var finished := FinishList(candidates, mode, opts);
    var overlay := Overlay(scope.network, scope.localSite, finished, mode);
    assert overlay == OverlayOf(bs, scope, opts);
    var next :- Chain(prev, DigestOf(sha, overlay));
    var version := if opts.producerVersion == "" then "dev" else opts.producerVersion;
    r := Ok(Envelope(next, scope, version, opts.sourceUid, opts.renderedAt, overlay));
  }

  // The digest a rendering declares is that of its overlay, its generation
  // moves with the digest, and the check before distribution never refuses it.
  lemma {:induction false} RenderedChains(sha: Json -> string, bs: seq<Binding>, scope: Scope, prev: Revision,
                                          opts: Options)
    requires prev.generation <= MAX_INT64 && Rendered(sha, bs, scope, prev, opts).Ok?
    ensures var e := Rendered(sha, bs, scope, prev, opts).value;
      && e.revision.digest == DigestOf(sha, e.overlay)
      && 1 <= e.revision.generation <= MAX_INT64
      && (prev.generation > 0 ==>
            e.revision.generation == prev.generation + if e.revision.digest == prev.digest then 0 else 1)
      && (prev.generation <= 0 ==> e.revision.generation == 1)
      && CheckRevisionTransition(prev, e.revision).Ok?
  {
  }
}
