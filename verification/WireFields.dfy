// What a consumer reads under each name of the written envelope.
module WireFields {
  import opened Envelopes
  import opened Json
  import opened JsonRecords
  import opened Selection
  import opened WireDigests
  import opened Wrappers

  // What a document says under a name of an object.
  function At(v: Value, key: string): Option<Value> {
    if v.VObj? && key in v.entries then Some(v.entries[key]) else None
  }

  function Str(s: string): Option<Value> {
    Some(VStr(s))
  }

  // Empty strings are left out where the wire says so.
  function NonEmpty(s: string): Option<Value> {
    if s == "" then None else Some(VStr(s))
  }

  function Number(n: Option<nat>): Option<Value> {
    if n.Some? then Some(VNum(n.value)) else None
  }

  function Meaning(j: Option<Json>): Option<Value> {
    if j.Some? then Some(Denote(j.value)) else None
  }

  // Under each name stands the field of that name.
  predicate Reads(v: Value, keys: seq<string>, values: seq<Option<Json>>) {
    |keys| == |values| && forall i | 0 <= i < |keys| :: At(v, keys[i]) == Meaning(values[i])
  }

  lemma {:induction false} RecordReads(keys: seq<string>, values: seq<Option<Json>>)
    requires |keys| == |values| && Distinct(keys)
    ensures Reads(Denote(Obj(Record(keys, values))), keys, values)
  {
    EntriesMeaning(Record(keys, values));
    forall i | 0 <= i < |keys|
      ensures At(Denote(Obj(Record(keys, values))), keys[i]) == Meaning(values[i])
    {
      FieldNamed(keys, values, i, keys[i]);
    }
  }

  lemma {:induction false} SecretRefSays(v: Value, s: SecretRef)
    requires Reads(v, SECRET_REF_KEYS, SecretRefValues(s))
    ensures At(v, "name") == Str(s.name) && At(v, "namespace") == Str(s.namespace) && At(v, "key") == Str(s.key)
  {
    var keys := SECRET_REF_KEYS;
    assert At(v, keys[0]) == Str(s.name) && At(v, keys[1]) == Str(s.namespace) && At(v, keys[2]) == Str(s.key);
  }

  ghost predicate SaysCredential(v: Option<Value>, c: Option<Credential>) {
    match c
    case None => v.None?
    case Some(credential) =>
      && v.Some? && At(v.value, "strategy") == Str(credential.strategy)
      && var secret := At(v.value, "secretRef");
      && secret.Some? && At(secret.value, "name") == Str(credential.secretRef.name)
      && At(secret.value, "namespace") == Str(credential.secretRef.namespace)
      && At(secret.value, "key") == Str(credential.secretRef.key)
  }

  lemma {:induction false} CredentialSays(c: Option<Credential>)
    ensures SaysCredential(Meaning(OptionalCredential(c)), c)
  {
    if c.Some? {
      CredentialNamesAreDistinct();
      RecordReads(SECRET_REF_KEYS, SecretRefValues(c.value.secretRef));
      SecretRefSays(Denote(SecretRefJson(c.value.secretRef)), c.value.secretRef);
      RecordReads(CREDENTIAL_KEYS, CredentialValues(c.value));
      CredentialParts(Denote(CredentialJson(c.value)), c.value);
    }
  }

  lemma {:induction false} CredentialParts(v: Value, c: Credential)
    requires Reads(v, CREDENTIAL_KEYS, CredentialValues(c))
    ensures At(v, "strategy") == Str(c.strategy) && At(v, "secretRef") == Some(Denote(SecretRefJson(c.secretRef)))
  {
    var keys := CREDENTIAL_KEYS;
    assert At(v, keys[0]) == Str(c.strategy) && At(v, keys[1]) == Some(Denote(SecretRefJson(c.secretRef)));
  }

  // A published candidate, as the picker and the ExtProc read it.
  ghost predicate SaysCandidate(v: Value, c: Candidate) {
    && At(v, "cluster") == Str(c.cluster) && At(v, "stable_id") == NonEmpty(c.stableId)
    && At(v, "kind") == Str(c.kind) && At(v, "name") == Str(c.name) && At(v, "site") == Str(c.site)
    && At(v, "fresh") == Some(VBool(c.isFresh))
    && At(v, "selection_group") == Number(c.selectionGroup) && At(v, "traffic_weight") == Number(c.trafficWeight)
    && SaysCredential(At(v, "credential"), c.credential)
    && At(v, "api_format") == NonEmpty(c.apiFormat) && At(v, "path") == NonEmpty(c.path)
    && At(v, "target_model") == NonEmpty(c.targetModel)
  }

  lemma {:induction false} NameParts(v: Value, c: Candidate)
    requires Reads(v, CANDIDATE_KEYS, CandidateValues(c))
    ensures At(v, "cluster") == Str(c.cluster) && At(v, "stable_id") == NonEmpty(c.stableId)
    ensures At(v, "kind") == Str(c.kind) && At(v, "name") == Str(c.name) && At(v, "site") == Str(c.site)
    ensures At(v, "fresh") == Some(VBool(c.isFresh))
  {
    var keys := CANDIDATE_KEYS;
    assert At(v, keys[0]) == Str(c.cluster) && At(v, keys[1]) == NonEmpty(c.stableId);
    assert At(v, keys[2]) == Str(c.kind) && At(v, keys[3]) == Str(c.name) && At(v, keys[4]) == Str(c.site);
    assert At(v, keys[5]) == Some(VBool(c.isFresh));
  }

  lemma {:induction false} PickParts(v: Value, c: Candidate)
    requires Reads(v, CANDIDATE_KEYS, CandidateValues(c))
    ensures At(v, "selection_group") == Number(c.selectionGroup) && At(v, "traffic_weight") == Number(c.trafficWeight)
    ensures At(v, "credential") == Meaning(OptionalCredential(c.credential))
    ensures At(v, "api_format") == NonEmpty(c.apiFormat) && At(v, "path") == NonEmpty(c.path)
    ensures At(v, "target_model") == NonEmpty(c.targetModel)
  {
    var keys := CANDIDATE_KEYS;
    assert At(v, keys[6]) == Number(c.selectionGroup) && At(v, keys[7]) == Number(c.trafficWeight);
    assert At(v, keys[8]) == Meaning(OptionalCredential(c.credential));
    assert At(v, keys[9]) == NonEmpty(c.apiFormat) && At(v, keys[10]) == NonEmpty(c.path);
    assert At(v, keys[11]) == NonEmpty(c.targetModel);
  }

  lemma {:induction false} CandidateSays(c: Candidate)
    ensures SaysCandidate(Denote(CandidateJson(c)), c)
  {
    CandidateNamesAreDistinct();
    RecordReads(CANDIDATE_KEYS, CandidateValues(c));
    CredentialSays(c.credential);
    NameParts(Denote(CandidateJson(c)), c);
    PickParts(Denote(CandidateJson(c)), c);
  }

  lemma {:induction false} CandidatesSay(cs: seq<Candidate>)
    ensures var vs := DenoteItems(CandidatesJson(cs));
      |vs| == |cs| && forall i | 0 <= i < |cs| :: SaysCandidate(vs[i], cs[i])
  {
    if cs != [] {
      CandidateSays(cs[0]);
      CandidatesSay(cs[1..]);
      assert CandidatesJson(cs)[1..] == CandidatesJson(cs[1..]);
    }
  }

  ghost predicate SaysPolicy(v: Option<Value>, policy: Option<Mode>) {
    match policy
    case None => v.None?
    case Some(Random) => v.Some? && At(v.value, "mode") == Str("random")
    case Some(WeightedRandom) => v.Some? && At(v.value, "mode") == Str("weightedRandom")
  }

  lemma {:induction false} PolicySays(policy: Option<Mode>)
    ensures SaysPolicy(Meaning(OptionalPolicy(policy)), policy)
  {
    if policy.Some? {
      var mode := if policy.value.Random? then "random" else "weightedRandom";
      assert PolicyJson(policy.value) == Obj([Member("mode", Json.Str(mode))]);
      ConsMeaning(Member("mode", Json.Str(mode)), []);
      assert [Member("mode", Json.Str(mode))] + [] == [Member("mode", Json.Str(mode))];
    }
  }

  ghost predicate SaysCandidates(v: Option<Value>, cs: seq<Candidate>) {
    && v.Some? && v.value.VArr? && |v.value.items| == |cs|
    && forall i | 0 <= i < |cs| :: SaysCandidate(v.value.items[i], cs[i])
  }

  ghost predicate SaysOverlay(v: Value, o: Overlay) {
    && At(v, "network") == Str(o.network) && At(v, "local_site") == Str(o.localSite)
    && SaysCandidates(At(v, "candidates"), o.candidates) && SaysPolicy(At(v, "selection_policy"), o.policy)
  }

  lemma {:induction false} OverlayParts(v: Value, o: Overlay)
    requires Reads(v, OVERLAY_KEYS, OverlayValues(o))
    ensures At(v, "network") == Str(o.network) && At(v, "local_site") == Str(o.localSite)
    ensures At(v, "candidates") == Meaning(Some(Arr(CandidatesJson(o.candidates))))
    ensures At(v, "selection_policy") == Meaning(OptionalPolicy(o.policy))
  {
    var keys := OVERLAY_KEYS;
    assert At(v, keys[0]) == Str(o.network) && At(v, keys[1]) == Str(o.localSite);
    assert At(v, keys[2]) == Meaning(Some(Arr(CandidatesJson(o.candidates))));
    assert At(v, keys[3]) == Meaning(OptionalPolicy(o.policy));
  }

  lemma {:induction false} OverlaySays(o: Overlay)
    ensures SaysOverlay(Denote(OverlayJson(o)), o)
  {
    OverlayNamesAreDistinct();
    RecordReads(OVERLAY_KEYS, OverlayValues(o));
    OverlayParts(Denote(OverlayJson(o)), o);
    CandidatesSay(o.candidates);
    PolicySays(o.policy);
  }

  // What stands in a section under a name.
  ghost predicate Says(doc: Value, section: string, key: string, v: Option<Value>) {
    At(doc, section).Some? && At(At(doc, section).value, key) == v
  }

  // The written envelope says what was rendered: under the names its consumers
  // read, the digest twice, the generation, the scope, where it comes from, and
  // the overlay candidate by candidate.
  lemma {:induction false} EnvelopeSays(e: Envelope)
    ensures var doc := Denote(EnvelopeJson(e));
      && At(doc, "schema_version") == Str("1.0.0")
      && Says(doc, "revision", "kind", Str("content_addressed"))
      && Says(doc, "revision", "algorithm", Str("sha256")) && Says(doc, "revision", "value", Str(e.revision.digest))
      && Says(doc, "content_digest", "algorithm", Str("sha256"))
      && Says(doc, "content_digest", "value", Str(e.revision.digest))
      && Says(doc, "scope", "network", Str(e.scope.network)) && Says(doc, "scope", "gateway", Str(e.scope.gateway))
      && Says(doc, "scope", "namespace", Str(e.scope.namespace))
      && Says(doc, "scope", "local_site", Str(e.scope.localSite))
      && Says(doc, "provenance", "producer", Str("ai-gateway-controller"))
      && Says(doc, "provenance", "producer_version", Str(e.producerVersion))
      && Says(doc, "provenance", "source_name", Str(e.scope.network))
      && Says(doc, "provenance", "source_uid", Str(e.sourceUid))
      && Says(doc, "provenance", "source_generation", Some(VNum(e.revision.generation)))
      && Says(doc, "provenance", "rendered_at", Str(e.renderedAt))
      && At(doc, "overlay").Some? && SaysOverlay(At(doc, "overlay").value, e.overlay)
  {
    EnvelopeNamesAreDistinct();
    ScopeNamesAreDistinct();
    SectionsSay(e);
    OverlaySays(e.overlay);
    RecordReads(REVISION_KEYS, RevisionValues(e));
    RecordReads(DIGEST_KEYS, DigestValues(e));
    RevisionParts(Part(REVISION_KEYS, RevisionValues(e)).value, Part(DIGEST_KEYS, DigestValues(e)).value, e);
    RecordReads(SCOPE_KEYS, ScopeValues(e));
    ScopeParts(Part(SCOPE_KEYS, ScopeValues(e)).value, e);
    RecordReads(PROVENANCE_KEYS, ProvenanceValues(e));
    ProvenanceParts(Part(PROVENANCE_KEYS, ProvenanceValues(e)).value, e);
  }

  function ScopeValues(e: Envelope): seq<Option<Json>> {
    [Text(e.scope.network), Text(e.scope.gateway), Text(e.scope.namespace), Text(e.scope.localSite)]
  }

  function DigestValues(e: Envelope): seq<Option<Json>> {
    [Text("sha256"), Text(e.revision.digest)]
  }

  function Part(keys: seq<string>, values: seq<Option<Json>>): Option<Value>
    requires |keys| == |values|
  {
    Some(Denote(Obj(Record(keys, values))))
  }

  lemma {:induction false} SectionParts(v: Value, e: Envelope)
    requires Reads(v, ENVELOPE_KEYS, EnvelopeValues(e))
    ensures At(v, "schema_version") == Str("1.0.0")
    ensures At(v, "revision") == Part(REVISION_KEYS, RevisionValues(e))
    ensures At(v, "content_digest") == Part(DIGEST_KEYS, DigestValues(e))
    ensures At(v, "scope") == Part(SCOPE_KEYS, ScopeValues(e))
    ensures At(v, "provenance") == Part(PROVENANCE_KEYS, ProvenanceValues(e))
    ensures At(v, "overlay") == Some(Denote(OverlayJson(e.overlay)))
  {
    var keys := ENVELOPE_KEYS;
    assert At(v, keys[0]) == Str("1.0.0") && At(v, keys[1]) == Part(REVISION_KEYS, RevisionValues(e));
    assert At(v, keys[2]) == Part(DIGEST_KEYS, DigestValues(e));
    assert At(v, keys[3]) == Part(SCOPE_KEYS, ScopeValues(e));
    assert At(v, keys[4]) == Part(PROVENANCE_KEYS, ProvenanceValues(e));
    assert At(v, keys[5]) == Some(Denote(OverlayJson(e.overlay)));
  }

  lemma {:induction false} SectionsSay(e: Envelope)
    ensures var doc := Denote(EnvelopeJson(e));
      && At(doc, "schema_version") == Str("1.0.0")
      && At(doc, "revision") == Part(REVISION_KEYS, RevisionValues(e))
      && At(doc, "content_digest") == Part(DIGEST_KEYS, DigestValues(e))
      && At(doc, "scope") == Part(SCOPE_KEYS, ScopeValues(e))
      && At(doc, "provenance") == Part(PROVENANCE_KEYS, ProvenanceValues(e))
      && At(doc, "overlay") == Some(Denote(OverlayJson(e.overlay)))
  {
    EnvelopeNamesAreDistinct();
    RecordReads(ENVELOPE_KEYS, EnvelopeValues(e));
    SectionParts(Denote(EnvelopeJson(e)), e);
  }

  lemma {:induction false} RevisionParts(v: Value, d: Value, e: Envelope)
    requires Reads(v, REVISION_KEYS, RevisionValues(e)) && Reads(d, DIGEST_KEYS, DigestValues(e))
    ensures At(v, "kind") == Str("content_addressed") && At(v, "algorithm") == Str("sha256")
    ensures At(v, "value") == Str(e.revision.digest)
    ensures At(d, "algorithm") == Str("sha256") && At(d, "value") == Str(e.revision.digest)
  {
    var keys, digest := REVISION_KEYS, DIGEST_KEYS;
    assert At(v, keys[0]) == Str("content_addressed") && At(v, keys[1]) == Str("sha256");
    assert At(v, keys[2]) == Str(e.revision.digest);
    assert At(d, digest[0]) == Str("sha256") && At(d, digest[1]) == Str(e.revision.digest);
  }

  lemma {:induction false} ScopeParts(v: Value, e: Envelope)
    requires Reads(v, SCOPE_KEYS, ScopeValues(e))
    ensures At(v, "network") == Str(e.scope.network) && At(v, "gateway") == Str(e.scope.gateway)
    ensures At(v, "namespace") == Str(e.scope.namespace) && At(v, "local_site") == Str(e.scope.localSite)
  {
    var keys := SCOPE_KEYS;
    assert At(v, keys[0]) == Str(e.scope.network) && At(v, keys[1]) == Str(e.scope.gateway);
    assert At(v, keys[2]) == Str(e.scope.namespace) && At(v, keys[3]) == Str(e.scope.localSite);
  }

  lemma {:induction false} ProvenanceParts(v: Value, e: Envelope)
    requires Reads(v, PROVENANCE_KEYS, ProvenanceValues(e))
    ensures At(v, "producer") == Str("ai-gateway-controller") && At(v, "producer_version") == Str(e.producerVersion)
    ensures At(v, "source_name") == Str(e.scope.network) && At(v, "source_uid") == Str(e.sourceUid)
    ensures At(v, "source_generation") == Some(VNum(e.revision.generation)) && At(v, "rendered_at") == Str(e.renderedAt)
  {
    var keys := PROVENANCE_KEYS;
    assert At(v, keys[0]) == Str("ai-gateway-controller") && At(v, keys[1]) == Str(e.producerVersion);
    assert At(v, keys[2]) == Str(e.scope.network) && At(v, keys[3]) == Str(e.sourceUid);
    assert At(v, keys[4]) == Some(VNum(e.revision.generation)) && At(v, keys[5]) == Str(e.renderedAt);
  }

  lemma {:induction false} ScopeNamesAreDistinct()
    ensures Distinct(SCOPE_KEYS) && Distinct(DIGEST_KEYS)
  {
    assert SCOPE_KEYS == ["network", "gateway", "namespace", "local_site"];
  }
}
