// The digest a consumer recomputes from the document it reads, against the
// digest the renderer computed from the structure it holds.
module WireDigests {
  import opened Envelopes
  import opened Json
  import opened JsonRecords
  import opened Selection
  import opened Wrappers

  datatype WireError = NotAnObject | NoOverlay | OverlayNotAnObject | RepeatedName

  const SCHEMA_VERSION := "1.0.0"
  const REVISION_KEYS := ["kind", "algorithm", "value"]
  const DIGEST_KEYS := ["algorithm", "value"]
  const SCOPE_KEYS := ["network", "gateway", "namespace", "local_site"]
  const PROVENANCE_KEYS := [
    "producer", "producer_version", "source_name", "source_uid", "source_generation", "rendered_at"]
  const ENVELOPE_KEYS := ["schema_version", "revision", "content_digest", "scope", "provenance", "overlay"]

  // ----- the envelope document -----

  function RevisionValues(e: Envelope): seq<Option<Json>> {
    [Text("content_addressed"), Text("sha256"), Text(e.revision.digest)]
  }

  function ProvenanceValues(e: Envelope): seq<Option<Json>> {
    [Text("ai-gateway-controller"), Text(e.producerVersion), Text(e.scope.network), Text(e.sourceUid),
     Some(Num(e.revision.generation)), Text(e.renderedAt)]
  }

  function EnvelopeValues(e: Envelope): seq<Option<Json>> {
    [Text(SCHEMA_VERSION),
     Some(Obj(Record(REVISION_KEYS, RevisionValues(e)))),
     Some(Obj(Record(DIGEST_KEYS, [Text("sha256"), Text(e.revision.digest)]))),
     Some(Obj(Record(SCOPE_KEYS, [Text(e.scope.network), Text(e.scope.gateway), Text(e.scope.namespace),
                                  Text(e.scope.localSite)]))),
     Some(Obj(Record(PROVENANCE_KEYS, ProvenanceValues(e)))),
     Some(OverlayJson(e.overlay))]
  }

  function EnvelopeJson(e: Envelope): Json {
    Obj(Record(ENVELOPE_KEYS, EnvelopeValues(e)))
  }

  // ----- the recomputation -----

  function AsMap(j: Json): Option<map<string, Json>> {
    match j
    case Null => Some(map[])
    case Obj(members) => Some(Entries(members))
    case _ => None
  }

  // The map the four keys are read from. The overlay section is decoded into
  // the map that already holds the document, so the document's own entries
  // stay in it unless the section is null or overrides them.
  function OverlayView(doc: Json): Result<map<string, Json>, WireError> {
    match AsMap(doc)
    case None => Err(NotAnObject)
    case Some(entries) =>
      if "schema_version" !in entries then Ok(entries)
      else if "overlay" !in entries then Err(NoOverlay)
      else match entries["overlay"]
           case Null => Ok(map[])
           case Obj(members) => Ok(entries + Entries(members))
           case _ => Err(OverlayNotAnObject)
  }

  function Picked(m: map<string, Json>, keys: seq<string>): (r: seq<Option<Json>>)
    ensures |r| == |keys|
    ensures forall i | 0 <= i < |keys| :: r[i] == if keys[i] in m then Some(m[keys[i]]) else None
  {
    if keys == [] then []
    else [if keys[0] in m then Some(m[keys[0]]) else None] + Picked(m, keys[1..])
  }

  function PickedJson(m: map<string, Json>): Json {
    Obj(Record(SEMANTIC_KEYS, Picked(m, SEMANTIC_KEYS)))
  }

  function DigestOfJson(sha: Json -> string, j: Json): Result<string, WireError> {
    if WellKeyed(j) then Ok(sha(Canon(j))) else Err(RepeatedName)
  }

  function WireDigest(sha: Json -> string, doc: Json): Result<string, WireError> {
    var overlay :- OverlayView(doc);
    DigestOfJson(sha, PickedJson(overlay))
  }

  lemma {:induction false} RecordAppend(keys: seq<string>, values: seq<Option<Json>>, k: string, v: Option<Json>)
    requires |keys| == |values|
    ensures Record(keys + [k], values + [v])
         == Record(keys, values) + match v case None => [] case Some(j) => [Member(k, j)]
  {
    if keys == [] {
      assert keys + [k] == [k] && values + [v] == [v];
    } else {
      assert (keys + [k])[1..] == keys[1..] + [k] && (values + [v])[1..] == values[1..] + [v];
      RecordAppend(keys[1..], values[1..], k, v);
    }
  }

  method ComputeDigestFromWire(sha: Json -> string, doc: Json) returns (r: Result<string, WireError>)
    ensures r == WireDigest(sha, doc)
  {
    var overlay :- OverlayView(doc);
    var filtered: seq<Member> := [];
    var i := 0;
    while i < |SEMANTIC_KEYS|
      invariant 0 <= i <= |SEMANTIC_KEYS|
      invariant filtered == Record(SEMANTIC_KEYS[..i], Picked(overlay, SEMANTIC_KEYS[..i]))
    {
      var k := SEMANTIC_KEYS[i];
      assert SEMANTIC_KEYS[..i + 1] == SEMANTIC_KEYS[..i] + [k];
      var v := if k in overlay then Some(overlay[k]) else None;
      assert Picked(overlay, SEMANTIC_KEYS[..i + 1]) == Picked(overlay, SEMANTIC_KEYS[..i]) + [v];
      RecordAppend(SEMANTIC_KEYS[..i], Picked(overlay, SEMANTIC_KEYS[..i]), k, v);
      if k in overlay { filtered := filtered + [Member(k, overlay[k])]; }
      i := i + 1;
    }
    assert SEMANTIC_KEYS[..|SEMANTIC_KEYS|] == SEMANTIC_KEYS;
    r := DigestOfJson(sha, Obj(filtered));
  }

  // ----- names are distinct -----

  lemma {:induction false} CandidateNamesAreDistinct()
    ensures Distinct(CANDIDATE_KEYS)
  {
  }

  lemma {:induction false} CredentialNamesAreDistinct()
    ensures Distinct(CREDENTIAL_KEYS) && Distinct(SECRET_REF_KEYS)
  {
  }

  lemma {:induction false} OverlayNamesAreDistinct()
    ensures Distinct(OVERLAY_KEYS) && Distinct(SEMANTIC_KEYS)
  {
  }

  lemma {:induction false} EnvelopeNamesAreDistinct()
    ensures Distinct(ENVELOPE_KEYS) && Distinct(REVISION_KEYS) && Distinct(PROVENANCE_KEYS)
  {
  }

  // ----- documents this controller writes -----

  lemma {:induction false} CandidateKeyed(c: Candidate)
    ensures WellKeyed(CandidateJson(c))
  {
    CandidateNamesAreDistinct();
    CredentialNamesAreDistinct();
    if c.credential.Some? {
      var v := c.credential.value;
      RecordKeyed(SECRET_REF_KEYS, SecretRefValues(v.secretRef));
      RecordKeyed(CREDENTIAL_KEYS, CredentialValues(v));
    }
    RecordKeyed(CANDIDATE_KEYS, CandidateValues(c));
  }

  lemma {:induction false} CandidatesKeyed(cs: seq<Candidate>)
    ensures AllWellKeyed(CandidatesJson(cs))
  {
    if cs != [] {
      CandidateKeyed(cs[0]);
      CandidatesKeyed(cs[1..]);
    }
  }

  lemma {:induction false} DigestInputKeyed(o: Overlay)
    ensures WellKeyed(DigestInput(o))
  {
    OverlayNamesAreDistinct();
    CandidatesKeyed(o.candidates);
    if o.policy.Some? { assert WellKeyed(PolicyJson(o.policy.value)); }
    RecordKeyed(SEMANTIC_KEYS, SemanticValues(o));
  }

  function OverlayValues(o: Overlay): seq<Option<Json>> {
    [Text(o.network), Text(o.localSite), Some(Arr(CandidatesJson(o.candidates))), OptionalPolicy(o.policy)]
  }

  // The entry of field i of a record, by name.
  predicate FieldIs(m: map<string, Json>, key: string, v: Option<Json>) {
    (key in m <==> v.Some?) && (v.Some? ==> m[key] == v.value)
  }

  lemma {:induction false} FieldNamed(keys: seq<string>, values: seq<Option<Json>>, i: nat, key: string)
    requires |keys| == |values| && Distinct(keys) && i < |keys| && keys[i] == key
    ensures FieldIs(Entries(Record(keys, values)), key, values[i])
  {
    RecordField(keys, values, i);
  }

  lemma {:induction false} NoSuchField(keys: seq<string>, values: seq<Option<Json>>, key: string)
    requires |keys| == |values| && key !in keys
    ensures key !in Entries(Record(keys, values))
  {
    RecordNames(keys, values);
    EntriesMeaning(Record(keys, values));
  }

  function EnvelopeEntries(e: Envelope): map<string, Json> {
    Entries(Record(ENVELOPE_KEYS, EnvelopeValues(e)))
  }

  lemma {:induction false} EnvelopeSections(e: Envelope)
    ensures var doc := EnvelopeEntries(e);
      && FieldIs(doc, "schema_version", Text(SCHEMA_VERSION))
      && FieldIs(doc, "overlay", Some(OverlayJson(e.overlay)))
      && FieldIs(doc, "revision", Some(Obj(Record(REVISION_KEYS, RevisionValues(e)))))
      && FieldIs(doc, "provenance", Some(Obj(Record(PROVENANCE_KEYS, ProvenanceValues(e)))))
      && FieldIs(doc, "selection_policy", None)
  {
    EnvelopeNamesAreDistinct();
    var keys, values := ENVELOPE_KEYS, EnvelopeValues(e);
    FieldNamed(keys, values, 0, "schema_version");
    FieldNamed(keys, values, 1, "revision");
    FieldNamed(keys, values, 4, "provenance");
    FieldNamed(keys, values, 5, "overlay");
    NoSuchField(keys, values, "selection_policy");
  }

  function OverlayEntries(o: Overlay): map<string, Json> {
    Entries(Record(OVERLAY_KEYS, OverlayValues(o)))
  }

  lemma {:induction false} OverlayFields(o: Overlay)
    ensures var m := OverlayEntries(o);
      && FieldIs(m, "network", Text(o.network))
      && FieldIs(m, "local_site", Text(o.localSite))
      && FieldIs(m, "candidates", Some(Arr(CandidatesJson(o.candidates))))
      && FieldIs(m, "selection_policy", OptionalPolicy(o.policy))
  {
    OverlayNamesAreDistinct();
    var keys, values := OVERLAY_KEYS, OverlayValues(o);
    FieldNamed(keys, values, 0, "network");
    FieldNamed(keys, values, 1, "local_site");
    FieldNamed(keys, values, 2, "candidates");
    FieldNamed(keys, values, 3, "selection_policy");
  }

  lemma {:induction false} SemanticPick(view: map<string, Json>, o: Overlay)
    requires FieldIs(view, "network", Text(o.network)) && FieldIs(view, "local_site", Text(o.localSite))
    requires FieldIs(view, "candidates", Some(Arr(CandidatesJson(o.candidates))))
    requires FieldIs(view, "selection_policy", OptionalPolicy(o.policy))
    ensures Picked(view, SEMANTIC_KEYS) == SemanticValues(o)
  {
    assert SEMANTIC_KEYS[0] == "candidates" && SEMANTIC_KEYS[1] == "local_site";
    assert SEMANTIC_KEYS[2] == "network" && SEMANTIC_KEYS[3] == "selection_policy";
  }

  // The digest of the written document is the digest of the structure.
  lemma {:induction false} WireAgreesWithStruct(sha: Json -> string, e: Envelope)
    ensures WireDigest(sha, EnvelopeJson(e)) == Ok(DigestOf(sha, e.overlay))
  {
    EnvelopeSections(e);
    OverlayFields(e.overlay);
    DigestInputKeyed(e.overlay);
    var view := EnvelopeEntries(e) + OverlayEntries(e.overlay);
    assert OverlayView(EnvelopeJson(e)) == Ok(view);
    SemanticPick(view, e.overlay);
  }

  // ----- the digest and the content -----

  // A candidate as the wire shows it: the injected header never serializes.
  function OnWire(c: Candidate): Candidate {
    match c.credential
    case None => c
    case Some(v) => c.(credential := Some(v.(header := "")))
  }

  function AllOnWire(cs: seq<Candidate>): (r: seq<Candidate>)
    ensures |r| == |cs|
  {
    if cs == [] then [] else [OnWire(cs[0])] + AllOnWire(cs[1..])
  }

  // Equal up to what never serializes.
  predicate SameContent(a: Overlay, b: Overlay) {
    a.network == b.network && a.localSite == b.localSite && a.policy == b.policy
    && AllOnWire(a.candidates) == AllOnWire(b.candidates)
  }

  // The same, of the objects the records make up.
  lemma {:induction false} ObjectDecides(x: Json, y: Json, keys: seq<string>, a: seq<Option<Json>>,
                                         b: seq<Option<Json>>)
    requires |keys| == |a| == |b| && Distinct(keys)
    requires x == Obj(Record(keys, a)) && y == Obj(Record(keys, b)) && Denote(x) == Denote(y)
    ensures SameValues(a, b)
  {
    RecordDecidesAll(keys, a, b);
  }

  lemma {:induction false} CredentialDecides(a: Credential, b: Credential)
    requires Denote(CredentialJson(a)) == Denote(CredentialJson(b))
    ensures a.(header := "") == b.(header := "")
  {
    CredentialNamesAreDistinct();
    ObjectDecides(CredentialJson(a), CredentialJson(b), CREDENTIAL_KEYS, CredentialValues(a), CredentialValues(b));
    CredentialFieldsDecide(a, b);
  }

  lemma {:induction false} CredentialFieldsDecide(a: Credential, b: Credential)
    requires SameValues(CredentialValues(a), CredentialValues(b))
    ensures a.(header := "") == b.(header := "")
  {
    assert SameValue(CredentialValues(a)[0], CredentialValues(b)[0]);
    assert SameValue(CredentialValues(a)[1], CredentialValues(b)[1]);
    SecretRefDecides(a.secretRef, b.secretRef);
  }

  lemma {:induction false} SecretRefDecides(a: SecretRef, b: SecretRef)
    requires Denote(SecretRefJson(a)) == Denote(SecretRefJson(b))
    ensures a == b
  {
    CredentialNamesAreDistinct();
    var x, y := SecretRefValues(a), SecretRefValues(b);
    ObjectDecides(SecretRefJson(a), SecretRefJson(b), SECRET_REF_KEYS, x, y);
    assert SameValue(x[0], y[0]) && SameValue(x[1], y[1]) && SameValue(x[2], y[2]);
  }

  predicate SameValues(a: seq<Option<Json>>, b: seq<Option<Json>>) {
    |a| == |b| && forall i | 0 <= i < |a| :: SameValue(a[i], b[i])
  }

  lemma {:induction false} RecordDecidesAll(keys: seq<string>, a: seq<Option<Json>>, b: seq<Option<Json>>)
    requires |keys| == |a| == |b| && Distinct(keys)
    requires DenoteMembers(Record(keys, a)) == DenoteMembers(Record(keys, b))
    ensures SameValues(a, b)
  {
    forall i: nat | i < |a| ensures SameValue(a[i], b[i]) { RecordDecides(keys, a, b, i); }
  }

  lemma {:induction false} CandidateDecides(a: Candidate, b: Candidate)
    requires Denote(CandidateJson(a)) == Denote(CandidateJson(b))
    ensures OnWire(a) == OnWire(b)
  {
    CandidateNamesAreDistinct();
    ObjectDecides(CandidateJson(a), CandidateJson(b), CANDIDATE_KEYS, CandidateValues(a), CandidateValues(b));
    SameFields(a, b);
  }

  lemma {:induction false} SameFields(a: Candidate, b: Candidate)
    requires SameValues(CandidateValues(a), CandidateValues(b))
    ensures OnWire(a) == OnWire(b)
  {
    SamePlainFields(a, OptionalCredential(a.credential), b, OptionalCredential(b.credential));
    SameCredential(a.credential, b.credential);
  }

  lemma {:induction false} SamePlainFields(a: Candidate, u: Option<Json>, b: Candidate, v: Option<Json>)
    requires SameValues(ValuesWith(a, u), ValuesWith(b, v))
    ensures a.(credential := None) == b.(credential := None) && SameValue(u, v)
  {
    var x, y := ValuesWith(a, u), ValuesWith(b, v);
    assert SameValue(x[0], y[0]) && SameValue(x[1], y[1]) && SameValue(x[2], y[2]) && SameValue(x[3], y[3]);
    assert SameValue(x[4], y[4]) && SameValue(x[5], y[5]) && SameValue(x[6], y[6]) && SameValue(x[7], y[7]);
    assert SameValue(x[8], y[8]) && SameValue(x[9], y[9]) && SameValue(x[10], y[10]) && SameValue(x[11], y[11]);
  }

  lemma {:induction false} SameCredential(a: Option<Credential>, b: Option<Credential>)
    requires SameValue(OptionalCredential(a), OptionalCredential(b))
    ensures a.Some? <==> b.Some?
    ensures a.Some? ==> a.value.(header := "") == b.value.(header := "")
  {
    if a.Some? { CredentialDecides(a.value, b.value); }
  }

  lemma {:induction false} CandidatesDecide(a: seq<Candidate>, b: seq<Candidate>)
    requires DenoteItems(CandidatesJson(a)) == DenoteItems(CandidatesJson(b))
    ensures AllOnWire(a) == AllOnWire(b)
  {
    CandidatesLength(a);
    CandidatesLength(b);
    if a != [] {
      var x, y := CandidatesJson(a), CandidatesJson(b);
      assert Denote(x[0]) == DenoteItems(x)[0] == DenoteItems(y)[0] == Denote(y[0]);
      CandidateDecides(a[0], b[0]);
      assert DenoteItems(x[1..]) == DenoteItems(x)[1..] == DenoteItems(y)[1..] == DenoteItems(y[1..]);
      CandidatesDecide(a[1..], b[1..]);
    }
  }

  lemma {:induction false} CandidatesLength(cs: seq<Candidate>)
    ensures |CandidatesJson(cs)| == |cs|
  {
    if cs != [] { CandidatesLength(cs[1..]); }
  }

  lemma {:induction false} HeadersNeverSerialize(cs: seq<Candidate>)
    ensures CandidatesJson(cs) == CandidatesJson(AllOnWire(cs))
  {
    if cs != [] {
      assert CandidateValues(cs[0]) == CandidateValues(OnWire(cs[0]));
      HeadersNeverSerialize(cs[1..]);
      assert AllOnWire(cs)[1..] == AllOnWire(cs[1..]);
    }
  }

  ghost predicate Injective(sha: Json -> string) {
    forall x, y :: sha(x) == sha(y) ==> x == y
  }

  // With a collision-free hash, two overlays have one digest exactly when
  // they publish the same content.
  lemma {:induction false} DigestDecidesContent(sha: Json -> string, a: Overlay, b: Overlay)
    requires Injective(sha)
    ensures DigestOf(sha, a) == DigestOf(sha, b) <==> SameContent(a, b)
  {
    if SameContent(a, b) {
      HeadersNeverSerialize(a.candidates);
      HeadersNeverSerialize(b.candidates);
    }
    if DigestOf(sha, a) == DigestOf(sha, b) {
      DigestInputKeyed(a);
      DigestInputKeyed(b);
      CanonDecidesMeaning(DigestInput(a), DigestInput(b));
      OverlayNamesAreDistinct();
      var x, y := SemanticValues(a), SemanticValues(b);
      RecordDecidesAll(SEMANTIC_KEYS, x, y);
      SemanticsDecide(a, b);
    }
  }

  lemma {:induction false} SemanticsDecide(a: Overlay, b: Overlay)
    requires SameValues(SemanticValues(a), SemanticValues(b))
    ensures SameContent(a, b)
  {
    var x, y := SemanticValues(a), SemanticValues(b);
    assert SameValue(x[0], y[0]) && SameValue(x[1], y[1]) && SameValue(x[2], y[2]) && SameValue(x[3], y[3]);
    CandidatesDecide(a.candidates, b.candidates);
    PoliciesDecide(a.policy, b.policy);
  }

  lemma {:induction false} PoliciesDecide(a: Option<Mode>, b: Option<Mode>)
    requires SameValue(OptionalPolicy(a), OptionalPolicy(b))
    ensures a == b
  {
    if a.Some? {
      var x, y := PolicyJson(a.value), PolicyJson(b.value);
      assert x.members[1..] == [] && y.members[1..] == [];
      assert Denote(x).entries["mode"] == Denote(x.members[0].value);
      assert Denote(y).entries["mode"] == Denote(y.members[0].value);
    }
  }

  // ----- documents others rewrote -----

  predicate SameMap(a: map<string, Json>, b: map<string, Json>) {
    && a.Keys == b.Keys
    && forall k | k in a :: Denote(a[k]) == Denote(b[k]) && WellKeyed(a[k]) && WellKeyed(b[k])
  }

  lemma {:induction false} SameObject(a: seq<Member>, b: seq<Member>)
    requires MembersWellKeyed(a) && MembersWellKeyed(b) && DenoteMembers(a) == DenoteMembers(b)
    ensures SameMap(Entries(a), Entries(b))
  {
    EntriesMeaning(a);
    EntriesMeaning(b);
  }

  lemma {:induction false} SameView(a: Json, b: Json)
    requires WellKeyed(a) && WellKeyed(b) && Denote(a) == Denote(b)
    ensures match (OverlayView(a), OverlayView(b))
            case (Ok(m), Ok(n)) => SameMap(m, n)
            case (Err(e), Err(f)) => e == f
            case _ => false
  {
    if a.Obj? {
      SameObject(a.members, b.members);
      var m, n := Entries(a.members), Entries(b.members);
      if "schema_version" in m && "overlay" in m {
        SameSection(m, n, m["overlay"], n["overlay"]);
      }
    }
  }

  lemma {:induction false} SameSection(m: map<string, Json>, n: map<string, Json>, x: Json, y: Json)
    requires SameMap(m, n) && WellKeyed(x) && WellKeyed(y) && Denote(x) == Denote(y)
    ensures x.Null? == y.Null? && x.Obj? == y.Obj?
    ensures x.Obj? ==> SameMap(m + Entries(x.members), n + Entries(y.members))
  {
    if x.Obj? { SameObject(x.members, y.members); }
  }

  lemma {:induction false} RecordMeaning(keys: seq<string>, a: seq<Option<Json>>, b: seq<Option<Json>>)
    requires |keys| == |a| == |b| && SameValues(a, b)
    ensures DenoteMembers(Record(keys, a)) == DenoteMembers(Record(keys, b))
  {
    if keys != [] {
      assert SameValue(a[0], b[0]);
      RecordMeaning(keys[1..], a[1..], b[1..]);
      if a[0].Some? {
        assert Record(keys, a)[1..] == Record(keys[1..], a[1..]);
        assert Record(keys, b)[1..] == Record(keys[1..], b[1..]);
      }
    }
  }

  lemma {:induction false} PickedKeyed(m: map<string, Json>)
    requires forall k | k in m :: WellKeyed(m[k])
    ensures WellKeyed(PickedJson(m))
  {
    OverlayNamesAreDistinct();
    RecordKeyed(SEMANTIC_KEYS, Picked(m, SEMANTIC_KEYS));
  }

  // The order of members, at any depth, does not enter the digest.
  lemma {:induction false} ReorderingKeepsDigest(sha: Json -> string, a: Json, b: Json)
    requires WellKeyed(a) && WellKeyed(b) && Denote(a) == Denote(b)
    ensures WireDigest(sha, a) == WireDigest(sha, b)
  {
    SameView(a, b);
    if OverlayView(a).Ok? {
      var m, n := OverlayView(a).value, OverlayView(b).value;
      PickedKeyed(m);
      PickedKeyed(n);
      var x, y := Picked(m, SEMANTIC_KEYS), Picked(n, SEMANTIC_KEYS);
      forall i | 0 <= i < |SEMANTIC_KEYS| ensures SameValue(x[i], y[i]) {}
      RecordMeaning(SEMANTIC_KEYS, x, y);
      CanonDecidesMeaning(Obj(Record(SEMANTIC_KEYS, x)), Obj(Record(SEMANTIC_KEYS, y)));
    }
  }

  predicate Has(doc: Json, key: string) {
    doc.Obj? && exists m :: m in doc.members && m.key == key
  }

  // The last member of a name counts.
  ghost predicate Holds(doc: Json, key: string, v: Json) {
    && doc.Obj?
    && exists i :: 0 <= i < |doc.members| && doc.members[i] == Member(key, v)
         && forall j | i < j < |doc.members| :: doc.members[j].key != key
  }

  ghost predicate LastOf(members: seq<Member>, key: string, i: int) {
    0 <= i < |members| && members[i].key == key && forall j | i < j < |members| :: members[j].key != key
  }

  lemma {:induction false} LastIsEntry(members: seq<Member>, key: string, i: nat)
    requires LastOf(members, key, i)
    ensures key in Entries(members) && Entries(members)[key] == members[i].value
  {
    var rest := members[1..];
    if i > 0 {
      assert forall j :: 0 <= j < |rest| ==> rest[j] == members[j + 1];
      LastIsEntry(rest, key, i - 1);
    } else {
      EntriesMeaning(rest);
      assert forall m :: m in rest ==> m.key != key;
    }
  }

  lemma {:induction false} EntryIsLast(members: seq<Member>, key: string) returns (i: nat)
    requires key in Entries(members)
    ensures LastOf(members, key, i)
  {
    var rest := members[1..];
    if key in Entries(rest) {
      var k := EntryIsLast(rest, key);
      i := k + 1;
      assert forall j | i < j < |members| :: members[j] == rest[j - 1];
    } else {
      i := 0;
      EntriesMeaning(rest);
      assert forall j | 0 < j < |members| :: members[j] == rest[j - 1] && rest[j - 1] in rest;
    }
  }

  lemma {:induction false} EntryHolds(members: seq<Member>, key: string)
    ensures key in Entries(members) <==> Has(Obj(members), key)
    ensures forall v :: Holds(Obj(members), key, v) <==> key in Entries(members) && Entries(members)[key] == v
  {
    EntriesMeaning(members);
    if key in Entries(members) {
      var i := EntryIsLast(members, key);
      LastIsEntry(members, key, i);
      assert members[i] == Member(key, Entries(members)[key]);
    }
    forall v | Holds(Obj(members), key, v) ensures key in Entries(members) && Entries(members)[key] == v {
      var i :| 0 <= i < |members| && members[i] == Member(key, v)
        && forall j | i < j < |members| :: members[j].key != key;
      LastIsEntry(members, key, i);
    }
  }

  // Which documents have no digest, and which have that of an empty overlay.
  lemma {:induction false} WireErrorsAreExact(sha: Json -> string, doc: Json)
    ensures var r := WireDigest(sha, doc);
      && (r == Err(NotAnObject) <==> !doc.Null? && !doc.Obj?)
      && (r == Err(NoOverlay) <==> Has(doc, "schema_version") && !Has(doc, "overlay"))
      && (r == Err(OverlayNotAnObject) <==>
            Has(doc, "schema_version") && exists v :: Holds(doc, "overlay", v) && !v.Null? && !v.Obj?)
      && (doc.Null? || (Has(doc, "schema_version") && Holds(doc, "overlay", Null)) ==>
            r == Ok(sha(Canon(Obj([])))))
  {
    if doc.Obj? {
      EntryHolds(doc.members, "schema_version");
      EntryHolds(doc.members, "overlay");
    }
    NothingPicked(map[], SEMANTIC_KEYS);
  }

  lemma {:induction false} NothingPicked(m: map<string, Json>, keys: seq<string>)
    requires m == map[]
    ensures Record(keys, Picked(m, keys)) == []
  {
    if keys != [] { NothingPicked(m, keys[1..]); }
  }

  // A semantic key the overlay section lacks, present beside it.
  predicate Leaks(outer: map<string, Json>, section: map<string, Json>) {
    exists k :: k in SEMANTIC_KEYS && k in outer && k !in section
  }

  // The documented digest is that of the overlay section alone. The one
  // computed is, exactly when no semantic key of the document itself fills a
  // gap of the section.
  lemma {:induction false} SectionDigestIsExact(sha: Json -> string, outer: seq<Member>, section: seq<Member>)
    requires Injective(sha) && MembersWellKeyed(outer)
    requires var doc := Entries(outer);
      "schema_version" in doc && "overlay" in doc && doc["overlay"] == Obj(section)
    requires "schema_version" !in Entries(section)
    ensures WireDigest(sha, Obj(outer)) == WireDigest(sha, Obj(section)) <==> !Leaks(Entries(outer), Entries(section))
  {
    var doc, own := Entries(outer), Entries(section);
    EntriesMeaning(outer);
    assert WellKeyed(doc["overlay"]);
    EntriesMeaning(section);
    PickedKeyed(doc + own);
    PickedKeyed(own);
    assert OverlayView(Obj(outer)) == Ok(doc + own) && OverlayView(Obj(section)) == Ok(own);
    CanonDecidesMeaning(PickedJson(doc + own), PickedJson(own));
    GapDecides(doc, own);
  }

  lemma {:induction false} GapDecides(doc: map<string, Json>, own: map<string, Json>)
    ensures Denote(PickedJson(doc + own)) == Denote(PickedJson(own)) <==> !Leaks(doc, own)
  {
    var keys := SEMANTIC_KEYS;
    var x, y := Picked(doc + own, keys), Picked(own, keys);
    if Leaks(doc, own) {
      var k :| k in keys && k in doc && k !in own;
      var i :| 0 <= i < |keys| && keys[i] == k;
      OverlayNamesAreDistinct();
      if DenoteMembers(Record(keys, x)) == DenoteMembers(Record(keys, y)) {
        RecordDecides(keys, x, y, i);
        assert false;
      }
    } else {
      assert x == y;
    }
  }
}
