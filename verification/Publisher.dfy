// Publishing the routing overlay into its ConfigMap: read back what is
// distributed, render the next envelope onto it, write only a change.
module Publishers {
  import opened Envelopes
  import opened Json
  import opened JsonRecords
  import opened Selection
  import opened WireDigests
  import opened Wrappers

  // The ConfigMap: absent, without the envelope's data key, with text that is
  // no JSON, or with a document.
  datatype Stored = Absent | WithoutKey | Unparsable | Document(json: Json)

  // now: the clock; writes: whether the API server accepts the write.
  datatype Request = Request(routes: seq<Binding>, scope: Scope, opts: Options, now: string, writes: bool)

  datatype Change = Created | Updated | Unchanged

  datatype Outcome = Outcome(envelope: Envelope, change: Change)

  datatype PublishError = NoEnvelope | Tampered | Unrendered(error: Error) | Regressed | WriteFailed

  datatype Published = Published(revision: Revision, renderedAt: string)

  const NOTHING_PUBLISHED := Published(Revision(0, ""), "")

  // ----- decoding what the publisher needs -----

  // A missing or null field reads as the zero value.
  function TextField(m: map<string, Json>, key: string): Option<string> {
    if key !in m || m[key].Null? then Some("")
    else match m[key] case Str(s) => Some(s) case _ => None
  }

  function IntField(m: map<string, Json>, key: string): Option<int> {
    if key !in m || m[key].Null? then Some(0)
    else match m[key]
         case Num(n) => if -MAX_INT64 - 1 <= n <= MAX_INT64 then Some(n) else None
         case _ => None
  }

  function Section(m: map<string, Json>, key: string): Option<map<string, Json>> {
    if key in m then AsMap(m[key]) else Some(map[])
  }

  function Decode(doc: Json): Option<Published> {
    match AsMap(doc)
    case None => None
    case Some(m) =>
      match (Section(m, "revision"), Section(m, "provenance"))
      case (Some(revision), Some(provenance)) =>
        (match (TextField(revision, "value"), IntField(provenance, "source_generation"),
                TextField(provenance, "rendered_at"))
         case (Some(digest), Some(generation), Some(renderedAt)) =>
           Some(Published(Revision(generation, digest), renderedAt))
         case _ => None)
      case _ => None
  }

  function ReadBack(sha: Json -> string, stored: Stored): Result<Published, PublishError> {
    match stored
    case Absent => Ok(NOTHING_PUBLISHED)
    case WithoutKey => Err(NoEnvelope)
    case Unparsable => Err(Tampered)
    case Document(json) =>
      match (Decode(json), WireDigest(sha, json))
      case (Some(p), Ok(digest)) => if digest == p.revision.digest then Ok(p) else Err(Tampered)
      case _ => Err(Tampered)
  }

  // ----- one publication -----

  // Without an injected timestamp, content that did not change keeps its own.
  function Stamp(e: Envelope, exists_: bool, before: Published, q: Request): Envelope {
    if q.opts.renderedAt != "" then e
    else e.(renderedAt := if exists_ && e.revision.digest == before.revision.digest then before.renderedAt else q.now)
  }

  // Check the transition, then write unless the bytes are already there.
  function Distribute(stored: Stored, before: Revision, e: Envelope, writes: bool)
    : (Stored, Result<Outcome, PublishError>)
  {
    if CheckRevisionTransition(before, e.revision).Err? then (stored, Err(Regressed))
    else if stored == Document(EnvelopeJson(e)) then (stored, Ok(Outcome(e, Unchanged)))
    else if !writes then (stored, Err(WriteFailed))
    else (Document(EnvelopeJson(e)), Ok(Outcome(e, if stored == Absent then Created else Updated)))
  }

  // Render onto what was read back.
  function Onto(sha: Json -> string, stored: Stored, before: Published, q: Request): (Stored,
                Result<Outcome, PublishError>) {
    match Rendered(sha, q.routes, q.scope, before.revision, q.opts)
    case Err(e) => (stored, Err(Unrendered(e)))
    case Ok(e) => Distribute(stored, before.revision, Stamp(e, stored != Absent, before, q), q.writes)
  }

  function Step(sha: Json -> string, stored: Stored, q: Request): (Stored, Result<Outcome, PublishError>) {
    match ReadBack(sha, stored)
    case Err(e) => (stored, Err(e))
    case Ok(before) => Onto(sha, stored, before, q)
  }

  class Publisher {
    const sha: Json -> string
    var stored: Stored

    constructor (sha: Json -> string, stored: Stored)
      ensures this.sha == sha && this.stored == stored
    {
      this.sha := sha;
      this.stored := stored;
    }

    method Publish(q: Request) returns (r: Result<Outcome, PublishError>)
      modifies this
      ensures (stored, r) == Step(sha, old(stored), q)
    {
      var present := stored != Absent;
      var before := NOTHING_PUBLISHED;
      if present {
        if stored.WithoutKey? { return Err(NoEnvelope); }
        if stored.Unparsable? { return Err(Tampered); }
        var decoded := Decode(stored.json);
        if decoded.None? { return Err(Tampered); }
        var digest := ComputeDigestFromWire(sha, stored.json);
        if digest.Err? || digest.value != decoded.value.revision.digest { return Err(Tampered); }
        before := decoded.value;
      }
      var rendered := Render(sha, q.routes, q.scope, before.revision, q.opts);
      if rendered.Err? { return Err(Unrendered(rendered.error)); }
      var e := rendered.value;
      if q.opts.renderedAt == "" {
        if present && e.revision.digest == before.revision.digest {
          e := e.(renderedAt := before.renderedAt);
        } else {
          e := e.(renderedAt := q.now);
        }
      }
      if CheckRevisionTransition(before.revision, e.revision).Err? { return Err(Regressed); }
      var data := EnvelopeJson(e);
      if present && stored == Document(data) { return Ok(Outcome(e, Unchanged)); }
      if !q.writes { return Err(WriteFailed); }
      stored := Document(data);
      r := Ok(Outcome(e, if present then Updated else Created));
    }
  }

  // ----- what is written is accepted -----

  // The envelope declares its own content's digest and a valid generation.
  predicate WellFormed(sha: Json -> string, e: Envelope) {
    e.revision.digest == DigestOf(sha, e.overlay) && 1 <= e.revision.generation <= MAX_INT64
  }

  lemma {:induction false} RevisionFields(e: Envelope)
    ensures FieldIs(Entries(Record(REVISION_KEYS, RevisionValues(e))), "value", Text(e.revision.digest))
  {
    EnvelopeNamesAreDistinct();
    FieldNamed(REVISION_KEYS, RevisionValues(e), 2, "value");
  }

  lemma {:induction false} ProvenanceFields(e: Envelope)
    ensures var m := Entries(Record(PROVENANCE_KEYS, ProvenanceValues(e)));
      && FieldIs(m, "source_generation", Some(Num(e.revision.generation)))
      && FieldIs(m, "rendered_at", Text(e.renderedAt))
  {
    EnvelopeNamesAreDistinct();
    FieldNamed(PROVENANCE_KEYS, ProvenanceValues(e), 4, "source_generation");
    FieldNamed(PROVENANCE_KEYS, ProvenanceValues(e), 5, "rendered_at");
  }

  lemma {:induction false} DecodesItself(e: Envelope)
    requires -MAX_INT64 - 1 <= e.revision.generation <= MAX_INT64
    ensures Decode(EnvelopeJson(e)) == Some(Published(e.revision, e.renderedAt))
  {
    EnvelopeSections(e);
    RevisionFields(e);
    ProvenanceFields(e);
    var doc := EnvelopeEntries(e);
    assert AsMap(EnvelopeJson(e)) == Some(doc);
    assert Section(doc, "revision") == Some(Entries(Record(REVISION_KEYS, RevisionValues(e))));
    assert Section(doc, "provenance") == Some(Entries(Record(PROVENANCE_KEYS, ProvenanceValues(e))));
  }

  lemma {:induction false} WrittenIsAccepted(sha: Json -> string, e: Envelope)
    requires WellFormed(sha, e)
    ensures ReadBack(sha, Document(EnvelopeJson(e))) == Ok(Published(e.revision, e.renderedAt))
  {
    DecodesItself(e);
    WireAgreesWithStruct(sha, e);
  }

  predicate SoundOutcome(sha: Json -> string, stored: Stored, after: Stored, r: Result<Outcome, PublishError>) {
    match r
    case Ok(o) => WellFormed(sha, o.envelope) && after == Document(EnvelopeJson(o.envelope))
    case Err(e) => after == stored && e != Regressed
  }

  // Whatever the ConfigMap held, what a publication reports is well formed and
  // is what the ConfigMap then holds, and the final check never fires.
  lemma {:induction false} StepIsSound(sha: Json -> string, stored: Stored, q: Request)
    ensures SoundOutcome(sha, stored, Step(sha, stored, q).0, Step(sha, stored, q).1)
  {
    if ReadBack(sha, stored).Ok? {
      ReadBackInRange(sha, stored);
      OntoIsSound(sha, stored, ReadBack(sha, stored).value, q);
    }
  }

  lemma {:induction false} OntoIsSound(sha: Json -> string, stored: Stored, before: Published, q: Request)
    requires before.revision.generation <= MAX_INT64
    ensures SoundOutcome(sha, stored, Onto(sha, stored, before, q).0, Onto(sha, stored, before, q).1)
    ensures Onto(sha, stored, before, q).1.Ok? && before.revision.generation > 0 ==>
      Advances(before.revision, Onto(sha, stored, before, q).1.value.envelope.revision)
    ensures Onto(sha, stored, before, q).1.Ok? && before.revision.generation <= 0 ==>
      Onto(sha, stored, before, q).1.value.envelope.revision.generation == 1
  {
    match Rendered(sha, q.routes, q.scope, before.revision, q.opts)
    case Err(_) =>
    case Ok(e) =>
      RenderedChains(sha, q.routes, q.scope, before.revision, q.opts);
      DistributeIsSound(sha, stored, before.revision, Stamp(e, stored != Absent, before, q), q.writes);
  }

  lemma {:induction false} DistributeIsSound(sha: Json -> string, stored: Stored, before: Revision, e: Envelope,
                                             writes: bool)
    requires WellFormed(sha, e) && CheckRevisionTransition(before, e.revision).Ok?
    ensures var (after, r) := Distribute(stored, before, e, writes);
      SoundOutcome(sha, stored, after, r)
  {
  }

  lemma {:induction false} ReadBackInRange(sha: Json -> string, stored: Stored)
    requires ReadBack(sha, stored).Ok?
    ensures -MAX_INT64 - 1 <= ReadBack(sha, stored).value.revision.generation <= MAX_INT64
  {
  }

  // ----- what one publication does -----

  // What the ConfigMap distributes: an envelope whose declared digest is that
  // of its content.
  predicate Distributes(sha: Json -> string, stored: Stored, p: Published) {
    && stored.Document? && Decode(stored.json) == Some(p)
    && WireDigest(sha, stored.json) == Ok(p.revision.digest)
  }

  // A value under a name, unless it is null.
  function Inner(m: map<string, Json>, key: string): Option<Json> {
    if key in m && m[key] != Null then Some(m[key]) else None
  }

  predicate IsSection(v: Option<Json>, m: map<string, Json>) {
    if v.None? then m == map[] else v.value.Obj? && m == Entries(v.value.members)
  }

  predicate IsText(v: Option<Json>, s: string) {
    if v.None? then s == "" else v.value == Str(s)
  }

  predicate IsInt64(v: Option<Json>, n: int) {
    if v.None? then n == 0 else v.value == Num(n) && -0x8000_0000_0000_0000 <= n <= 0x7FFF_FFFF_FFFF_FFFF
  }

  // The fields of a document's sections.
  ghost predicate Decodes(doc: map<string, Json>, p: Published) {
    exists revision, provenance ::
      && IsSection(Inner(doc, "revision"), revision) && IsSection(Inner(doc, "provenance"), provenance)
      && DecodesFields(revision, provenance, p)
  }

  predicate DecodesFields(revision: map<string, Json>, provenance: map<string, Json>, p: Published) {
    && IsText(Inner(revision, "value"), p.revision.digest)
    && IsInt64(Inner(provenance, "source_generation"), p.revision.generation)
    && IsText(Inner(provenance, "rendered_at"), p.renderedAt)
  }

  lemma {:induction false} SectionIsExact(doc: map<string, Json>, key: string, m: map<string, Json>)
    ensures Section(doc, key) == Some(m) <==> IsSection(Inner(doc, key), m)
  {
  }

  lemma {:induction false} FieldsAreExact(revision: map<string, Json>, provenance: map<string, Json>, p: Published)
    ensures DecodesFields(revision, provenance, p) <==>
      && TextField(revision, "value") == Some(p.revision.digest)
      && IntField(provenance, "source_generation") == Some(p.revision.generation)
      && TextField(provenance, "rendered_at") == Some(p.renderedAt)
  {
  }

  // A document is decoded exactly when it is an object, or null, with sections
  // and fields of the right kinds; what is missing or null reads as empty.
  lemma {:induction false} DecodeIsExact(doc: Json, p: Published)
    ensures Decode(doc) == Some(p) <==>
      (doc.Null? && p == NOTHING_PUBLISHED) || (doc.Obj? && Decodes(Entries(doc.members), p))
  {
    if AsMap(doc).Some? {
      var m := AsMap(doc).value;
      var revision, provenance := Section(m, "revision"), Section(m, "provenance");
      forall r ensures revision == Some(r) <==> IsSection(Inner(m, "revision"), r) { SectionIsExact(m, "revision", r); }
      forall r ensures provenance == Some(r) <==> IsSection(Inner(m, "provenance"), r) {
        SectionIsExact(m, "provenance", r);
      }
      if revision.Some? && provenance.Some? { FieldsAreExact(revision.value, provenance.value, p); }
    }
  }

  // What a publication renders onto: that, or nothing without a ConfigMap.
  predicate Before(sha: Json -> string, stored: Stored, p: Published) {
    if stored == Absent then p.revision == Revision(0, "") else Distributes(sha, stored, p)
  }

  // The time a successful publication reports: an injected one; the
  // distributed one, if the content is the distributed content; else the
  // clock's.
  predicate TimeIs(sha: Json -> string, stored: Stored, q: Request, e: Envelope) {
    if q.opts.renderedAt != "" then e.renderedAt == q.opts.renderedAt
    else if stored.Document? && Decode(stored.json).Some?
            && Decode(stored.json).value.revision.digest == e.revision.digest then
      e.renderedAt == Decode(stored.json).value.renderedAt
    else e.renderedAt == q.now
  }

  // A success reports the rendering at its time and leaves it distributed. It
  // creates the ConfigMap exactly when there was none, and leaves it alone
  // exactly when it says so, which needs no write.
  predicate Succeeds(sha: Json -> string, stored: Stored, q: Request, before: Published, after: Stored, o: Outcome) {
    && Rendered(sha, q.routes, q.scope, before.revision, q.opts) == Ok(o.envelope.(renderedAt := q.opts.renderedAt))
    && TimeIs(sha, stored, q, o.envelope)
    && after == Document(EnvelopeJson(o.envelope))
    && (o.change == Created <==> stored == Absent)
    && (o.change == Unchanged <==> after == stored)
    && (q.writes || o.change == Unchanged)
  }

  lemma {:induction false} ReadBackIsExact(sha: Json -> string, stored: Stored)
    ensures ReadBack(sha, stored) == Err(NoEnvelope) <==> stored.WithoutKey?
    ensures ReadBack(sha, stored) == Err(Tampered) <==>
      stored.Unparsable? || (stored.Document? && forall p :: !Distributes(sha, stored, p))
    ensures ReadBack(sha, stored).Err? ==> ReadBack(sha, stored).error in {NoEnvelope, Tampered}
    ensures ReadBack(sha, stored).Ok? ==> Before(sha, stored, ReadBack(sha, stored).value)
    ensures forall p :: Before(sha, stored, p) ==>
      ReadBack(sha, stored).Ok? && ReadBack(sha, stored).value.revision == p.revision
  {
    if stored.Document? && Decode(stored.json).Some? {
      var p := Decode(stored.json).value;
      assert ReadBack(sha, stored).Ok? <==> Distributes(sha, stored, p);
    }
  }

  // Rendering carries the injected timestamp, or none.
  lemma {:induction false} RenderedStamp(sha: Json -> string, q: Request, prev: Revision)
    ensures var r := Rendered(sha, q.routes, q.scope, prev, q.opts);
      r.Ok? ==> r.value.renderedAt == q.opts.renderedAt
  {
  }

  lemma {:induction false} StampIsExact(sha: Json -> string, stored: Stored, before: Published, q: Request, e: Envelope)
    requires ReadBack(sha, stored) == Ok(before) && e.renderedAt == q.opts.renderedAt
    ensures var stamped := Stamp(e, stored != Absent, before, q);
      TimeIs(sha, stored, q, stamped) && e == stamped.(renderedAt := q.opts.renderedAt)
  {
  }

  lemma {:induction false} DistributeIsExact(stored: Stored, before: Revision, e: Envelope, writes: bool)
    requires CheckRevisionTransition(before, e.revision).Ok?
    ensures var (after, r) := Distribute(stored, before, e, writes);
      && (r.Err? <==> !writes && stored != Document(EnvelopeJson(e)))
      && (r.Err? ==> r.error == WriteFailed)
      && (r.Ok? ==>
            && r.value.envelope == e && after == Document(EnvelopeJson(e))
            && (r.value.change == Created <==> stored == Absent)
            && (r.value.change == Unchanged <==> after == stored))
  {
  }

  lemma {:induction false} OntoIsExact(sha: Json -> string, stored: Stored, before: Published, q: Request)
    requires ReadBack(sha, stored) == Ok(before)
    ensures var (after, r) := Onto(sha, stored, before, q);
      var rendered := Rendered(sha, q.routes, q.scope, before.revision, q.opts);
      && (rendered.Err? ==> r == Err(Unrendered(rendered.error)))
      && (rendered.Ok? ==> !(r.Err? && r.error.Unrendered?))
      && (r.Ok? ==> Succeeds(sha, stored, q, before, after, r.value))
      && (r.Err? && !r.error.Unrendered? ==> r.error == WriteFailed)
      && (r == Err(WriteFailed) <==>
            var writing := Onto(sha, stored, before, q.(writes := true)).1;
            !q.writes && writing.Ok? && writing.value.change != Unchanged)
  {
    match Rendered(sha, q.routes, q.scope, before.revision, q.opts)
    case Err(_) =>
    case Ok(e) =>
      ReadBackInRange(sha, stored);
      RenderedChains(sha, q.routes, q.scope, before.revision, q.opts);
      RenderedStamp(sha, q, before.revision);
      StampIsExact(sha, stored, before, q, e);
      var stamped := Stamp(e, stored != Absent, before, q);
      DistributeIsExact(stored, before.revision, stamped, q.writes);
      DistributeIsExact(stored, before.revision, stamped, true);
  }

  // What is rendered onto what is distributed.
  ghost predicate RendersTo(sha: Json -> string, stored: Stored, q: Request, r: Result<Envelope, Error>) {
    exists before ::
      Before(sha, stored, before) && Rendered(sha, q.routes, q.scope, before.revision, q.opts) == r
  }

  // Every publication, case by case: only an absent ConfigMap or an intact
  // envelope is rendered onto, and an error, whatever it is, changes nothing.
  lemma {:induction false} StepIsExact(sha: Json -> string, stored: Stored, q: Request)
    ensures var (after, r) := Step(sha, stored, q);
      && (r == Err(NoEnvelope) <==> stored.WithoutKey?)
      && (r == Err(Tampered) <==>
            stored.Unparsable? || (stored.Document? && forall p :: !Distributes(sha, stored, p)))
      && (forall e :: r == Err(Unrendered(e)) <==> RendersTo(sha, stored, q, Err(e)))
      && (r == Err(WriteFailed) <==>
            var writing := Step(sha, stored, q.(writes := true)).1;
            !q.writes && writing.Ok? && writing.value.change != Unchanged)
      && (r.Ok? ==> exists before :: Before(sha, stored, before) && Succeeds(sha, stored, q, before, after, r.value))
      && (r.Err? ==> after == stored)
  {
    StepIsSound(sha, stored, q);
    ReadBackIsExact(sha, stored);
    match ReadBack(sha, stored)
    case Ok(before) =>
      OntoIsExact(sha, stored, before, q);
      assert RendersTo(sha, stored, q, Rendered(sha, q.routes, q.scope, before.revision, q.opts));
    case Err(_) =>
  }

  // The generation moves with the digest.
  predicate Advances(a: Revision, b: Revision) {
    b.generation == a.generation + if a.digest == b.digest then 0 else 1
  }

  // A publication onto a distributed envelope: what it reports advances from
  // it and is then distributed, and an error leaves it in place.
  predicate Follows(sha: Json -> string, last: Envelope, after: Stored, r: Result<Outcome, PublishError>) {
    match r
    case Ok(o) =>
      Advances(last.revision, o.envelope.revision) && WellFormed(sha, o.envelope)
      && after == Document(EnvelopeJson(o.envelope))
    case Err(e) => (e == WriteFailed || e.Unrendered?) && after == Document(EnvelopeJson(last))
  }

  lemma {:induction false} GenerationStep(sha: Json -> string, last: Envelope, q: Request)
    requires WellFormed(sha, last)
    ensures var (after, r) := Step(sha, Document(EnvelopeJson(last)), q);
      Follows(sha, last, after, r)
  {
    WrittenIsAccepted(sha, last);
    OntoIsSound(sha, Document(EnvelopeJson(last)), Published(last.revision, last.renderedAt), q);
  }

  // ----- sequences of publications -----

  // The envelopes that a sequence of publications reports, and the ConfigMap
  // it leaves behind.
  function Run(sha: Json -> string, stored: Stored, qs: seq<Request>): (Stored, seq<Envelope>)
    decreases |qs|
  {
    if qs == [] then (stored, [])
    else
      var (after, r) := Step(sha, stored, qs[0]);
      var (end, rest) := Run(sha, after, qs[1..]);
      (end, Reported(r) + rest)
  }

  predicate Chained(es: seq<Envelope>) {
    forall i | 0 <= i < |es| - 1 :: Advances(es[i].revision, es[i + 1].revision)
  }

  // A run that starts from the distributed envelope last.
  predicate Continues(sha: Json -> string, last: Envelope, end: Stored, es: seq<Envelope>) {
    && Chained([last] + es)
    && end == Document(EnvelopeJson(([last] + es)[|es|])) && WellFormed(sha, ([last] + es)[|es|])
  }

  function Reported(r: Result<Outcome, PublishError>): seq<Envelope> {
    match r case Ok(o) => [o.envelope] case Err(_) => []
  }

  lemma {:induction false} ContinuesFrom(sha: Json -> string, last: Envelope, after: Stored,
                                         r: Result<Outcome, PublishError>,
                                         end: Stored, rest: seq<Envelope>)
    requires Follows(sha, last, after, r)
    requires Continues(sha, if r.Ok? then r.value.envelope else last, end, rest)
    ensures Continues(sha, last, end, Reported(r) + rest)
  {
    match r
    case Ok(o) =>
      var es := [o.envelope] + rest;
      var more := [last] + es;
      forall i | 0 <= i < |more| - 1 ensures Advances(more[i].revision, more[i + 1].revision) {
        if i > 0 { assert more[i] == es[i - 1] && more[i + 1] == es[i - 1 + 1]; }
      }
      assert more[|es|] == es[|rest|];
    case Err(_) => assert [] + rest == rest;
  }

  lemma {:induction false} RunFrom(sha: Json -> string, last: Envelope, qs: seq<Request>)
    requires WellFormed(sha, last)
    ensures Continues(sha, last, Run(sha, Document(EnvelopeJson(last)), qs).0,
                      Run(sha, Document(EnvelopeJson(last)), qs).1)
    decreases |qs|
  {
    if qs != [] {
      GenerationStep(sha, last, qs[0]);
      var (after, r) := Step(sha, Document(EnvelopeJson(last)), qs[0]);
      var next := if r.Ok? then r.value.envelope else last;
      RunFrom(sha, next, qs[1..]);
      var (end, rest) := Run(sha, after, qs[1..]);
      ContinuesFrom(sha, last, after, r, end, rest);
    }
  }

  // Starting without a ConfigMap, generations start at one, rise by one
  // exactly with the digest, and the ConfigMap always holds the last envelope
  // reported, which the next read-back accepts.
  lemma {:induction false} RunsAreChained(sha: Json -> string, qs: seq<Request>)
    ensures var (end, es) := Run(sha, Absent, qs);
      && Chained(es)
      && (if es == [] then end == Absent
          else && es[0].revision.generation == 1
               && end == Document(EnvelopeJson(es[|es| - 1]))
               && ReadBack(sha, end) == Ok(Published(es[|es| - 1].revision, es[|es| - 1].renderedAt)))
    decreases |qs|
  {
    if qs != [] {
      OntoIsSound(sha, Absent, NOTHING_PUBLISHED, qs[0]);
      var (after, r) := Step(sha, Absent, qs[0]);
      var (end, rest) := Run(sha, after, qs[1..]);
      match r
      case Ok(o) =>
        RunFrom(sha, o.envelope, qs[1..]);
        FirstOf(sha, o.envelope, end, rest);
      case Err(_) =>
        RunsAreChained(sha, qs[1..]);
        assert [] + rest == rest;
    }
  }

  lemma {:induction false} FirstOf(sha: Json -> string, first: Envelope, end: Stored, rest: seq<Envelope>)
    requires Continues(sha, first, end, rest)
    ensures var es := [first] + rest;
      && Chained(es) && es[0] == first && end == Document(EnvelopeJson(es[|es| - 1]))
      && ReadBack(sha, end) == Ok(Published(es[|es| - 1].revision, es[|es| - 1].renderedAt))
  {
    WrittenIsAccepted(sha, ([first] + rest)[|rest|]);
  }

  // Publishing the same inputs again, at whatever time, writes nothing unless
  // the caller injects a timestamp.
  lemma {:induction false} RepeatWritesNothing(sha: Json -> string, stored: Stored, q: Request, later: string,
                                               writes: bool)
    requires Step(sha, stored, q).1.Ok? && q.opts.renderedAt == ""
    ensures var (after, r) := Step(sha, stored, q);
      Step(sha, after, q.(now := later, writes := writes)) == (after, Ok(Outcome(r.value.envelope, Unchanged)))
  {
    StepIsSound(sha, stored, q);
    ReadBackInRange(sha, stored);
    OntoAgain(sha, stored, ReadBack(sha, stored).value, q, q.(now := later, writes := writes));
    WrittenIsAccepted(sha, Step(sha, stored, q).1.value.envelope);
  }

  lemma {:induction false} OntoAgain(sha: Json -> string, stored: Stored, before: Published, q: Request, p: Request)
    requires before.revision.generation <= MAX_INT64 && Onto(sha, stored, before, q).1.Ok?
    requires q.opts.renderedAt == "" && p == q.(now := p.now, writes := p.writes)
    ensures var (after, r) := Onto(sha, stored, before, q);
      var e := r.value.envelope;
      Onto(sha, after, Published(e.revision, e.renderedAt), p) == (after, Ok(Outcome(e, Unchanged)))
  {
    RenderAgain(sha, q, before.revision);
    var first := Rendered(sha, q.routes, q.scope, before.revision, q.opts).value;
    var e := Stamp(first, stored != Absent, before, q);
    OntoIsSound(sha, stored, before, q);
    assert CheckRevisionTransition(e.revision, e.revision).Ok?;
    assert Stamp(first, true, Published(e.revision, e.renderedAt), p) == e;
  }

  // Rendering the same inputs onto their own revision changes nothing.
  lemma {:induction false} RenderAgain(sha: Json -> string, q: Request, prev: Revision)
    requires prev.generation <= MAX_INT64 && Rendered(sha, q.routes, q.scope, prev, q.opts).Ok?
    ensures var first := Rendered(sha, q.routes, q.scope, prev, q.opts);
      Rendered(sha, q.routes, q.scope, first.value.revision, q.opts) == first
  {
  }
}
