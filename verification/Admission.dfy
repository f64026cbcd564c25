// Models of other namespaces attached to a tenant's Gateway: who holds a
// client-visible name, which models can share the overlay, and how many
// candidates fit in it. Attached models come oldest first.
module Admission {
  import opened Resolver
  import opened Routes
  import opened Selection
  import opened Wrappers

  const MAX_OVERLAY_CANDIDATES := 1024

  datatype Reason = ModelNameConflict | Unresolved | OverlayCapacityExceeded

  // ----- holding names -----

  datatype Served = Served(namespace: string, clientName: string)

  // Who holds a name: the tenant if it serves the name, otherwise the oldest
  // attached model of that name.
  function HolderOf(own: seq<Served>, attached: seq<Served>, name: string): Option<string> {
    if attached == [] then
      if own == [] then None
      else if own[|own| - 1].clientName == name then Some(own[|own| - 1].namespace)
      else HolderOf(own[..|own| - 1], [], name)
    else
      var older := HolderOf(own, attached[..|attached| - 1], name);
      if older.Some? then older
      else if attached[|attached| - 1].clientName == name then Some(attached[|attached| - 1].namespace)
      else None
  }

  predicate Records(winners: map<string, string>, own: seq<Served>, attached: seq<Served>) {
    && (forall name | name in winners :: HolderOf(own, attached, name) == Some(winners[name]))
    && forall i | 0 <= i < |own + attached| :: (own + attached)[i].clientName in winners
  }

  ghost predicate Complete(winners: map<string, string>, own: seq<Served>, attached: seq<Served>) {
    forall name :: name !in winners ==> HolderOf(own, attached, name).None?
  }

  method OwnNames(own: seq<Served>) returns (winners: map<string, string>)
    ensures Records(winners, own, []) && Complete(winners, own, [])
  {
    winners := map[];
    var i := 0;
    while i < |own|
      invariant 0 <= i <= |own|
      invariant Records(winners, own[..i], []) && Complete(winners, own[..i], [])
    {
      assert own[..i + 1][..i] == own[..i];
      assert forall k | 0 <= k < i :: (own[..i] + [])[k] == own[k];
      winners := winners[own[i].clientName := own[i].namespace];
      i := i + 1;
    }
    assert own[..|own|] == own;
  }

  // Conflicting[i]: model i's name is held by another namespace.
  method HoldNames(own: seq<Served>, attached: seq<Served>) returns (conflicting: seq<bool>)
    ensures |conflicting| == |attached|
    ensures forall i | 0 <= i < |attached| ::
      conflicting[i] <==> HolderOf(own, attached[..i + 1], attached[i].clientName) != Some(attached[i].namespace)
  {
    var winners := OwnNames(own);
    conflicting := [];
    var i := 0;
    while i < |attached|
      invariant 0 <= i <= |attached| == |attached|
      invariant |conflicting| == i
      invariant Records(winners, own, attached[..i]) && Complete(winners, own, attached[..i])
      invariant forall k | 0 <= k < i ::
        conflicting[k] <==> HolderOf(own, attached[..k + 1], attached[k].clientName) != Some(attached[k].namespace)
    {
      var m := attached[i];
      assert attached[..i + 1][..i] == attached[..i];
      assert own + attached[..i + 1] == (own + attached[..i]) + [m];
      if m.clientName in winners && winners[m.clientName] != m.namespace {
        conflicting := conflicting + [true];
      } else {
        if m.clientName !in winners {
          winners := winners[m.clientName := m.namespace];
        }
        conflicting := conflicting + [false];
      }
      i := i + 1;
    }
    assert attached[..|attached|] == attached;
  }

  lemma {:induction false} HolderStays(own: seq<Served>, attached: seq<Served>, i: nat, name: string)
    requires i <= |attached| && HolderOf(own, attached[..i], name).Some?
    ensures HolderOf(own, attached, name) == HolderOf(own, attached[..i], name)
    decreases |attached| - i
  {
    if i < |attached| {
      assert attached[..i + 1][..i] == attached[..i];
      HolderStays(own, attached, i + 1, name);
    } else {
      assert attached[..i] == attached;
    }
  }

  lemma {:induction false} OwnHolds(own: seq<Served>, tenant: string, name: string)
    requires forall m | m in own :: m.namespace == tenant
    ensures HolderOf(own, [], name) == if exists m :: m in own && m.clientName == name then Some(tenant) else None
  {
    if own != [] {
      var last := own[|own| - 1];
      assert last in own;
      assert own == own[..|own| - 1] + [last];
      OwnHolds(own[..|own| - 1], tenant, name);
    }
  }

  lemma {:induction false} OldestHolds(own: seq<Served>, attached: seq<Served>, name: string)
    requires HolderOf(own, [], name).None?
    ensures match HolderOf(own, attached, name)
            case None => forall m | m in attached :: m.clientName != name
            case Some(namespace) =>
              exists j :: 0 <= j < |attached| && attached[j] == Served(namespace, name)
                && forall k | 0 <= k < j :: attached[k].clientName != name
  {
    if attached != [] {
      OldestHolds(own, attached[..|attached| - 1], name);
      assert attached == attached[..|attached| - 1] + [attached[|attached| - 1]];
    }
  }

  // Whatever the attached models, a name is kept by one namespace alone: two
  // models that keep their name share their namespace, and none keeps a name
  // the tenant itself serves.
  lemma {:induction false} OneNamespacePerName(own: seq<Served>, attached: seq<Served>, tenant: string, i: nat, j: nat)
    requires i < |attached| && j < |attached| && attached[i].clientName == attached[j].clientName
    requires forall m | m in own :: m.namespace == tenant
    requires forall m | m in attached :: m.namespace != tenant
    requires HolderOf(own, attached[..i + 1], attached[i].clientName) == Some(attached[i].namespace)
    requires HolderOf(own, attached[..j + 1], attached[j].clientName) == Some(attached[j].namespace)
    ensures attached[i].namespace == attached[j].namespace
    ensures forall m | m in own :: m.clientName != attached[i].clientName
  {
    var name := attached[i].clientName;
    HolderStays(own, attached, i + 1, name);
    HolderStays(own, attached, j + 1, name);
    OwnHolds(own, tenant, name);
    assert attached[..0] == [] && attached[i] in attached;
    if HolderOf(own, [], name).Some? { HolderStays(own, attached, 0, name); }
  }

  // ----- sharing the overlay -----

  ghost predicate RepeatedName(bs: seq<Binding>, name: string) {
    exists i, j | 0 <= i < j < |bs| :: bs[i].route.clientName == name && SameBinding(bs[i].route, bs[j].route)
  }

  // What the scan has seen: the bound providers, and the names that repeat one.
  ghost predicate Scanned(bs: seq<Binding>, bound: set<(string, string, string)>, repeated: set<string>) {
    && bound == (set b | b in bs :: BindingTriple(b.route))
    && forall name :: name in repeated <==> RepeatedName(bs, name)
  }

  lemma {:induction false} ScanStep(bs: seq<Binding>, bound: set<(string, string, string)>, repeated: set<string>,
                                    b: Binding)
    requires Scanned(bs, bound, repeated)
    ensures Scanned(bs + [b], bound + {BindingTriple(b.route)},
                    if BindingTriple(b.route) in bound then repeated + {b.route.clientName} else repeated)
  {
    var more := bs + [b];
    var triple := BindingTriple(b.route);
    if triple in bound {
      var k :| 0 <= k < |bs| && BindingTriple(bs[k].route) == triple;
      assert more[k] == bs[k] && SameBinding(more[k].route, more[|bs|].route);
    }
    forall name | RepeatedName(more, name)
      ensures RepeatedName(bs, name) || (triple in bound && name == b.route.clientName)
    {
      var i, j :| 0 <= i < j < |more| && more[i].route.clientName == name && SameBinding(more[i].route, more[j].route);
      assert more[i] == bs[i] && bs[i] in bs;
      if j == |bs| { assert BindingTriple(bs[i].route) == triple; }
    }
    forall name | RepeatedName(bs, name) ensures RepeatedName(more, name) {
      var i, j :| 0 <= i < j < |bs| && bs[i].route.clientName == name && SameBinding(bs[i].route, bs[j].route);
      assert more[i] == bs[i] && more[j] == bs[j];
    }
  }

  lemma {:induction false} FlattenAppend(models: seq<ModelRoutes>, m: ModelRoutes)
    ensures Flatten(models + [m]) == Flatten(models) + Bindings(m)
  {
    assert (models + [m])[..|models|] == models;
  }

  method ScanModel(ghost bs: seq<Binding>, m: ModelRoutes, bound: set<(string, string, string)>, repeated: set<string>)
    returns (b: set<(string, string, string)>, r: set<string>)
    requires Scanned(bs, bound, repeated)
    ensures Scanned(bs + Bindings(m), b, r)
  {
    b, r := bound, repeated;
    var i := 0;
    assert bs + Bindings(m)[..0] == bs;
    while i < |m.routes|
      invariant 0 <= i <= |m.routes|
      invariant Scanned(bs + Bindings(m)[..i], b, r)
    {
      var route := m.routes[i];
      ScanStep(bs + Bindings(m)[..i], b, r, Binding(m.modelRef, route));
      assert bs + Bindings(m)[..i + 1] == bs + Bindings(m)[..i] + [Binding(m.modelRef, route)];
      if BindingTriple(route) in b { r := r + {route.clientName}; }
      b := b + {BindingTriple(route)};
      i := i + 1;
    }
    assert Bindings(m)[..|m.routes|] == Bindings(m);
  }

  predicate DistinctRefs(models: seq<ModelRoutes>) {
    forall i, j | 0 <= i < j < |models| :: models[i].modelRef != models[j].modelRef
  }

  predicate Touches(m: ModelRoutes, names: set<string>) {
    exists r :: r in m.routes && r.clientName in names
  }

  ghost predicate TouchesRepeated(m: ModelRoutes, bs: seq<Binding>) {
    exists r :: r in m.routes && RepeatedName(bs, r.clientName)
  }

  // The models neither invalid on their own nor behind a name that repeats a
  // provider anywhere in the set.
  ghost function Shareable(models: seq<ModelRoutes>, bs: seq<Binding>, invalid: ModelRoutes -> bool): seq<ModelRoutes> {
    if models == [] then []
    else
      var last := models[|models| - 1];
      Shareable(models[..|models| - 1], bs, invalid)
      + if invalid(last) || TouchesRepeated(last, bs) then [] else [last]
  }

  // Which of the first models are rejected: the invalid among the first i,
  // those behind a repeated name among the first j.
  ghost predicate RejectedSofar(models: seq<ModelRoutes>, bs: seq<Binding>, invalid: ModelRoutes -> bool,
                                i: int, j: int, rejected: set<string>)
  {
    forall k | 0 <= k < |models| ::
      models[k].modelRef in rejected <==> (k < i && invalid(models[k])) || (k < j && TouchesRepeated(models[k], bs))
  }

  method ScanModels(models: seq<ModelRoutes>, invalid: ModelRoutes -> bool)
    returns (repeated: set<string>, rejected: set<string>)
    requires DistinctRefs(models)
    ensures forall name :: name in repeated <==> RepeatedName(Flatten(models), name)
    ensures RejectedSofar(models, Flatten(models), invalid, |models|, 0, rejected)
  {
    var bound: set<(string, string, string)> := {};
    repeated, rejected := {}, {};
    var i := 0;
    while i < |models|
      invariant 0 <= i <= |models|
      invariant Scanned(Flatten(models[..i]), bound, repeated)
      invariant RejectedSofar(models, Flatten(models), invalid, i, 0, rejected)
    {
      FlattenAppend(models[..i], models[i]);
      assert models[..i + 1] == models[..i] + [models[i]];
      if invalid(models[i]) { rejected := rejected + {models[i].modelRef}; }
      bound, repeated := ScanModel(Flatten(models[..i]), models[i], bound, repeated);
      i := i + 1;
    }
    assert models[..|models|] == models;
  }

  // invalid: the object name is no label value, or the model needs more
  // HTTPRoute rules than the Gateway API allows.
  method ExcludeUnsupported(models: seq<ModelRoutes>, invalid: ModelRoutes -> bool)
    returns (valid: seq<ModelRoutes>, rejected: set<string>)
    requires DistinctRefs(models)
    ensures valid == Shareable(models, Flatten(models), invalid)
    ensures RejectedSofar(models, Flatten(models), invalid, |models|, |models|, rejected)
  {
    ghost var bs := Flatten(models);
    var repeated: set<string>;
    repeated, rejected := ScanModels(models, invalid);
    valid := [];
    var i := 0;
    while i < |models|
      invariant 0 <= i <= |models|
      invariant RejectedSofar(models, bs, invalid, |models|, i, rejected)
      invariant valid == Shareable(models[..i], bs, invalid)
    {
      var m := models[i];
      assert models[..i + 1][..i] == models[..i];
      assert Touches(m, repeated) <==> TouchesRepeated(m, bs);
      if Touches(m, repeated) { rejected := rejected + {m.modelRef}; }
      if m.modelRef !in rejected { valid := valid + [m]; }
      i := i + 1;
    }
    assert models[..|models|] == models;
  }

  // A provider is bound twice under the name.
  ghost predicate BoundTwice(bs: seq<Binding>, name: string) {
    exists i, j ::
      && 0 <= i < j < |bs| && bs[i].route.clientName == name && bs[j].route.clientName == name
      && bs[i].route.provider == bs[j].route.provider
      && bs[i].route.providerNamespace == bs[j].route.providerNamespace
  }

  ghost predicate BehindRepeat(m: ModelRoutes, bs: seq<Binding>) {
    exists r :: r in m.routes && BoundTwice(bs, r.clientName)
  }

  lemma {:induction false} RepeatedIffTwice(bs: seq<Binding>, name: string)
    ensures RepeatedName(bs, name) <==> BoundTwice(bs, name)
  {
    if RepeatedName(bs, name) {
      var i, j :| 0 <= i < j < |bs| && bs[i].route.clientName == name && SameBinding(bs[i].route, bs[j].route);
      assert bs[j].route.clientName == name;
    }
  }

  lemma {:induction false} TouchesIffBehind(m: ModelRoutes, bs: seq<Binding>)
    ensures TouchesRepeated(m, bs) <==> BehindRepeat(m, bs)
  {
    forall name ensures RepeatedName(bs, name) <==> BoundTwice(bs, name) { RepeatedIffTwice(bs, name); }
  }

  // Kept are exactly the valid models behind no such name, each as often as it
  // was given.
  lemma {:induction false} ShareableIsExact(models: seq<ModelRoutes>, bs: seq<Binding>, invalid: ModelRoutes -> bool,
                                            m: ModelRoutes)
    ensures multiset(Shareable(models, bs, invalid))[m] ==
      if invalid(m) || BehindRepeat(m, bs) then 0 else multiset(models)[m]
    ensures m in Shareable(models, bs, invalid) <==> m in models && !invalid(m) && !TouchesRepeated(m, bs)
  {
    TouchesIffBehind(m, bs);
    if models != [] {
      ShareableIsExact(models[..|models| - 1], bs, invalid, m);
      assert models == models[..|models| - 1] + [models[|models| - 1]];
    }
  }

  lemma {:induction false} BindingsOf(models: seq<ModelRoutes>, b: Binding) returns (m: ModelRoutes)
    requires b in Flatten(models)
    ensures m in models && b in Bindings(m) && b.route in m.routes
  {
    var last := models[|models| - 1];
    assert models == models[..|models| - 1] + [last];
    if b in Bindings(last) {
      m := last;
      var k :| 0 <= k < |Bindings(last)| && Bindings(last)[k] == b;
      assert last.routes[k] == b.route;
    } else {
      m := BindingsOf(models[..|models| - 1], b);
    }
  }

  ghost predicate Across(a: seq<Binding>, b: seq<Binding>, name: string) {
    exists x, y :: x in a && y in b && x.route.clientName == name && SameBinding(x.route, y.route)
  }

  lemma {:induction false} RepeatedInPart(a: seq<Binding>, b: seq<Binding>, name: string)
    ensures RepeatedName(a, name) ==> RepeatedName(a + b, name)
    ensures RepeatedName(b, name) ==> RepeatedName(a + b, name)
  {
    if RepeatedName(a, name) {
      var i, j :| 0 <= i < j < |a| && a[i].route.clientName == name && SameBinding(a[i].route, a[j].route);
      RepeatedAt(a + b, name, i, j);
    }
    if RepeatedName(b, name) {
      var i, j :| 0 <= i < j < |b| && b[i].route.clientName == name && SameBinding(b[i].route, b[j].route);
      RepeatedAt(a + b, name, |a| + i, |a| + j);
    }
  }

  lemma {:induction false} RepeatedAcross(a: seq<Binding>, b: seq<Binding>, name: string)
    requires Across(a, b, name)
    ensures RepeatedName(a + b, name)
  {
    var x, y :| x in a && y in b && x.route.clientName == name && SameBinding(x.route, y.route);
    var i :| 0 <= i < |a| && a[i] == x;
    var j :| 0 <= j < |b| && b[j] == y;
    RepeatedAt(a + b, name, i, |a| + j);
  }

  lemma {:induction false} RepeatedAt(bs: seq<Binding>, name: string, i: nat, j: nat)
    requires i < j < |bs| && bs[i].route.clientName == name && SameBinding(bs[i].route, bs[j].route)
    ensures RepeatedName(bs, name)
  {
  }

  lemma {:induction false} RepeatedSplits(a: seq<Binding>, b: seq<Binding>, name: string)
    requires RepeatedName(a + b, name)
    ensures RepeatedName(a, name) || RepeatedName(b, name) || Across(a, b, name)
  {
    var all := a + b;
    var i, j :| 0 <= i < j < |all| && all[i].route.clientName == name && SameBinding(all[i].route, all[j].route);
    if j < |a| {
      RepeatedAt(a, name, i, j);
    } else if i >= |a| {
      RepeatedAt(b, name, i - |a|, j - |a|);
    } else {
      assert all[i] == a[i] && all[j] == b[j - |a|] && a[i] in a && b[j - |a|] in b;
    }
  }

  // Repeats among what remains are repeats of the whole.
  lemma {:induction false} RepeatsComeFromWhole(models: seq<ModelRoutes>, bs: seq<Binding>,
                                                invalid: ModelRoutes -> bool, name: string)
    requires RepeatedName(Flatten(Shareable(models, bs, invalid)), name)
    ensures RepeatedName(Flatten(models), name)
  {
    var front, last := models[..|models| - 1], models[|models| - 1];
    var kept := Shareable(front, bs, invalid);
    RepeatedInPart(Flatten(front), Bindings(last), name);
    if Shareable(models, bs, invalid) == kept {
      RepeatsComeFromWhole(front, bs, invalid, name);
    } else {
      FlattenAppend(kept, last);
      RepeatedSplits(Flatten(kept), Bindings(last), name);
      if RepeatedName(Flatten(kept), name) {
        RepeatsComeFromWhole(front, bs, invalid, name);
      } else if Across(Flatten(kept), Bindings(last), name) {
        var x, y :| x in Flatten(kept) && y in Bindings(last) && x.route.clientName == name
          && SameBinding(x.route, y.route);
        KeptIsFromWhole(front, bs, invalid, x);
        RepeatedAcross(Flatten(front), Bindings(last), name);
      }
    }
  }

  lemma {:induction false} KeptIsFromWhole(models: seq<ModelRoutes>, bs: seq<Binding>, invalid: ModelRoutes -> bool,
                                           b: Binding)
    requires b in Flatten(Shareable(models, bs, invalid))
    ensures b in Flatten(models)
  {
    var front, last := models[..|models| - 1], models[|models| - 1];
    var kept := Shareable(front, bs, invalid);
    assert models == front + [last];
    FlattenAppend(front, last);
    FlattenAppend(kept, last);
    if Shareable(models, bs, invalid) == kept { assert kept + [] == kept; }
    if b in Flatten(kept) { KeptIsFromWhole(front, bs, invalid, b); }
  }

  // What is kept can be rendered: no client name is left with the same
  // provider twice.
  lemma {:induction false} ShareableNeverRepeats(models: seq<ModelRoutes>, invalid: ModelRoutes -> bool)
    ensures NoRepeats(Flatten(Shareable(models, Flatten(models), invalid)))
  {
    var kept := Shareable(models, Flatten(models), invalid);
    var bs := Flatten(kept);
    forall i, j | 0 <= i < j < |bs| ensures !SameBinding(bs[i].route, bs[j].route) {
      if SameBinding(bs[i].route, bs[j].route) {
        var name := bs[i].route.clientName;
        assert RepeatedName(bs, name);
        RepeatsComeFromWhole(models, Flatten(models), invalid, name);
        assert bs[i] in bs;
        var m := BindingsOf(kept, bs[i]);
        ShareableIsExact(models, Flatten(models), invalid, m);
      }
    }
  }

  // ----- capacity -----

  datatype Candidate = Candidate(ref: string, routes: nat, reason: Option<Reason>, accepted: bool, copiesOwned: bool)

  datatype Admitted = Admitted(ref: string, routes: nat, reason: Option<Reason>, ready: bool)

  // Only a candidate without a reason whose route the Gateway accepted takes
  // part.
  predicate Eligible(c: Candidate) {
    c.reason.None? && c.accepted
  }

  // The overlay slots that admitted attachments reserve.
  function Reserved(out: seq<Admitted>): nat {
    if out == [] then 0
    else Reserved(out[..|out| - 1]) + if out[|out| - 1].reason.None? then out[|out| - 1].routes else 0
  }

  function Decide(c: Candidate, capacity: int): Admitted {
    if c.routes > capacity then Admitted(c.ref, c.routes, Some(OverlayCapacityExceeded), false)
    else Admitted(c.ref, c.routes, None, c.copiesOwned)
  }

  function Admissions(cs: seq<Candidate>, own: nat): seq<Admitted> {
    if cs == [] then []
    else
      var older := Admissions(cs[..|cs| - 1], own);
      var c := cs[|cs| - 1];
      if Eligible(c) then older + [Decide(c, MAX_OVERLAY_CANDIDATES - own - Reserved(older))] else older
  }

  method AdmitAttachments(cs: seq<Candidate>, own: nat) returns (out: seq<Admitted>)
    ensures out == Admissions(cs, own)
  {
    out := [];
    var capacity := MAX_OVERLAY_CANDIDATES - own;
    var i := 0;
    while i < |cs|
      invariant 0 <= i <= |cs|
      invariant out == Admissions(cs[..i], own)
      invariant capacity == MAX_OVERLAY_CANDIDATES - own - Reserved(out)
    {
      var c := cs[i];
      assert cs[..i + 1][..i] == cs[..i];
      i := i + 1;
      if c.reason.Some? || !c.accepted { continue; }
      ghost var older := out;
      if c.routes > capacity {
        out := out + [Admitted(c.ref, c.routes, Some(OverlayCapacityExceeded), false)];
      } else {
        capacity := capacity - c.routes;
        out := out + [Admitted(c.ref, c.routes, None, c.copiesOwned)];
      }
      assert out[..|older|] == older;
    }
    assert cs[..|cs|] == cs;
  }

  function Max(a: int, b: int): int {
    if a < b then b else a
  }

  // The tenant's own candidates and all reserved slots never exceed the limit,
  // unless the tenant's own candidates alone do.
  lemma {:induction false} CapacityHolds(cs: seq<Candidate>, own: nat)
    ensures own + Reserved(Admissions(cs, own)) <= Max(own, MAX_OVERLAY_CANDIDATES)
  {
    if cs != [] {
      var older := Admissions(cs[..|cs| - 1], own);
      CapacityHolds(cs[..|cs| - 1], own);
      if Eligible(cs[|cs| - 1]) { assert Admissions(cs, own)[..|older|] == older; }
    }
  }

  // Attachments actually published: admitted, with their credential copies.
  function ServedRoutes(out: seq<Admitted>): nat {
    if out == [] then 0
    else
      var last := out[|out| - 1];
      ServedRoutes(out[..|out| - 1]) + if last.reason.None? && last.ready then last.routes else 0
  }

  lemma {:induction false} ServedFits(cs: seq<Candidate>, own: nat)
    ensures own + ServedRoutes(Admissions(cs, own)) <= Max(own, MAX_OVERLAY_CANDIDATES)
  {
    CapacityHolds(cs, own);
    ServedIsReserved(Admissions(cs, own));
  }

  lemma {:induction false} ServedIsReserved(out: seq<Admitted>)
    ensures ServedRoutes(out) <= Reserved(out)
  {
    if out != [] { ServedIsReserved(out[..|out| - 1]); }
  }

  // Whether candidates own their copies yet decides only their own readiness:
  // a slot is reserved for an admitted one either way.
  lemma {:induction false} ReadinessDisplacesNone(cs: seq<Candidate>, ds: seq<Candidate>, own: nat)
    requires |cs| == |ds| && forall i | 0 <= i < |cs| :: ds[i] == cs[i].(copiesOwned := ds[i].copiesOwned)
    ensures var out, other := Admissions(cs, own), Admissions(ds, own);
      && |out| == |other| && Reserved(out) == Reserved(other)
      && forall i | 0 <= i < |out| ::
           out[i].ref == other[i].ref && out[i].routes == other[i].routes && out[i].reason == other[i].reason
  {
    if cs != [] {
      var n := |cs| - 1;
      ReadinessDisplacesNone(cs[..n], ds[..n], own);
      ReservedAppend(Admissions(cs[..n], own), Decide(cs[n], MAX_OVERLAY_CANDIDATES - own
                                                             - Reserved(Admissions(cs[..n], own))));
      ReservedAppend(Admissions(ds[..n], own), Decide(ds[n], MAX_OVERLAY_CANDIDATES - own
                                                             - Reserved(Admissions(ds[..n], own))));
    }
  }

  lemma {:induction false} ReservedAppend(out: seq<Admitted>, a: Admitted)
    ensures Reserved(out + [a]) == Reserved(out) + if a.reason.None? then a.routes else 0
  {
    assert (out + [a])[..|out|] == out;
  }

  // A decision looks at older candidates only.
  lemma {:induction false} OlderDecide(cs: seq<Candidate>, own: nat, k: nat)
    requires k <= |cs|
    ensures Admissions(cs[..k], own) <= Admissions(cs, own)
    decreases |cs| - k
  {
    if k < |cs| {
      assert cs[..k + 1][..k] == cs[..k];
      OlderDecide(cs, own, k + 1);
    } else {
      assert cs[..k] == cs;
    }
  }

  // An accepted candidate without a reason against it has one decision, at the
  // place its elders leave it: it is excluded exactly when it does not fit in
  // what they left of 1024, and otherwise is ready once it owns its copies. Any
  // other candidate has none.
  lemma {:induction false} ExcludedIffFull(cs: seq<Candidate>, own: nat, i: nat)
    requires i < |cs|
    ensures var older, next, out := Admissions(cs[..i], own), Admissions(cs[..i + 1], own), Admissions(cs, own);
      if cs[i].reason == None && cs[i].accepted then
        && |next| == |older| + 1 <= |out|
        && out[|older|].ref == cs[i].ref && out[|older|].routes == cs[i].routes
        && (own + Reserved(older) + cs[i].routes > 1024 ==>
              out[|older|].reason == Some(OverlayCapacityExceeded) && !out[|older|].ready)
        && (own + Reserved(older) + cs[i].routes <= 1024 ==>
              out[|older|].reason == None && out[|older|].ready == cs[i].copiesOwned)
      else next == older
  {
    assert cs[..i + 1][..i] == cs[..i];
    OlderDecide(cs, own, i + 1);
  }
}
