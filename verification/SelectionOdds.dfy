// What the published selection metadata makes the picker do. The picker's
// documented contract: mode random draws uniformly inside a selection group,
// mode weightedRandom draws in proportion to the traffic weights.
module SelectionOdds {
  import opened Envelopes
  import opened Routes
  import opened Selection
  import opened Wrappers

  predicate Contends(c: Candidate, name: string) {
    c.kind == INFERENCE_MODEL && c.name == name
  }

  function PickWeight(mode: Option<Mode>, c: Candidate): nat {
    if mode == Some(WeightedRandom) && c.trafficWeight.Some? then c.trafficWeight.value else 1
  }

  function PickTotal(mode: Option<Mode>, cs: seq<Candidate>, name: string): nat {
    if cs == [] then 0
    else
      var last := cs[|cs| - 1];
      PickTotal(mode, cs[..|cs| - 1], name) + if Contends(last, name) then PickWeight(mode, last) else 0
  }

  function WeightTotal(rs: seq<Route>): int {
    if rs == [] then 0 else WeightTotal(rs[..|rs| - 1]) + rs[|rs| - 1].weight
  }

  predicate NotPreserved(opts: Options, name: string) {
    forall c | c in opts.preserved :: !Contends(c, name)
  }

  // Traffic weights appear on all candidates or on none, by the mode, and
  // nothing is grouped without a picker policy.
  lemma {:induction false} MetadataFitsMode(bs: seq<Binding>, scope: Scope, opts: Options)
    ensures var o := OverlayOf(bs, scope, opts);
      && (o.policy == Some(WeightedRandom) ==>
            forall c | c in o.candidates :: c.trafficWeight.Some? && c.selectionGroup.Some?)
      && (o.policy != Some(WeightedRandom) ==> forall c | c in o.candidates :: c.trafficWeight.None?)
      && (o.policy.None? ==> forall c | c in o.candidates :: c.selectionGroup.None?)
  {
    var o := OverlayOf(bs, scope, opts);
    var drafts := opts.preserved + CandidatesFor(MetadataOf(bs), scope, opts, bs);
    forall c | c in o.candidates
      ensures o.policy == Some(WeightedRandom) ==> c.trafficWeight.Some? && c.selectionGroup.Some?
      ensures o.policy != Some(WeightedRandom) ==> c.trafficWeight.None?
      ensures o.policy.None? ==> c.selectionGroup.None?
    {
      var i :| 0 <= i < |o.candidates| && o.candidates[i] == c;
      assert c == Finished(o.policy, opts, drafts[i]);
      if i < |opts.preserved| {
        assert drafts[i] == opts.preserved[i] && drafts[i] in opts.preserved;
      } else {
        assert drafts[i] == CandidateFor(MetadataOf(bs), scope, opts, bs[i - |opts.preserved|]);
      }
    }
  }

  // With profiles switched off no candidate carries one, not even a preserved
  // candidate that was published with them on.
  lemma {:induction false} FlagOffHasNoProfiles(bs: seq<Binding>, scope: Scope, opts: Options)
    requires !opts.includeProviderProfiles
    ensures forall c | c in OverlayOf(bs, scope, opts).candidates ::
      c.apiFormat == "" && c.path == "" && c.targetModel == ""
  {
    var o := OverlayOf(bs, scope, opts);
    var drafts := opts.preserved + CandidatesFor(MetadataOf(bs), scope, opts, bs);
    forall c | c in o.candidates ensures c.apiFormat == "" && c.path == "" && c.targetModel == "" {
      var i :| 0 <= i < |o.candidates| && o.candidates[i] == c;
      assert c == Finished(o.policy, opts, drafts[i]);
    }
  }

  lemma {:induction false} EachIsFine(bs: seq<Binding>, opts: Options, i: nat)
    requires i < |bs| && FirstProblem(bs, opts).None?
    ensures RouteProblem(bs[i].route, opts).None?
  {
    if i > 0 { EachIsFine(bs[1..], opts, i - 1); }
  }

  // A published candidate names the Secret of its route exactly when the
  // route authenticates.
  lemma {:induction false} CredentialIffAuthenticated(bs: seq<Binding>, scope: Scope, opts: Options, i: nat)
    requires i < |bs| && FirstProblem(bs, opts).None?
    ensures |Appended(bs, scope, opts)| == |bs|
    ensures var c, r := Appended(bs, scope, opts)[i].credential, bs[i].route;
      && (c.Some? <==> r.authType != "")
      && (c.Some? ==> c.value.secretRef == SecretRef(r.secretName, SecretRefNamespace(r), r.secretKey))
  {
    EachIsFine(bs, opts, i);
    CredentialOfFine(bs[i].route, opts);
    AppendedAt(bs, scope, opts, i);
  }

  lemma {:induction false} CredentialOfFine(r: Route, opts: Options)
    requires RouteProblem(r, opts).None?
    ensures CredentialOf(r).Some? <==> r.authType != ""
    ensures CredentialOf(r).Some? ==>
      CredentialOf(r).value.secretRef == SecretRef(r.secretName, SecretRefNamespace(r), r.secretKey)
  {
  }

  lemma {:induction false} GroupedKey(whole: seq<Binding>, bs: seq<Binding>, b: Binding)
    requires b in bs && Grouped(whole, b)
    ensures KeyOf(b) in GroupMap(whole, bs)
  {
    var last := bs[|bs| - 1];
    if b != last {
      assert bs == bs[..|bs| - 1] + [last];
      GroupedKey(whole, bs[..|bs| - 1], b);
    }
  }

  lemma {:induction false} GroupsAreZero(whole: seq<Binding>, bs: seq<Binding>)
    ensures forall k | k in GroupMap(whole, bs) :: GroupMap(whole, bs)[k] == 0
  {
    if bs != [] { GroupsAreZero(whole, bs[..|bs| - 1]); }
  }

  // All routes behind a shared name contend in one group.
  lemma {:induction false} OneGroupPerName(bs: seq<Binding>, scope: Scope, opts: Options, i: nat)
    requires i < |bs| && |Named(bs, bs[i].route.clientName)| > 1
    ensures OverlayOf(bs, scope, opts).candidates[|opts.preserved| + i].selectionGroup == Some(0)
    ensures OverlayOf(bs, scope, opts).policy.Some?
  {
    assert bs[i] in bs && Grouped(bs, bs[i]) && HasShared(bs);
    GroupedKey(bs, bs, bs[i]);
    GroupsAreZero(bs, bs);
    AppendedAt(bs, scope, opts, i);
    assert OverlayOf(bs, scope, opts).candidates[|opts.preserved| + i] == Appended(bs, scope, opts)[i];
  }

  lemma {:induction false} PickTotalAppend(mode: Option<Mode>, a: seq<Candidate>, b: seq<Candidate>, name: string)
    ensures PickTotal(mode, a + b, name) == PickTotal(mode, a, name) + PickTotal(mode, b, name)
  {
    if b == [] {
      assert a + b == a;
    } else {
      assert (a + b)[..|a + b| - 1] == a + b[..|b| - 1];
      PickTotalAppend(mode, a, b[..|b| - 1], name);
    }
  }

  lemma {:induction false} NoContender(mode: Option<Mode>, cs: seq<Candidate>, name: string)
    requires forall c | c in cs :: !Contends(c, name)
    ensures PickTotal(mode, cs, name) == 0
  {
    if cs != [] { NoContender(mode, cs[..|cs| - 1], name); }
  }

  // The weight a route is drawn with, in an overlay whose routes are unequal
  // or not.
  function Draw(unequal: bool, b: Binding): int {
    if unequal then b.route.weight else 1
  }

  function DrawTotal(unequal: bool, bs: seq<Binding>, name: string): int {
    if bs == [] then 0
    else
      var last := bs[|bs| - 1];
      DrawTotal(unequal, bs[..|bs| - 1], name) + if last.route.clientName == name then Draw(unequal, last) else 0
  }

  predicate WeightInRange(b: Binding) {
    1 <= b.route.weight <= MAX_TRAFFIC_WEIGHT
  }

  predicate NameInRange(bs: seq<Binding>, name: string) {
    forall b | b in bs && b.route.clientName == name :: WeightInRange(b)
  }

  // The candidate stands for the route and is drawn with its draw weight.
  predicate DrawnAt(mode: Option<Mode>, c: Candidate, unequal: bool, b: Binding) {
    && c.kind == INFERENCE_MODEL && c.name == b.route.clientName
    && (WeightInRange(b) ==> PickWeight(mode, c) == Draw(unequal, b))
  }

  predicate DrawnAs(mode: Option<Mode>, cs: seq<Candidate>, unequal: bool, bs: seq<Binding>) {
    |cs| == |bs| && forall j | 0 <= j < |bs| :: DrawnAt(mode, cs[j], unequal, bs[j])
  }

  // The candidates Render appends for the routes, as published.
  function Appended(bs: seq<Binding>, scope: Scope, opts: Options): (r: seq<Candidate>) {
    OverlayOf(bs, scope, opts).candidates[|opts.preserved|..]
  }

  lemma {:induction false} AppendedAt(bs: seq<Binding>, scope: Scope, opts: Options, j: nat)
    requires j < |bs|
    ensures |Appended(bs, scope, opts)| == |bs|
    ensures Appended(bs, scope, opts)[j]
         == Finished(FinalMode(bs, opts), opts, CandidateFor(MetadataOf(bs), scope, opts, bs[j]))
  {
    var drafts := opts.preserved + CandidatesFor(MetadataOf(bs), scope, opts, bs);
    assert drafts[|opts.preserved| + j] == CandidateFor(MetadataOf(bs), scope, opts, bs[j]);
  }

  lemma {:induction false} DrawOf(bs: seq<Binding>, scope: Scope, opts: Options, j: nat)
    requires j < |bs| && DistinctKeys(bs)
    ensures |Appended(bs, scope, opts)| == |bs|
    ensures DrawnAt(FinalMode(bs, opts), Appended(bs, scope, opts)[j], HasUnequal(bs), bs[j])
  {
    AppendedAt(bs, scope, opts, j);
    var draft := CandidateFor(MetadataOf(bs), scope, opts, bs[j]);
    if HasUnequal(bs) {
      WeightOfEach(bs, j);
      assert draft.trafficWeight == Some(TrafficWeightFor(bs[j].route.weight));
    } else {
      assert draft.trafficWeight == None;
    }
  }

  lemma {:induction false} DrawTotalOf(unequal: bool, bs: seq<Binding>, name: string)
    ensures DrawTotal(unequal, bs, name) == if unequal then WeightTotal(Named(bs, name)) else |Named(bs, name)|
  {
    if bs != [] {
      DrawTotalOf(unequal, bs[..|bs| - 1], name);
      var last := bs[|bs| - 1];
      var before := Named(bs[..|bs| - 1], name);
      if last.route.clientName == name {
        assert (before + [last.route])[..|before|] == before;
      } else {
        assert before + [] == before;
      }
    }
  }

  lemma {:induction false} PickTotalOf(mode: Option<Mode>, cs: seq<Candidate>, unequal: bool, bs: seq<Binding>,
                                       name: string)
    requires DrawnAs(mode, cs, unequal, bs) && NameInRange(bs, name)
    ensures PickTotal(mode, cs, name) == DrawTotal(unequal, bs, name)
  {
    if bs != [] {
      var n := |bs| - 1;
      PickTotalOf(mode, cs[..n], unequal, bs[..n], name);
      assert bs[n] in bs && DrawnAt(mode, cs[n], unequal, bs[n]);
    }
  }

  lemma {:induction false} EqualWeightTotal(rs: seq<Route>, w: int)
    requires forall r | r in rs :: r.weight == w
    ensures WeightTotal(rs) == |rs| * w
  {
    if rs != [] { EqualWeightTotal(rs[..|rs| - 1], w); }
  }

  lemma {:induction false} InNamed(bs: seq<Binding>, b: Binding)
    requires b in bs
    ensures b.route in Named(bs, b.route.clientName)
  {
    if b != bs[|bs| - 1] {
      assert bs == bs[..|bs| - 1] + [bs[|bs| - 1]];
      InNamed(bs[..|bs| - 1], b);
    }
  }

  // Candidate i is drawn with probability weight(i) / total weight of its
  // name; the two fractions are compared by cross multiplication.
  lemma {:induction false} OddsAreWeights(bs: seq<Binding>, scope: Scope, opts: Options, i: nat)
    requires i < |bs| && DistinctKeys(bs)
    requires NotPreserved(opts, bs[i].route.clientName) && NameInRange(bs, bs[i].route.clientName)
    ensures |Appended(bs, scope, opts)| == |bs|
    ensures var o := OverlayOf(bs, scope, opts);
      var name := bs[i].route.clientName;
      && PickWeight(o.policy, Appended(bs, scope, opts)[i]) * WeightTotal(Named(bs, name))
         == bs[i].route.weight * PickTotal(o.policy, o.candidates, name)
      && PickTotal(o.policy, o.candidates, name) > 0
  {
    var name := bs[i].route.clientName;
    AllDrawn(bs, scope, opts);
    OnlyAppendedCount(bs, scope, opts, name);
    assert !HasUnequal(bs) ==> EqualWeights(Named(bs, name)) by { assert bs[i] in bs; }
    OddsOf(FinalMode(bs, opts), Appended(bs, scope, opts), HasUnequal(bs), bs, i);
  }

  lemma {:induction false} AllDrawn(bs: seq<Binding>, scope: Scope, opts: Options)
    requires DistinctKeys(bs)
    ensures DrawnAs(FinalMode(bs, opts), Appended(bs, scope, opts), HasUnequal(bs), bs)
  {
    var mode, cs, unequal := FinalMode(bs, opts), Appended(bs, scope, opts), HasUnequal(bs);
    assert |cs| == |bs|;
    forall j | 0 <= j < |bs| ensures DrawnAt(mode, cs[j], unequal, bs[j]) {
      DrawOf(bs, scope, opts, j);
    }
  }

  lemma {:induction false} OnlyAppendedCount(bs: seq<Binding>, scope: Scope, opts: Options, name: string)
    requires NotPreserved(opts, name)
    ensures PickTotal(FinalMode(bs, opts), OverlayOf(bs, scope, opts).candidates, name)
         == PickTotal(FinalMode(bs, opts), Appended(bs, scope, opts), name)
  {
    KeptContendNot(bs, scope, opts, name);
    TailTotal(FinalMode(bs, opts), OverlayOf(bs, scope, opts).candidates, |opts.preserved|, name);
  }

  lemma {:induction false} TailTotal(mode: Option<Mode>, cs: seq<Candidate>, n: nat, name: string)
    requires n <= |cs| && forall c | c in cs[..n] :: !Contends(c, name)
    ensures PickTotal(mode, cs, name) == PickTotal(mode, cs[n..], name)
  {
    assert cs == cs[..n] + cs[n..];
    NoContender(mode, cs[..n], name);
    PickTotalAppend(mode, cs[..n], cs[n..], name);
  }

  lemma {:induction false} OddsOf(mode: Option<Mode>, cs: seq<Candidate>, unequal: bool, bs: seq<Binding>, i: nat)
    requires i < |bs| && DrawnAs(mode, cs, unequal, bs) && NameInRange(bs, bs[i].route.clientName)
    requires !unequal ==> EqualWeights(Named(bs, bs[i].route.clientName))
    ensures var name := bs[i].route.clientName;
      && PickWeight(mode, cs[i]) * WeightTotal(Named(bs, name)) == bs[i].route.weight * PickTotal(mode, cs, name)
      && PickTotal(mode, cs, name) > 0
  {
    var name := bs[i].route.clientName;
    PickTotalOf(mode, cs, unequal, bs, name);
    DrawTotalOf(unequal, bs, name);
    InNamed(bs, bs[i]);
    assert bs[i] in bs && DrawnAt(mode, cs[i], unequal, bs[i]);
    if unequal {
      PositiveTotal(bs, name);
    } else {
      EqualWeightTotal(Named(bs, name), bs[i].route.weight);
    }
  }

  lemma {:induction false} KeptContendNot(bs: seq<Binding>, scope: Scope, opts: Options, name: string)
    requires NotPreserved(opts, name)
    ensures forall c | c in OverlayOf(bs, scope, opts).candidates[..|opts.preserved|] :: !Contends(c, name)
  {
    var drafts := opts.preserved + CandidatesFor(MetadataOf(bs), scope, opts, bs);
    var kept := OverlayOf(bs, scope, opts).candidates[..|opts.preserved|];
    forall c | c in kept ensures !Contends(c, name) {
      var j :| 0 <= j < |kept| && kept[j] == c;
      assert drafts[j] == opts.preserved[j] && drafts[j] in opts.preserved;
      assert c == Finished(FinalMode(bs, opts), opts, drafts[j]);
    }
  }

  lemma {:induction false} PositiveTotal(bs: seq<Binding>, name: string)
    requires NameInRange(bs, name)
    ensures WeightTotal(Named(bs, name)) >= |Named(bs, name)|
  {
    if bs != [] {
      PositiveTotal(bs[..|bs| - 1], name);
      var last := bs[|bs| - 1];
      var before := Named(bs[..|bs| - 1], name);
      if last.route.clientName == name {
        assert last in bs && (before + [last.route])[..|before|] == before;
      } else {
        assert before + [] == before;
      }
    }
  }
}
