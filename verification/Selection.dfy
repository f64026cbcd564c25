// How weights of resolved routes become the selection metadata of an overlay:
// one picker mode for the whole overlay, groups, and traffic weights.
module Selection {
  import opened Routes
  import opened Wrappers

  datatype Mode = Random | WeightedRandom

  // A route together with the namespace/name of the model that owns it; a
  // resolved route set is the sequence of these in model and reference order.
  datatype Binding = Binding(modelRef: string, route: Route)

  datatype Key = Key(modelRef: string, model: string, provider: string, cluster: string)

  datatype Capability = Capability(count: nat, firstWeight: int, unequal: bool)

  datatype Metadata = Metadata(policy: Option<Mode>, weighted: bool, groups: map<Key, nat>, weights: map<Key, nat>)

  datatype Conflict = RepeatedProvider

  const NO_METADATA := Metadata(None, false, map[], map[])
  const MAX_TRAFFIC_WEIGHT := 1000

  function KeyOf(b: Binding): Key {
    Key(b.modelRef, b.route.model, b.route.provider, b.route.cluster)
  }

  function TrafficWeightFor(weight: int): nat {
    if weight < 1 then 1 else if weight > MAX_TRAFFIC_WEIGHT then MAX_TRAFFIC_WEIGHT else weight
  }

  // ----- what the derivation means -----

  // The routes behind one client-visible name, in order.
  function Named(bs: seq<Binding>, name: string): (r: seq<Route>)
    ensures |r| <= |bs|
  {
    if bs == [] then []
    else Named(bs[..|bs| - 1], name) + if bs[|bs| - 1].route.clientName == name then [bs[|bs| - 1].route] else []
  }

  predicate EqualWeights(rs: seq<Route>) {
    forall r | r in rs :: r.weight == rs[0].weight
  }

  predicate SameBinding(a: Route, b: Route) {
    a.clientName == b.clientName && a.providerNamespace == b.providerNamespace && a.provider == b.provider
  }

  predicate NoRepeats(bs: seq<Binding>) {
    forall i, j | 0 <= i < j < |bs| :: !SameBinding(bs[i].route, bs[j].route)
  }

  predicate HasUnequal(bs: seq<Binding>) {
    exists b :: b in bs && !EqualWeights(Named(bs, b.route.clientName))
  }

  predicate HasShared(bs: seq<Binding>) {
    exists b :: b in bs && |Named(bs, b.route.clientName)| > 1
  }

  function ModeOf(bs: seq<Binding>): Option<Mode> {
    if HasUnequal(bs) then Some(WeightedRandom) else if HasShared(bs) then Some(Random) else None
  }

  // Every route of a weighted overlay is grouped, otherwise those that share
  // their name.
  predicate Grouped(bs: seq<Binding>, b: Binding) {
    HasUnequal(bs) || |Named(bs, b.route.clientName)| > 1
  }

  // The groups of the first routes bs of the whole set: always group zero.
  function GroupMap(whole: seq<Binding>, bs: seq<Binding>): map<Key, nat> {
    if bs == [] then map[]
    else
      var last := bs[|bs| - 1];
      var rest := GroupMap(whole, bs[..|bs| - 1]);
      if Grouped(whole, last) then rest[KeyOf(last) := 0] else rest
  }

  // The last route of a key decides its weight.
  function WeightMap(bs: seq<Binding>): map<Key, nat> {
    if bs == [] then map[]
    else WeightMap(bs[..|bs| - 1])[KeyOf(bs[|bs| - 1]) := TrafficWeightFor(bs[|bs| - 1].route.weight)]
  }

  function WeightsOf(bs: seq<Binding>): map<Key, nat> {
    if HasUnequal(bs) then WeightMap(bs) else map[]
  }

  function MetadataOf(bs: seq<Binding>): Metadata {
    Metadata(ModeOf(bs), HasUnequal(bs),
             if HasUnequal(bs) || HasShared(bs) then GroupMap(bs, bs) else map[], WeightsOf(bs))
  }

  // ----- the derivation -----

  predicate Summarises(caps: map<string, Capability>, bs: seq<Binding>) {
    && caps.Keys == (set b | b in bs :: b.route.clientName)
    && forall n | n in caps ::
      && var rs := Named(bs, n);
      && rs != []
      && caps[n] == CapabilityOf(rs)
  }

  function CapabilityOf(rs: seq<Route>): Capability
    requires rs != []
  {
    Capability(|rs|, rs[0].weight, !EqualWeights(rs))
  }

  // One more route of a name already seen.
  function Grown(c: Capability, weight: int): Capability {
    c.(count := c.count + 1, unequal := c.unequal || weight != c.firstWeight)
  }

  lemma {:induction false} CapabilityGrows(rs: seq<Route>, r: Route)
    requires rs != []
    ensures CapabilityOf(rs + [r]) == Grown(CapabilityOf(rs), r.weight)
  {
    assert r in rs + [r];
    assert forall x :: x in rs ==> x in rs + [r];
  }

  function BindingTriple(r: Route): (string, string, string) {
    (r.clientName, r.providerNamespace, r.provider)
  }

  lemma {:induction false} NamedAppend(bs: seq<Binding>, b: Binding, name: string)
    ensures Named(bs + [b], name) == Named(bs, name) + if b.route.clientName == name then [b.route] else []
  {
    assert (bs + [b])[..|bs|] == bs;
  }

  lemma {:induction false} NamedNonempty(bs: seq<Binding>, name: string)
    ensures Named(bs, name) != [] <==> exists b :: b in bs && b.route.clientName == name
  {
    if bs != [] {
      NamedNonempty(bs[..|bs| - 1], name);
      assert bs == bs[..|bs| - 1] + [bs[|bs| - 1]];
    }
  }

  lemma {:induction false} SummaryStep(caps: map<string, Capability>, bs: seq<Binding>, b: Binding, c: Capability)
    requires Summarises(caps, bs)
    requires c == if b.route.clientName in caps then Grown(caps[b.route.clientName], b.route.weight)
                  else Capability(1, b.route.weight, false)
    ensures Summarises(caps[b.route.clientName := c], bs + [b])
  {
    var n := b.route.clientName;
    var more := caps[n := c];
    assert forall x :: x in bs + [b] <==> x in bs || x == b;
    forall m | m in more ensures Named(bs + [b], m) != [] && more[m] == CapabilityOf(Named(bs + [b], m)) {
      NamedAppend(bs, b, m);
      if m == n {
        NamedNonempty(bs, n);
        if n in caps { CapabilityGrows(Named(bs, n), b.route); }
      }
    }
  }

  method Count(caps: map<string, Capability>, ghost bs: seq<Binding>,
               b: Binding) returns (more: map<string, Capability>)
    requires Summarises(caps, bs)
    ensures Summarises(more, bs + [b])
  {
    var n := b.route.clientName;
    var c := if n in caps then Grown(caps[n], b.route.weight) else Capability(1, b.route.weight, false);
    SummaryStep(caps, bs, b, c);
    more := caps[n := c];
  }

  // The triples seen, none of them twice.
  predicate Bound(bound: set<(string, string, string)>, bs: seq<Binding>) {
    bound == (set b | b in bs :: BindingTriple(b.route)) && NoRepeats(bs)
  }

  lemma {:induction false} BoundStep(bound: set<(string, string, string)>, bs: seq<Binding>, i: nat)
    requires i < |bs| && Bound(bound, bs[..i])
    ensures BindingTriple(bs[i].route) in bound ==> !NoRepeats(bs)
    ensures BindingTriple(bs[i].route) !in bound ==> Bound(bound + {BindingTriple(bs[i].route)}, bs[..i + 1])
  {
    var triple := BindingTriple(bs[i].route);
    assert bs[..i + 1] == bs[..i] + [bs[i]];
    if triple in bound {
      var b :| b in bs[..i] && BindingTriple(b.route) == triple;
      var j :| 0 <= j < i && bs[..i][j] == b;
      assert SameBinding(bs[j].route, bs[i].route);
    } else {
      forall j | 0 <= j < i ensures !SameBinding(bs[j].route, bs[i].route) {
        assert bs[..i][j] in bs[..i];
      }
    }
  }

  method Capabilities(bs: seq<Binding>) returns (r: Result<map<string, Capability>, Conflict>)
    ensures r.Ok? <==> NoRepeats(bs)
    ensures r.Ok? ==> Summarises(r.value, bs)
  {
    var caps: map<string, Capability> := map[];
    var bound: set<(string, string, string)> := {};
    var i := 0;
    while i < |bs|
      invariant 0 <= i <= |bs|
      invariant Summarises(caps, bs[..i])
      invariant Bound(bound, bs[..i])
    {
      var b := bs[i];
      var triple := BindingTriple(b.route);
      BoundStep(bound, bs, i);
      if triple in bound { return Err(RepeatedProvider); }
      bound := bound + {triple};
      caps := Count(caps, bs[..i], b);
      assert bs[..i + 1] == bs[..i] + [b];
      i := i + 1;
    }
    assert bs[..|bs|] == bs;
    r := Ok(caps);
  }

  predicate AnyUnequal(caps: map<string, Capability>, names: set<string>) {
    exists n :: n in names && n in caps && caps[n].count > 1 && caps[n].unequal
  }

  predicate AnyEqual(caps: map<string, Capability>, names: set<string>) {
    exists n :: n in names && n in caps && caps[n].count > 1 && !caps[n].unequal
  }

  method Needs(caps: map<string, Capability>) returns (weighted: bool, random: bool)
    ensures weighted == AnyUnequal(caps, caps.Keys)
    ensures random == AnyEqual(caps, caps.Keys)
  {
    weighted, random := false, false;
    var left := caps.Keys;
    while left != {}
      invariant left <= caps.Keys
      invariant weighted == AnyUnequal(caps, caps.Keys - left)
      invariant random == AnyEqual(caps, caps.Keys - left)
    {
      var n :| n in left;
      assert caps.Keys - (left - {n}) == (caps.Keys - left) + {n};
      left := left - {n};
      if caps[n].count > 1 {
        if caps[n].unequal { weighted := true; } else { random := true; }
      }
    }
    assert caps.Keys - left == caps.Keys;
  }

  lemma {:induction false} NeedsMean(caps: map<string, Capability>, bs: seq<Binding>)
    requires Summarises(caps, bs)
    ensures AnyUnequal(caps, caps.Keys) == HasUnequal(bs)
    ensures !HasUnequal(bs) ==> AnyEqual(caps, caps.Keys) == HasShared(bs)
  {
    if HasUnequal(bs) {
      var b :| b in bs && !EqualWeights(Named(bs, b.route.clientName));
      var n := b.route.clientName;
      assert n in caps && caps[n] == CapabilityOf(Named(bs, n)) && caps[n].unequal;
      assert caps[n].count > 1;
    }
    if HasShared(bs) {
      var b :| b in bs && |Named(bs, b.route.clientName)| > 1;
      var n := b.route.clientName;
      assert n in caps && caps[n] == CapabilityOf(Named(bs, n));
    }
  }

  method WeighAll(bs: seq<Binding>) returns (groups: map<Key, nat>, weights: map<Key, nat>)
    requires HasUnequal(bs)
    ensures groups == GroupMap(bs, bs) && weights == WeightMap(bs)
  {
    groups, weights := map[], map[];
    var i := 0;
    while i < |bs|
      invariant 0 <= i <= |bs|
      invariant groups == GroupMap(bs, bs[..i]) && weights == WeightMap(bs[..i])
    {
      assert bs[..i + 1][..i] == bs[..i];
      groups := groups[KeyOf(bs[i]) := 0];
      weights := weights[KeyOf(bs[i]) := TrafficWeightFor(bs[i].route.weight)];
      i := i + 1;
    }
    assert bs[..|bs|] == bs;
  }

  method GroupShared(bs: seq<Binding>, caps: map<string, Capability>) returns (groups: map<Key, nat>)
    requires Summarises(caps, bs) && !HasUnequal(bs)
    ensures groups == GroupMap(bs, bs)
  {
    groups := map[];
    var i := 0;
    while i < |bs|
      invariant 0 <= i <= |bs|
      invariant groups == GroupMap(bs, bs[..i])
    {
      assert bs[i] in bs;
      assert bs[..i + 1][..i] == bs[..i];
      if caps[bs[i].route.clientName].count > 1 {
        groups := groups[KeyOf(bs[i]) := 0];
      }
      i := i + 1;
    }
    assert bs[..|bs|] == bs;
  }

  method DeriveSelectionMetadata(bs: seq<Binding>) returns (r: Result<Metadata, Conflict>)
    ensures r.Ok? <==> NoRepeats(bs)
    ensures r.Ok? ==> r.value == MetadataOf(bs)
  {
    var caps :- Capabilities(bs);
    NeedsMean(caps, bs);
    var weighted, random := Needs(caps);
    if weighted {
      var groups, weights := WeighAll(bs);
      return Ok(Metadata(Some(WeightedRandom), true, groups, weights));
    }
    if random {
      var groups := GroupShared(bs, caps);
      return Ok(Metadata(Some(Random), false, groups, map[]));
    }
    r := Ok(NO_METADATA);
  }

  // ----- keys -----

  predicate DistinctKeys(bs: seq<Binding>) {
    forall i, j | 0 <= i < j < |bs| :: KeyOf(bs[i]) != KeyOf(bs[j])
  }

  lemma {:induction false} WeightOfEach(bs: seq<Binding>, i: nat)
    requires i < |bs| && DistinctKeys(bs)
    ensures KeyOf(bs[i]) in WeightMap(bs) && WeightMap(bs)[KeyOf(bs[i])] == TrafficWeightFor(bs[i].route.weight)
  {
    if i < |bs| - 1 {
      WeightOfEach(bs[..|bs| - 1], i);
    }
  }

  // What the resolver promises of its routes: one client name per model, an
  // explicit provider namespace, and the transport Service as the cluster.
  predicate FromResolver(shortHash: string -> string, bs: seq<Binding>) {
    && (forall b | b in bs :: b.route.providerNamespace != "" && b.route.cluster == ServiceName(shortHash, b.route))
    && forall b, c | b in bs && c in bs && b.modelRef == c.modelRef ::
         b.route.clientName == c.route.clientName && b.route.namespace == c.route.namespace
  }

  // Without repeated providers, resolved routes have distinct selection keys,
  // given that the shortened digests of distinct providers differ.
  lemma {:induction false} ResolvedKeysAreDistinct(shortHash: string -> string, bs: seq<Binding>)
    requires FromResolver(shortHash, bs) && NoRepeats(bs)
    requires forall x, y :: shortHash(x) == shortHash(y) ==> x == y
    ensures DistinctKeys(bs)
  {
    forall i, j | 0 <= i < j < |bs| ensures KeyOf(bs[i]) != KeyOf(bs[j]) {
      if KeyOf(bs[i]) == KeyOf(bs[j]) {
        var a, b := bs[i].route, bs[j].route;
        assert bs[i] in bs && bs[j] in bs;
        SameServiceSameProvider(shortHash, a, b);
      }
    }
  }

  lemma {:induction false} SameServiceSameProvider(shortHash: string -> string, a: Route, b: Route)
    requires a.provider == b.provider && a.namespace == b.namespace
    requires a.providerNamespace != "" && b.providerNamespace != ""
    requires ServiceName(shortHash, a) == ServiceName(shortHash, b)
    requires forall x, y :: shortHash(x) == shortHash(y) ==> x == y
    ensures a.providerNamespace == b.providerNamespace
  {
    var stem := PROVIDER_SERVICE_PREFIX + a.provider;
    var ha, hb := shortHash(a.providerNamespace + "/" + a.provider), shortHash(b.providerNamespace + "/" + b.provider);
    if CrossNamespace(a) && CrossNamespace(b) {
      assert (stem + "-" + ha)[|stem| + 1..] == ha && (stem + "-" + hb)[|stem| + 1..] == hb;
      var x, y := a.providerNamespace + "/" + a.provider, b.providerNamespace + "/" + b.provider;
      assert x == y;
      assert x[..|a.providerNamespace|] == a.providerNamespace && |a.providerNamespace| == |b.providerNamespace|;
      assert y[..|b.providerNamespace|] == b.providerNamespace;
    } else if CrossNamespace(a) {
      assert false;
    } else if CrossNamespace(b) {
      assert false;
    }
  }
}
