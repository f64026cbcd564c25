// What the staging loops return is the protocol's staging step.
module StagingStep {
  import opened Overlays
  import opened Routes
  import opened StableIds
  import opened Staging
  import WithdrawalProtocol
  import opened Wrappers

  type State = WithdrawalProtocol.State
  type Reading = WithdrawalProtocol.Reading

  function Candidates(routes: seq<Route>): set<Source> {
    set r | r in routes :: TargetOf(r)
  }

  // Routes under their own identities.
  ghost predicate AllNative(sha: string -> string, namespace: string, routes: seq<Route>) {
    forall r :: r in routes ==>
      r.namespace == namespace && Printable(TargetOf(r)) && RouteStableId(r) == Print(sha, TargetOf(r))
  }

  // A route carries the printed identity it is named by.
  predicate Spelled(sha: string -> string, r: Route) {
    RouteStableId(r) == Print(sha, IdOf(r))
  }

  // The rule an applied identity was read from.
  function KeyBound(w: World, id: StableId): Bound
    requires id in w.applied
  {
    var r := w.applied[id];
    Bound(if id == CandidateStableId(r.model, r.provider) then Local(r.model, r.provider) else TargetOf(r), TargetOf(r))
  }

  function ReadBounds(w: World): set<Bound> {
    set id | id in w.applied :: KeyBound(w, id)
  }

  // Applied rules as they are read back; see AppliedRoutes.
  ghost predicate ReadBack(w: World) {
    forall id :: id in w.applied ==>
      var r := w.applied[id];
      && r.namespace == w.namespace && Printable(TargetOf(r))
      && RouteStableId(r) == CandidateStableId(r.model, r.provider)
      && id == Print(w.sha, KeyBound(w, id).id) && !Hashed(KeyBound(w, id).id)
  }

  // The published candidates of the tenant, printed; local ones name the
  // Service of their local provider.
  ghost predicate Publishes(w: World, own: set<Source>) {
    && (forall c :: c in own ==> Printable(c))
    && (forall c :: c in own && c.Scoped? ==> c.modelNamespace == w.namespace && c.providerNamespace != w.namespace)
    && OwnIds(w) == (set c | c in own && !Hashed(c) :: Print(w.sha, c))
    && forall j, c :: 0 <= j < |w.previous| && c in own && c.Local? && w.previous[j].stableId == Print(w.sha, c) ==>
         w.previous[j].cluster == PROVIDER_SERVICE_PREFIX + c.provider
  }

  ghost predicate Sees(s: State, w: World) {
    && w.Valid() && HexDigest(w.sha) && DistinctPublished(w) && ReadBack(w)
    && Publishes(w, WithdrawalProtocol.OwnOf(s.published))
  }

  // The reading of a world: what was read back, and which published candidates
  // are gone.
  ghost predicate Reads(s: State, w: World, reading: Reading) {
    && reading.read == ReadBounds(w)
    && forall c :: c in WithdrawalProtocol.OwnOf(s.published) && !Hashed(c) && Print(w.sha, c) !in w.applied ==>
         (c in reading.gone <==> GoneCandidate(w, Print(w.sha, c)))
  }

  lemma {:induction false} LocalPrintable(c: Source)
    requires Printable(c)
    ensures Printable(LocalForm(c))
  {
  }

  lemma {:induction false} KeyIsPrintable(w: World, id: StableId)
    requires ReadBack(w) && id in w.applied
    ensures Printable(KeyBound(w, id).id)
  {
    LocalPrintable(TargetOf(w.applied[id]));
  }

  // A route is named by whatever candidate its identity prints.
  lemma {:induction false} NamedBy(sha: string -> string, r: Route, c: Source)
    requires HexDigest(sha) && Printable(c) && RouteStableId(r) == Print(sha, c)
    requires c == LocalForm(TargetOf(r)) || c == TargetOf(r)
    ensures IdOf(r) == c
  {
    PrintedForm(sha, c);
    LocalFormHasOneSlash(r.model, r.provider);
  }

  lemma {:induction false} NativeBounds(sha: string -> string, namespace: string, routes: seq<Route>)
    requires HexDigest(sha) && AllNative(sha, namespace, routes)
    ensures Bounds(routes) == Native(Candidates(routes))
    ensures forall r :: r in routes ==> Spelled(sha, r)
  {
    forall r | r in routes ensures BoundOf(r) == Bound(TargetOf(r), TargetOf(r)) {
      NamedBy(sha, r, TargetOf(r));
    }
    forall c | c in Candidates(routes) ensures Bound(c, c) in Bounds(routes) {
      var r :| r in routes && TargetOf(r) == c;
      assert BoundOf(r) in Bounds(routes);
    }
  }

  // The spellings of the desired routes are the identities they go by.
  lemma {:induction false} CurrentTells(sha: string -> string, namespace: string, desired: seq<Route>, c: Source)
    requires HexDigest(sha) && AllNative(sha, namespace, desired) && Printable(c)
    ensures Print(sha, c) in CurrentIds(sha, desired) <==> c in WithdrawalProtocol.Current(Candidates(desired))
  {
    var id := Print(sha, c);
    if id in CurrentIds(sha, desired) {
      var i :| 0 <= i < |desired| && id in DesiredIds(sha, desired[i]);
      var d := TargetOf(desired[i]);
      assert desired[i] in desired && d in Candidates(desired);
      LocalPrintable(d);
      assert DesiredIds(sha, desired[i]) == {Print(sha, d), Print(sha, LocalForm(d))};
      PrintInjective(sha, c, if id == Print(sha, d) then d else LocalForm(d));
    }
    if c in WithdrawalProtocol.Current(Candidates(desired)) {
      var d :| d in Candidates(desired) && (c == d || c == LocalForm(d));
      var r :| r in desired && TargetOf(r) == d;
      var i :| 0 <= i < |desired| && desired[i] == r;
      assert id in DesiredIds(sha, desired[i]);
    }
  }

  lemma {:induction false} OwnTells(w: World, own: set<Source>, c: Source)
    requires HexDigest(w.sha) && Publishes(w, own) && Printable(c) && !Hashed(c)
    ensures Print(w.sha, c) in OwnIds(w) <==> c in own
  {
    if Print(w.sha, c) in OwnIds(w) {
      var d :| d in own && !Hashed(d) && Print(w.sha, d) == Print(w.sha, c);
      PrintInjective(w.sha, c, d);
    }
  }

  // An applied key's route is its rule, relabelled unless it is published.
  lemma {:induction false} AppliedKey(s: State, w: World, id: StableId, route: Route)
    requires Sees(s, w) && id in w.applied && AppliedOutcome(w, id) == Found(route)
    requires forall j :: 0 <= j < |w.previous| && IsModel(w.previous[j]) ==> w.previous[j].stableId != ""
    ensures BoundOf(route) == WithdrawalProtocol.Relabelled(s, KeyBound(w, id)) && Spelled(w.sha, route)
    ensures route.namespace == w.namespace
  {
    var x, r := KeyBound(w, id), w.applied[id];
    KeyIsPrintable(w, id);
    OwnTells(w, WithdrawalProtocol.OwnOf(s.published), x.id);
    PriorIsPublished(w, id);
    AppliedFound(w, id, route);
    if PriorCandidate(w.previous, id).Some? {
      NamedAs(w.sha, route, x.id, id);
    } else {
      NamedLocally(w.sha, route, x);
    }
  }

  lemma {:induction false} NamedAs(sha: string -> string, route: Route, c: Source, id: StableId)
    requires HexDigest(sha) && Printable(c) && id == Print(sha, c) && route.stableId == id
    requires c == LocalForm(TargetOf(route)) || c == TargetOf(route)
    ensures IdOf(route) == c && Spelled(sha, route)
  {
    PrintedForm(sha, c);
    assert id != "";
    NamedBy(sha, route, c);
  }

  lemma {:induction false} NamedLocally(sha: string -> string, route: Route, x: Bound)
    requires RouteStableId(route) == CandidateStableId(route.model, route.provider)
    requires x.target == TargetOf(route) && (x.id == x.target || x.id == LocalForm(x.target))
    ensures IdOf(route) == LocalForm(x.id) && Spelled(sha, route)
  {
  }

  // A published key's route is the candidate's own rule again.
  lemma {:induction false} PublishedKey(s: State, w: World, id: StableId, route: Route) returns (c: Source)
    requires Sees(s, w) && id !in w.applied && StandsFor(w, id, route)
    ensures c in WithdrawalProtocol.OwnOf(s.published) && !Hashed(c) && Print(w.sha, c) == id
    ensures BoundOf(route) == Bound(c, c) && Spelled(w.sha, route) && route.namespace == w.namespace
  {
    var j :| 0 <= j < |w.previous| && w.previous[j].stableId == id && TenantOwned(w, w.previous[j])
      && PublishedOutcome(w, w.previous[j]) == Found(route);
    assert id in OwnIds(w);
    c :| c in WithdrawalProtocol.OwnOf(s.published) && !Hashed(c) && Print(w.sha, c) == id;
    PrintedSplits(w.sha, w.namespace, c);
    PublishedFound(w, w.previous[j], SplitTenant(id, w.namespace).value, route);
    NamedAs(w.sha, route, c, id);
  }

  lemma {:induction false} PrintedSplits(sha: string -> string, namespace: string, c: Source)
    requires HexDigest(sha) && Printable(c) && !Hashed(c) && (c.Scoped? ==> c.modelNamespace == namespace)
    ensures SplitTenant(Print(sha, c), namespace) ==
      Some(Identity(c.model, if c.Local? then "" else c.providerNamespace, c.provider))
  {
    match c
    case Local(model, provider) => LocalFormSplits(model, provider);
    case Scoped(mns, model, pns, provider) => ScopedFormSplits(sha, mns, model, pns, provider, namespace);
  }

  // The rule of an appended route.
  lemma {:induction false} KeyRule(s: State, w: World, desired: seq<Route>, keys: seq<StableId>, staged: Staged,
                                   reading: Reading, k: nat)
    requires Sees(s, w) && Reads(s, w, reading) && AllNative(w.sha, w.namespace, desired)
    requires StagesExactly(w, desired, keys, staged) && k < |keys|
    ensures BoundOf(staged.routes[|desired| + k]) in
      WithdrawalProtocol.Kept(s, Candidates(desired), reading)
      + Native(WithdrawalProtocol.Restaged(s, Candidates(desired), reading))
    ensures Spelled(w.sha, staged.routes[|desired| + k]) && staged.routes[|desired| + k].namespace == w.namespace
  {
    var id, route := keys[k], staged.routes[|desired| + k];
    assert StandsFor(w, id, route);
    if id in w.applied {
      AppliedKey(s, w, id, route);
      KeyIsPrintable(w, id);
      CurrentTells(w.sha, w.namespace, desired, KeyBound(w, id).id);
      assert KeyBound(w, id) in reading.read;
    } else {
      var c := PublishedKey(s, w, id, route);
      StagedIdentities(w, desired, keys, staged);
      CurrentTells(w.sha, w.namespace, desired, c);
      UnreadId(w, reading, c);
      assert c in WithdrawalProtocol.Restaged(s, Candidates(desired), reading);
    }
  }

  lemma {:induction false} UnreadId(w: World, reading: Reading, c: Source)
    requires HexDigest(w.sha) && ReadBack(w) && reading.read == ReadBounds(w) && Printable(c)
    ensures Print(w.sha, c) in w.applied <==> c in Ids(reading.read)
  {
    var id := Print(w.sha, c);
    if id in w.applied {
      KeyIsPrintable(w, id);
      PrintInjective(w.sha, c, KeyBound(w, id).id);
      assert KeyBound(w, id) in reading.read;
    }
  }

  // Each kept rule is appended.
  lemma {:induction false} KeptKey(s: State, w: World, desired: seq<Route>, keys: seq<StableId>, staged: Staged,
                                   reading: Reading, y: Bound) returns (k: nat)
    requires Sees(s, w) && Reads(s, w, reading) && AllNative(w.sha, w.namespace, desired)
    requires StagesExactly(w, desired, keys, staged) && y in WithdrawalProtocol.Kept(s, Candidates(desired), reading)
    ensures k < |keys| && |desired| + k < |staged.routes| && BoundOf(staged.routes[|desired| + k]) == y
  {
    var x :| x in reading.read && x.id !in WithdrawalProtocol.Current(Candidates(desired))
      && y == WithdrawalProtocol.Relabelled(s, x);
    var id :| id in w.applied && KeyBound(w, id) == x;
    KeyIsPrintable(w, id);
    CurrentTells(w.sha, w.namespace, desired, x.id);
    StagedIdentities(w, desired, keys, staged);
    assert Appends(w, desired, id);
    k :| 0 <= k < |keys| && keys[k] == id;
    assert StandsFor(w, keys[k], staged.routes[|desired| + k]);
    AppliedKey(s, w, id, staged.routes[|desired| + k]);
  }

  lemma {:induction false} RestagedKey(s: State, w: World, desired: seq<Route>, keys: seq<StableId>, staged: Staged,
                                       reading: Reading, c: Source) returns (k: nat)
    requires Sees(s, w) && Reads(s, w, reading) && AllNative(w.sha, w.namespace, desired)
    requires StagesExactly(w, desired, keys, staged)
    requires c in WithdrawalProtocol.Restaged(s, Candidates(desired), reading)
    ensures k < |keys| && |desired| + k < |staged.routes| && BoundOf(staged.routes[|desired| + k]) == Bound(c, c)
  {
    var id := Print(w.sha, c);
    UnreadId(w, reading, c);
    CurrentTells(w.sha, w.namespace, desired, c);
    OwnTells(w, WithdrawalProtocol.OwnOf(s.published), c);
    StagedIdentities(w, desired, keys, staged);
    assert Appends(w, desired, id);
    k :| 0 <= k < |keys| && keys[k] == id;
    assert StandsFor(w, keys[k], staged.routes[|desired| + k]);
    var d := PublishedKey(s, w, id, staged.routes[|desired| + k]);
    PrintInjective(w.sha, c, d);
  }

  // The rules of the routes that the staging loops return.
  lemma {:induction false} UnionIsStaged(s: State, w: World, desired: seq<Route>, keys: seq<StableId>, staged: Staged,
                                         reading: Reading)
    requires Sees(s, w) && Reads(s, w, reading) && AllNative(w.sha, w.namespace, desired)
    requires StagesExactly(w, desired, keys, staged)
    ensures Bounds(staged.routes) == WithdrawalProtocol.Union(s, Candidates(desired), reading)
    ensures forall r :: r in staged.routes ==> Spelled(w.sha, r) && r.namespace == w.namespace
  {
    var union := WithdrawalProtocol.Union(s, Candidates(desired), reading);
    NativeBounds(w.sha, w.namespace, desired);
    forall i: nat | i < |staged.routes|
      ensures BoundOf(staged.routes[i]) in union && Spelled(w.sha, staged.routes[i])
      ensures staged.routes[i].namespace == w.namespace
    {
      RouteIsStaged(s, w, desired, keys, staged, reading, i);
    }
    forall y | y in union ensures y in Bounds(staged.routes) {
      RuleIsStaged(s, w, desired, keys, staged, reading, y);
      var i :| 0 <= i < |staged.routes| && BoundOf(staged.routes[i]) == y;
      assert staged.routes[i] in staged.routes;
    }
  }

  // What the staging loops return is the protocol's staged list.
  lemma {:induction false} StagingIsStage(s: State, w: World, desired: seq<Route>, keys: seq<StableId>, staged: Staged,
                                          reading: Reading)
    requires Sees(s, w) && Reads(s, w, reading) && AllNative(w.sha, w.namespace, desired)
    requires StagesExactly(w, desired, keys, staged)
    ensures WithdrawalProtocol.Next(s, WithdrawalProtocol.Stage(Candidates(desired), reading)).phase ==
      WithdrawalProtocol.Staged(Candidates(desired), Bounds(staged.routes), staged.pending)
  {
    UnionIsStaged(s, w, desired, keys, staged, reading);
    StagingPends(s, w, desired, keys, staged, reading);
  }

  lemma {:induction false} RouteIsStaged(s: State, w: World, desired: seq<Route>, keys: seq<StableId>, staged: Staged,
                                         reading: Reading, i: nat)
    requires Sees(s, w) && Reads(s, w, reading) && AllNative(w.sha, w.namespace, desired)
    requires StagesExactly(w, desired, keys, staged) && i < |staged.routes|
    requires Bounds(desired) == Native(Candidates(desired)) && forall r :: r in desired ==> Spelled(w.sha, r)
    ensures BoundOf(staged.routes[i]) in WithdrawalProtocol.Union(s, Candidates(desired), reading)
    ensures Spelled(w.sha, staged.routes[i]) && staged.routes[i].namespace == w.namespace
  {
    if i < |desired| {
      assert staged.routes[i] == desired[i] && BoundOf(desired[i]) in Bounds(desired);
    } else {
      KeyRule(s, w, desired, keys, staged, reading, i - |desired|);
    }
  }

  lemma {:induction false} UnionCases(s: State, candidates: set<Source>, reading: Reading, y: Bound)
    requires y in WithdrawalProtocol.Union(s, candidates, reading)
    ensures y in Native(candidates) || y in WithdrawalProtocol.Kept(s, candidates, reading)
      || (y.id == y.target && y.target in WithdrawalProtocol.Restaged(s, candidates, reading))
  {
  }

  lemma {:induction false} DesiredRule(desired: seq<Route>, routes: seq<Route>, y: Bound) returns (i: nat)
    requires desired <= routes && y in Bounds(desired)
    ensures i < |routes| && BoundOf(routes[i]) == y
  {
    i :| 0 <= i < |desired| && BoundOf(desired[i]) == y;
    assert routes[i] == routes[..|desired|][i];
  }

  // A rule of the protocol's staged list, by which of its three parts it is in.
  ghost predicate IsStaged(staged: Staged, y: Bound) {
    exists i :: 0 <= i < |staged.routes| && BoundOf(staged.routes[i]) == y
  }

  lemma {:induction false} KeptIsStaged(s: State, w: World, desired: seq<Route>, keys: seq<StableId>, staged: Staged,
                                        reading: Reading, y: Bound)
    requires Sees(s, w) && Reads(s, w, reading) && AllNative(w.sha, w.namespace, desired)
    requires StagesExactly(w, desired, keys, staged) && y in WithdrawalProtocol.Kept(s, Candidates(desired), reading)
    ensures IsStaged(staged, y)
  {
    var k := KeptKey(s, w, desired, keys, staged, reading, y);
  }

  lemma {:induction false} RestagedIsStaged(s: State, w: World, desired: seq<Route>, keys: seq<StableId>,
                                            staged: Staged, reading: Reading, c: Source)
    requires Sees(s, w) && Reads(s, w, reading) && AllNative(w.sha, w.namespace, desired)
    requires StagesExactly(w, desired, keys, staged)
    requires c in WithdrawalProtocol.Restaged(s, Candidates(desired), reading)
    ensures IsStaged(staged, Bound(c, c))
  {
    var k := RestagedKey(s, w, desired, keys, staged, reading, c);
  }

  lemma {:induction false} DesiredIsStaged(desired: seq<Route>, staged: Staged, y: Bound)
    requires desired <= staged.routes && y in Bounds(desired)
    ensures IsStaged(staged, y)
  {
    var i := DesiredRule(desired, staged.routes, y);
  }

  lemma {:induction false} RuleIsStaged(s: State, w: World, desired: seq<Route>, keys: seq<StableId>, staged: Staged,
                                        reading: Reading, y: Bound)
    requires Sees(s, w) && Reads(s, w, reading) && AllNative(w.sha, w.namespace, desired)
    requires StagesExactly(w, desired, keys, staged)
    requires Bounds(desired) == Native(Candidates(desired))
    requires y in WithdrawalProtocol.Union(s, Candidates(desired), reading)
    ensures IsStaged(staged, y)
  {
    UnionCases(s, Candidates(desired), reading, y);
    if y in Native(Candidates(desired)) {
      DesiredIsStaged(desired, staged, y);
    } else if y in WithdrawalProtocol.Kept(s, Candidates(desired), reading) {
      KeptIsStaged(s, w, desired, keys, staged, reading, y);
    } else {
      RestagedIsStaged(s, w, desired, keys, staged, reading, y.target);
    }
  }

  lemma {:induction false} StagingPends(s: State, w: World, desired: seq<Route>, keys: seq<StableId>, staged: Staged,
                                        reading: Reading)
    requires Sees(s, w) && Reads(s, w, reading) && AllNative(w.sha, w.namespace, desired)
    requires StagesExactly(w, desired, keys, staged)
    ensures staged.pending <==> WithdrawalProtocol.Pending(s, Candidates(desired), reading)
  {
    var candidates := Candidates(desired);
    if staged.pending {
      KeyRule(s, w, desired, keys, staged, reading, 0);
    }
    if y :| y in WithdrawalProtocol.Kept(s, candidates, reading) {
      var k := KeptKey(s, w, desired, keys, staged, reading, y);
    }
    if c :| c in WithdrawalProtocol.Restaged(s, candidates, reading) {
      var k := RestagedKey(s, w, desired, keys, staged, reading, c);
    }
  }
}
