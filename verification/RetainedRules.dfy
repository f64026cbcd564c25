// Keeping the old provider rules of withdrawn attachment candidates, and
// merging the routes of an attachment.
module RetainedRules {
  import opened Routes
  import opened Overlays
  import opened Wrappers

  const SELECTION_SINK_PREFIX := "provider-selection-required-"

  // An HTTPRoute rule: the stable id its provider header matches, empty when
  // it matches none, and its first backend's Service, if it has one. content
  // stands for everything else; Opaque is an entry that is no object.
  datatype Rule = Rule(stableId: string, service: Option<string>, content: string) | Opaque(content: string)

  datatype RetainError = NoPriorRules | NoDesiredRules | NoRuleFor(ids: set<string>)

  predicate IsSink(r: Rule) {
    r.Rule? && r.service.Some? && SELECTION_SINK_PREFIX <= r.service.value
  }

  predicate Routed(r: Rule, id: string) {
    r.Rule? && r.stableId == id
  }

  // The candidates a rule list routes to; the empty id is none.
  function Ids(rules: seq<Rule>): set<string> {
    set r | r in rules && r.Rule? && r.stableId != "" :: r.stableId
  }

  predicate Retains(r: Rule, ids: set<string>, desired: set<string>) {
    r.Rule? && r.stableId in ids && r.stableId !in desired
  }

  function Keep(old_: seq<Rule>, ids: set<string>, desired: set<string>): seq<Rule> {
    if old_ == [] then []
    else
      var last := old_[|old_| - 1];
      Keep(old_[..|old_| - 1], ids, desired) + if Retains(last, ids, desired) then [last] else []
  }

  function SinkIndex(rules: seq<Rule>): (i: nat)
    ensures i <= |rules|
    ensures forall k | 0 <= k < i :: !IsSink(rules[k])
    ensures i < |rules| ==> IsSink(rules[i])
  {
    if rules == [] || IsSink(rules[0]) then 0 else 1 + SinkIndex(rules[1..])
  }

  // Retained candidates with a rule in neither route.
  function Unroutable(desired: seq<Rule>, old_: seq<Rule>, ids: set<string>): set<string> {
    set id | id in ids && id !in Ids(desired) && !(exists r :: r in old_ && Routed(r, id))
  }

  function Merged(desired: seq<Rule>, old_: seq<Rule>, ids: set<string>): seq<Rule> {
    var at := SinkIndex(desired);
    desired[..at] + Keep(old_, ids, Ids(desired)) + desired[at..]
  }

  method RetainAttachmentRules(desired: Option<seq<Rule>>, existing: Option<seq<Rule>>, ids: set<string>)
    returns (r: Result<seq<Rule>, RetainError>)
    ensures r == if existing.None? then Err(NoPriorRules)
                 else if desired.None? then Err(NoDesiredRules)
                 else if Unroutable(desired.value, existing.value, ids) != {} then
                   Err(NoRuleFor(Unroutable(desired.value, existing.value, ids)))
                 else Ok(Merged(desired.value, existing.value, ids))
  {
    if existing.None? { return Err(NoPriorRules); }
    if desired.None? { return Err(NoDesiredRules); }
    var rules, old_ := desired.value, existing.value;
    var desiredIds := CollectIds(rules);
    var keep: seq<Rule>, seen: set<string> := [], {};
    var i := 0;
    while i < |old_|
      invariant 0 <= i <= |old_|
      invariant keep == Keep(old_[..i], ids, desiredIds)
      invariant seen == (set r | r in old_[..i] && Retains(r, ids, desiredIds) :: r.stableId)
    {
      assert old_[..i + 1] == old_[..i] + [old_[i]] && old_[..i + 1][..i] == old_[..i];
      if Retains(old_[i], ids, desiredIds) {
        keep := keep + [old_[i]];
        seen := seen + {old_[i].stableId};
      }
      i := i + 1;
    }
    assert old_[..|old_|] == old_;
    var missing := set id | id in ids && id !in seen && id !in desiredIds;
    assert missing == Unroutable(rules, old_, ids);
    if missing != {} { return Err(NoRuleFor(missing)); }
    var insert := FirstSink(rules);
    r := Ok(rules[..insert] + keep + rules[insert..]);
  }

  method CollectIds(rules: seq<Rule>) returns (ids: set<string>)
    ensures ids == Ids(rules)
  {
    ids := {};
    var i := 0;
    while i < |rules|
      invariant 0 <= i <= |rules|
      invariant ids == Ids(rules[..i])
    {
      assert rules[..i + 1] == rules[..i] + [rules[i]];
      if rules[i].Rule? && rules[i].stableId != "" { ids := ids + {rules[i].stableId}; }
      i := i + 1;
    }
    assert rules[..|rules|] == rules;
  }

  method FirstSink(rules: seq<Rule>) returns (insert: nat)
    ensures insert == SinkIndex(rules)
  {
    insert := 0;
    assert rules[0..] == rules;
    while insert < |rules| && !IsSink(rules[insert])
      invariant 0 <= insert <= |rules|
      invariant SinkIndex(rules) == insert + SinkIndex(rules[insert..])
    {
      assert rules[insert..][1..] == rules[insert + 1..];
      insert := insert + 1;
    }
  }

  // ----- what merging keeps -----

  lemma {:induction false} KeepIsExact(old_: seq<Rule>, ids: set<string>, desired: set<string>, r: Rule)
    ensures r in Keep(old_, ids, desired) <==> r in old_ && Retains(r, ids, desired)
    ensures multiset(Keep(old_, ids, desired))[r] == if Retains(r, ids, desired) then multiset(old_)[r] else 0
  {
    if old_ != [] {
      KeepIsExact(old_[..|old_| - 1], ids, desired, r);
      assert old_ == old_[..|old_| - 1] + [old_[|old_| - 1]];
    }
  }

  predicate InOrder(part: seq<Rule>, whole: seq<Rule>) {
    part == [] || (whole != [] && (
      || (part[|part| - 1] == whole[|whole| - 1] && InOrder(part[..|part| - 1], whole[..|whole| - 1]))
      || InOrder(part, whole[..|whole| - 1])))
  }

  lemma {:induction false} KeepInOrder(old_: seq<Rule>, ids: set<string>, desired: set<string>)
    ensures InOrder(Keep(old_, ids, desired), old_)
  {
    if old_ != [] {
      var front := Keep(old_[..|old_| - 1], ids, desired);
      KeepInOrder(old_[..|old_| - 1], ids, desired);
      var last := old_[|old_| - 1];
      if Retains(last, ids, desired) {
        assert (front + [last])[..|front|] == front;
      } else {
        assert front + [] == front;
      }
    }
  }

  // A rule list routes to an identity.
  predicate RoutesTo(rules: seq<Rule>, id: string) {
    exists r :: r in rules && r.Rule? && r.stableId == id
  }

  // What the desired rules claim; a rule without an identity claims none.
  predicate Claims(desired: seq<Rule>, id: string) {
    id != "" && RoutesTo(desired, id)
  }

  // A rule to the Service that catches what selects no provider.
  predicate Catches(r: Rule) {
    r.Rule? && r.service.Some? && "provider-selection-required-" <= r.service.value
  }

  // The identities that stop a merge: those to retain that neither route has a
  // rule for.
  lemma {:induction false} UnroutableIsExact(desired: seq<Rule>, old_: seq<Rule>, ids: set<string>, id: string)
    ensures id in Unroutable(desired, old_, ids) <==> id in ids && !Claims(desired, id) && !RoutesTo(old_, id)
  {
    if r :| r in old_ && Routed(r, id) { assert RoutesTo(old_, id); }
    if r :| r in old_ && r.Rule? && r.stableId == id { assert Routed(r, id); }
  }

  // The merged route: the desired rules in their order, with exactly the old
  // rules of retained candidates that are not desired any more, each as often
  // as before and in the old order, all of them ahead of every desired sink.
  lemma {:induction false} MergedIsExact(desired: seq<Rule>, old_: seq<Rule>, ids: set<string>, r: Rule)
    ensures var merged, at, kept := Merged(desired, old_, ids), SinkIndex(desired), Keep(old_, ids, Ids(desired));
      && |merged| == |desired| + |kept|
      && merged[..at] + merged[at + |kept|..] == desired
      && merged[at..at + |kept|] == kept && InOrder(kept, old_)
      && multiset(kept)[r] ==
           (if r.Rule? && r.stableId in ids && !Claims(desired, r.stableId) then multiset(old_)[r] else 0)
      && (forall k | 0 <= k < at :: !Catches(merged[k]))
      && (at < |desired| ==> Catches(desired[at]))
  {
    KeepInOrder(old_, ids, Ids(desired));
    KeepIsExact(old_, ids, Ids(desired), r);
    assert r.Rule? ==> (r.stableId in Ids(desired) <==> Claims(desired, r.stableId));
    InsertedAt(desired, Keep(old_, ids, Ids(desired)), SinkIndex(desired));
  }

  lemma {:induction false} InsertedAt<T>(s: seq<T>, more: seq<T>, at: nat)
    requires at <= |s|
    ensures var t := s[..at] + more + s[at..];
      && |t| == |s| + |more| && t[..at] + t[at + |more|..] == s && t[at..at + |more|] == more
      && forall k | 0 <= k < at :: t[k] == s[k]
  {
    var t := s[..at] + more + s[at..];
    assert t[..at] == s[..at] && t[at + |more|..] == s[at..];
    assert s == s[..at] + s[at..];
  }

  // When merging succeeds every retained candidate stays routable.
  lemma {:induction false} RetainedStayRoutable(desired: seq<Rule>, old_: seq<Rule>, ids: set<string>)
    requires Unroutable(desired, old_, ids) == {} && "" !in ids
    ensures ids <= Ids(Merged(desired, old_, ids)) && Ids(desired) <= Ids(Merged(desired, old_, ids))
  {
    var merged, at, kept := Merged(desired, old_, ids), SinkIndex(desired), Keep(old_, ids, Ids(desired));
    forall r | r in desired ensures r in merged { assert desired == desired[..at] + desired[at..]; }
    forall id | id in ids ensures id in Ids(merged) {
      if id !in Ids(desired) {
        assert id !in Unroutable(desired, old_, ids);
        var r :| r in old_ && Routed(r, id);
        KeepIsExact(old_, ids, Ids(desired), r);
        assert r in merged;
      }
    }
  }

  // Merging again, onto the merged route, adds nothing.
  lemma {:induction false} RetainingIsIdempotent(desired: seq<Rule>, old_: seq<Rule>, ids: set<string>)
    requires Unroutable(desired, old_, ids) == {} && "" !in ids
    ensures var merged := Merged(desired, old_, ids);
      Unroutable(merged, old_, ids) == {} && Merged(merged, old_, ids) == merged
  {
    var merged := Merged(desired, old_, ids);
    RetainedStayRoutable(desired, old_, ids);
    NothingToKeep(old_, ids, Ids(merged));
    var at := SinkIndex(merged);
    assert merged == merged[..at] + [] + merged[at..];
  }

  lemma {:induction false} NothingToKeep(old_: seq<Rule>, ids: set<string>, desired: set<string>)
    requires ids <= desired
    ensures Keep(old_, ids, desired) == []
  {
    if old_ != [] { NothingToKeep(old_[..|old_| - 1], ids, desired); }
  }

  // ----- merging routes -----

  // Each identity at its first route.
  function FirstRoutes(routes: seq<Route>): seq<Route> {
    if routes == [] then []
    else
      var front, last := routes[..|routes| - 1], routes[|routes| - 1];
      FirstRoutes(front) + if RouteStableId(last) in RouteIds(front) then [] else [last]
  }

  function Concat(groups: seq<seq<Route>>): seq<Route> {
    if groups == [] then [] else Concat(groups[..|groups| - 1]) + groups[|groups| - 1]
  }

  lemma {:induction false} OneMoreRoute(routes: seq<Route>, r: Route)
    ensures RouteIds(routes + [r]) == RouteIds(routes) + {RouteStableId(r)}
    ensures FirstRoutes(routes + [r])
         == FirstRoutes(routes) + if RouteStableId(r) in RouteIds(routes) then [] else [r]
  {
    assert (routes + [r])[..|routes|] == routes;
    assert forall x :: x in routes + [r] <==> x in routes || x == r;
  }

  method MergeGroup(ghost before: seq<Route>, routes: seq<Route>, merged: seq<Route>, seen: set<StableId>)
    returns (more: seq<Route>, ids: set<StableId>)
    requires merged == FirstRoutes(before) && seen == RouteIds(before)
    ensures more == FirstRoutes(before + routes) && ids == RouteIds(before + routes)
  {
    more, ids := merged, seen;
    var i := 0;
    ghost var sofar := before;
    while i < |routes|
      invariant 0 <= i <= |routes|
      invariant sofar == before + routes[..i]
      invariant more == FirstRoutes(sofar) && ids == RouteIds(sofar)
    {
      var id := RouteStableId(routes[i]);
      OneMoreRoute(sofar, routes[i]);
      if id !in ids {
        ids := ids + {id};
        more := more + [routes[i]];
      }
      sofar := sofar + [routes[i]];
      i := i + 1;
    }
    assert routes[..|routes|] == routes;
  }

  method MergeAttachmentRoutes(groups: seq<seq<Route>>) returns (merged: seq<Route>)
    ensures merged == FirstRoutes(Concat(groups))
  {
    merged := [];
    var seen: set<StableId> := {};
    var g := 0;
    while g < |groups|
      invariant 0 <= g <= |groups|
      invariant merged == FirstRoutes(Concat(groups[..g])) && seen == RouteIds(Concat(groups[..g]))
    {
      assert groups[..g + 1][..g] == groups[..g];
      merged, seen := MergeGroup(Concat(groups[..g]), groups[g], merged, seen);
      g := g + 1;
    }
    assert groups[..|groups|] == groups;
  }

  // Every identity once, none lost, and the first group untouched when it
  // repeats none.
  lemma {:induction false} FirstRoutesAreExact(routes: seq<Route>)
    ensures RouteIds(FirstRoutes(routes)) == RouteIds(routes)
    ensures forall i, j | 0 <= i < j < |FirstRoutes(routes)| ::
      RouteStableId(FirstRoutes(routes)[i]) != RouteStableId(FirstRoutes(routes)[j])
  {
    if routes != [] {
      var front, last := routes[..|routes| - 1], routes[|routes| - 1];
      var kept := FirstRoutes(front);
      FirstRoutesAreExact(front);
      assert routes == front + [last];
      OneMoreRoute(front, last);
      if RouteStableId(last) !in RouteIds(front) {
        assert forall x :: x in kept + [last] <==> x in kept || x == last;
        forall i | 0 <= i < |kept| ensures RouteStableId(kept[i]) != RouteStableId(last) {
          assert kept[i] in kept && RouteStableId(kept[i]) in RouteIds(kept);
        }
      }
    }
  }

  lemma {:induction false} EarlierRoutesStay(a: seq<Route>, b: seq<Route>)
    ensures FirstRoutes(a) <= FirstRoutes(a + b)
  {
    if b == [] {
      assert a + b == a;
    } else {
      assert (a + b)[..|a + b| - 1] == a + b[..|b| - 1];
      EarlierRoutesStay(a, b[..|b| - 1]);
    }
  }
}
