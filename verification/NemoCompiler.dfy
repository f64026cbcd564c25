// Compiling the guardrail catalog into the post-auth filter chain, and what
// the compiled chain does to a request and its response.
module NemoCompiler {
  import opened Wrappers
  import opened Catalog

  /******* From policies to callouts *******/

  datatype Phase = Input | Output | OtherPhase

  datatype PolicyCheck = PolicyCheck(name: string, configId: string, phases: seq<Phase>)

  // checksUrl is None when the URL does not parse.
  datatype Provider =
    | NoProvider
    | NotNemo
    | Service(checksUrl: Option<string>, namespace: string, authenticated: bool)

  // stale: accepted, but its status is behind its spec.
  datatype Policy = Policy(
    name: string, stale: bool, accepted: bool, provider: Provider,
    timeout: int, checks: seq<PolicyCheck>)

  // Nanoseconds; a positive timeout below it cannot be represented.
  const MILLISECOND := 1_000_000

  predicate Compilable(c: PolicyCheck) {
    c.configId != "" && c.phases != [] && forall i :: 0 <= i < |c.phases| ==> !c.phases[i].OtherPhase?
  }

  predicate Callable(p: Policy, outputUnsupported: bool) {
    && !(0 < p.timeout < MILLISECOND)
    && p.provider.Service?
    && p.checks != []
    && (forall i :: 0 <= i < |p.checks| ==> Compilable(p.checks[i]))
    && (outputUnsupported ==> forall i :: 0 <= i < |p.checks| ==> Output !in p.checks[i].phases)
  }

  function OpenCheck(header: (string, string) -> string, p: Policy, c: PolicyCheck): Check {
    Check(c.name, c.configId, header(p.name, c.name), Input in c.phases, Output in c.phases, false)
  }

  function ClosedCheck(name: string, header: string): Check {
    Check(name, "", header, true, false, true)
  }

  function OpenChecks(header: (string, string) -> string, p: Policy, checks: seq<PolicyCheck>): (r: seq<Check>)
    ensures |r| == |checks| && forall i :: 0 <= i < |r| ==> r[i] == OpenCheck(header, p, checks[i])
  {
    if checks == [] then [] else [OpenCheck(header, p, checks[0])] + OpenChecks(header, p, checks[1..])
  }

  function NamedOnly(checks: seq<PolicyCheck>): seq<PolicyCheck> {
    if checks == [] then [] else (if checks[0].name != "" then [checks[0]] else []) + NamedOnly(checks[1..])
  }

  function ClosedChecks(header: (string, string) -> string, p: Policy, checks: seq<PolicyCheck>): (r: seq<Check>)
    ensures |r| == |checks| && forall i :: 0 <= i < |r| ==>
      r[i] == ClosedCheck(checks[i].name, header(p.name, checks[i].name))
  {
    if checks == [] then []
    else [ClosedCheck(checks[0].name, header(p.name, checks[0].name))] + ClosedChecks(header, p, checks[1..])
  }

  function ClosedCallout(header: (string, string) -> string, p: Policy): Callout {
    Callout(p.name, None, "", false, 0, true, ClosedChecks(header, p, NamedOnly(p.checks)))
  }

  function OpenCallout(header: (string, string) -> string, p: Policy): Callout
    requires p.provider.Service?
  {
    Callout(p.name, p.provider.checksUrl, p.provider.namespace, p.provider.authenticated, p.timeout, false,
            OpenChecks(header, p, p.checks))
  }

  method NemoCalloutFrom(header: (string, string) -> string, p: Policy) returns (callout: Option<Callout>)
    ensures callout == if Callable(p, false) then Some(OpenCallout(header, p)) else None
  {
    if 0 < p.timeout < MILLISECOND || !p.provider.Service? {
      return None;
    }
    var checks: seq<Check> := [];
    for i := 0 to |p.checks|
      invariant |checks| == i
      invariant forall k :: 0 <= k < i ==> Compilable(p.checks[k]) && checks[k] == OpenCheck(header, p, p.checks[k])
    {
      var check := p.checks[i];
      if check.configId == "" {
        return None;
      }
      var request, response := false, false;
      for j := 0 to |check.phases|
        invariant forall k :: 0 <= k < j ==> !check.phases[k].OtherPhase?
        invariant !request && !response ==> j == 0
        invariant request == (Input in check.phases[..j]) && response == (Output in check.phases[..j])
      {
        assert check.phases[..j + 1] == check.phases[..j] + [check.phases[j]];
        match check.phases[j]
        case Input => request := true;
        case Output => response := true;
        case OtherPhase => return None;
      }
      assert check.phases[..|check.phases|] == check.phases;
      if !request && !response {
        return None;
      }
      checks := checks + [Check(check.name, check.configId, header(p.name, check.name), request, response, false)];
    }
    if checks == [] {
      return None;
    }
    assert checks == OpenChecks(header, p, p.checks);
    return Some(Callout(p.name, p.provider.checksUrl, p.provider.namespace, p.provider.authenticated, p.timeout,
                        false, checks));
  }

  function CalloutOf(header: (string, string) -> string, p: Policy, outputUnsupported: bool): Callout {
    if p.accepted && Callable(p, outputUnsupported) then OpenCallout(header, p) else ClosedCallout(header, p)
  }

  predicate Attached(p: Policy, refs: seq<AttachmentRef>, tenant: string) {
    AnyUnreadable(refs) || exists i :: 0 <= i < |refs| && InTenant(refs[i], tenant) && refs[i].name == p.name
  }

  // The attached policies' callouts in list order; a policy with nothing to
  // reject contributes none.
  function CalloutsOf(header: (string, string) -> string, policies: seq<Policy>, refs: seq<AttachmentRef>,
                      tenant: string, outputUnsupported: bool): seq<Callout> {
    if policies == [] then []
    else
      var last := policies[|policies| - 1];
      CalloutsOf(header, policies[..|policies| - 1], refs, tenant, outputUnsupported)
      + if Attached(last, refs, tenant) && CalloutOf(header, last, outputUnsupported).checks != []
        then [CalloutOf(header, last, outputUnsupported)] else []
  }

  // The callout of one attached policy that is not stale.
  method CalloutFor(header: (string, string) -> string, p: Policy, outputUnsupported: bool) returns (callout: Callout)
    ensures callout == CalloutOf(header, p, outputUnsupported)
  {
    if p.accepted && !p.provider.NoProvider? {
      var open := NemoCalloutFrom(header, p);
      if open.Some? {
        assert forall k :: 0 <= k < |p.checks| ==> open.value.checks[k].response == (Output in p.checks[k].phases);
        if !outputUnsupported || forall k :: 0 <= k < |open.value.checks| ==> !open.value.checks[k].response {
          return open.value;
        }
      }
    }
    return ClosedCallout(header, p);
  }

  // The callouts of the first i policies, none of them attached and stale.
  ghost predicate AcceptedTo(header: (string, string) -> string, policies: seq<Policy>, refs: seq<AttachmentRef>,
                             tenant: string, outputUnsupported: bool, i: nat, found: seq<Callout>)
    requires i <= |policies|
  {
    && (forall k :: 0 <= k < i && Attached(policies[k], refs, tenant) ==> !policies[k].stale)
    && found == CalloutsOf(header, policies[..i], refs, tenant, outputUnsupported)
  }

  lemma {:induction false} AcceptOne(header: (string, string) -> string, policies: seq<Policy>,
                                     refs: seq<AttachmentRef>,
                                     tenant: string, outputUnsupported: bool, i: nat)
    requires i < |policies|
    ensures CalloutsOf(header, policies[..i + 1], refs, tenant, outputUnsupported) ==
      var own := CalloutOf(header, policies[i], outputUnsupported);
      CalloutsOf(header, policies[..i], refs, tenant, outputUnsupported)
      + if Attached(policies[i], refs, tenant) && own.checks != [] then [own] else []
  {
    assert policies[..i + 1][..i] == policies[..i];
  }

  // A stale acceptance of an attached policy fails the whole call.
  method AcceptedNemoCallouts(header: (string, string) -> string, policies: seq<Policy>, refs: seq<AttachmentRef>,
                              tenant: string, outputUnsupported: bool)
    returns (callouts: Option<seq<Callout>>)
    ensures callouts.None? <==>
      exists i :: 0 <= i < |policies| && Attached(policies[i], refs, tenant) && policies[i].stale
    ensures callouts.Some? ==>
      callouts.value == Ordered(Visits(CalloutsOf(header, policies, refs, tenant, outputUnsupported), refs, tenant), {})
  {
    var names, all := AttachedPolicies(refs, tenant);
    assert forall p: Policy :: Attached(p, refs, tenant) <==> all || p.name in names;
    var found: seq<Callout> := [];
    for i := 0 to |policies|
      invariant AcceptedTo(header, policies, refs, tenant, outputUnsupported, i, found)
    {
      AcceptOne(header, policies, refs, tenant, outputUnsupported, i);
      if all || policies[i].name in names {
        if policies[i].stale {
          return None;
        }
        var callout := CalloutFor(header, policies[i], outputUnsupported);
        if callout.checks != [] {
          found := found + [callout];
        }
      }
    }
    assert policies[..|policies|] == policies;
    var ordered := ApplyAttachmentOrder(found, refs, tenant);
    return Some(ordered);
  }

  // Closes every callout whose provider is not in the tenant's infrastructure
  // namespace.
  function Pinned(c: Callout, infra: string): Callout {
    if c.closed || (infra != "" && c.serviceNamespace == infra) then c
    else Callout(c.name, None, "", false, 0, true, CloseAll(c.checks))
  }

  function CloseAll(checks: seq<Check>): (r: seq<Check>)
    ensures |r| == |checks| && forall i :: 0 <= i < |r| ==> r[i] == ClosedCheck(checks[i].name, checks[i].header)
  {
    if checks == [] then [] else [ClosedCheck(checks[0].name, checks[0].header)] + CloseAll(checks[1..])
  }

  method PinNemoCalloutsToInfra(callouts: array<Callout>, infra: string) returns (outside: seq<Callout>)
    modifies callouts
    ensures forall i :: 0 <= i < callouts.Length ==> callouts[i] == Pinned(old(callouts[i]), infra)
    ensures infra == "" ==> outside == []
    ensures forall c :: c in outside <==>
      infra != "" && exists i ::
        0 <= i < callouts.Length && old(callouts[i]) == c && !c.closed && c.serviceNamespace != infra
  {
    outside := [];
    for i := 0 to callouts.Length
      invariant forall k :: 0 <= k < i ==> callouts[k] == Pinned(old(callouts[k]), infra)
      invariant forall k :: i <= k < callouts.Length ==> callouts[k] == old(callouts[k])
      invariant infra == "" ==> outside == []
      invariant forall c :: c in outside <==>
        infra != "" && exists k :: 0 <= k < i && old(callouts[k]) == c && !c.closed && c.serviceNamespace != infra
    {
      var callout := callouts[i];
      if callout.closed || (infra != "" && callout.serviceNamespace == infra) {
        continue;
      }
      if infra != "" {
        outside := outside + [callout];
      }
      callouts[i] := Callout(callout.name, None, "", false, 0, true, CloseAll(callout.checks));
    }
  }

  /******* From callouts to filters *******/

  datatype Filter = Filter(
    endpoint: string, configId: string, header: string, authenticated: bool,
    timeout: int, request: bool, response: bool, closed: bool)

  function CallOf(e: Entry): Filter {
    Filter(if e.source.endpoint.Some? then e.source.endpoint.value else "", e.check.configId, e.check.header,
           e.source.authenticated, e.source.timeout, false, false, false)
  }

  // What one check of the catalog contributes to the request and the response.
  function InputFilters(e: Entry): seq<Filter> {
    if e.source.closed then [Filter("", "", e.check.header, false, 0, true, false, true)]
    else if e.check.request then [CallOf(e).(request := true)]
    else []
  }

  function OutputFilters(e: Entry): seq<Filter> {
    if !e.source.closed && e.check.response then [CallOf(e).(response := true)] else []
  }

  function AllInput(entries: seq<Entry>): seq<Filter> {
    if entries == [] then [] else InputFilters(entries[0]) + AllInput(entries[1..])
  }

  function AllOutput(entries: seq<Entry>): seq<Filter> {
    if entries == [] then [] else OutputFilters(entries[0]) + AllOutput(entries[1..])
  }

  function Reversed(s: seq<Filter>): (r: seq<Filter>)
    ensures |r| == |s| && forall i :: 0 <= i < |s| ==> r[i] == s[|s| - 1 - i]
  {
    if s == [] then [] else Reversed(s[1..]) + [s[0]]
  }

  lemma {:induction false} AllFiltersConcat(a: seq<Entry>, b: seq<Entry>)
    ensures AllInput(a + b) == AllInput(a) + AllInput(b)
    ensures AllOutput(a + b) == AllOutput(a) + AllOutput(b)
  {
    if a == [] {
      assert a + b == b;
    } else {
      assert (a + b)[1..] == a[1..] + b;
      AllFiltersConcat(a[1..], b);
    }
  }

  lemma {:induction false} FlattenSnoc(callouts: seq<Callout>, c: Callout)
    ensures Flatten(callouts + [c]) == Flatten(callouts) + Wanted(c, c.checks, [])
  {
    if callouts == [] {
      assert Flatten([c]) == Wanted(c, c.checks, []) + Flatten([]);
    } else {
      assert (callouts + [c])[1..] == callouts[1..] + [c];
      FlattenSnoc(callouts[1..], c);
    }
  }

  lemma {:induction false} WantedSnoc(c: Callout, checks: seq<Check>, check: Check)
    ensures Wanted(c, checks + [check], []) == Wanted(c, checks, []) + [EntryOf(c, check)]
  {
    if checks == [] {
      assert Wanted(c, [check], []) == [EntryOf(c, check)] + Wanted(c, [], []);
    } else {
      assert (checks + [check])[1..] == checks[1..] + [check];
      WantedSnoc(c, checks[1..], check);
    }
  }

  predicate Reachable(c: Callout) {
    c.closed || c.endpoint.Some?
  }

  // The filters of one callout's first j checks.
  ghost predicate Expands(c: Callout, j: nat, forward: seq<Filter>, output: seq<Filter>)
    requires j <= |c.checks|
  {
    forward == AllInput(Wanted(c, c.checks[..j], [])) && output == AllOutput(Wanted(c, c.checks[..j], []))
  }

  method ExpandCallout(c: Callout) returns (forward: seq<Filter>, output: seq<Filter>)
    requires Reachable(c)
    ensures forward == AllInput(Wanted(c, c.checks, [])) && output == AllOutput(Wanted(c, c.checks, []))
  {
    forward, output := [], [];
    for j := 0 to |c.checks|
      invariant Expands(c, j, forward, output)
    {
      var check := c.checks[j];
      AppendCheck(c, j);
      if c.closed {
        forward := forward + [Filter("", "", check.header, false, 0, true, false, true)];
      } else {
        var filter := Filter(c.endpoint.value, check.configId, check.header, c.authenticated, c.timeout, false,
                             false, false);
        if check.request {
          forward := forward + [filter.(request := true)];
        }
        if check.response {
          output := output + [filter.(response := true)];
        }
      }
    }
    assert c.checks[..|c.checks|] == c.checks;
  }

  lemma {:induction false} AppendCheck(c: Callout, j: nat)
    requires j < |c.checks|
    ensures
      var before, after, e := Wanted(c, c.checks[..j], []), Wanted(c, c.checks[..j + 1], []), EntryOf(c, c.checks[j]);
      && AllInput(after) == AllInput(before) + InputFilters(e)
      && AllOutput(after) == AllOutput(before) + OutputFilters(e)
  {
    var before, e := Wanted(c, c.checks[..j], []), EntryOf(c, c.checks[j]);
    assert c.checks[..j + 1] == c.checks[..j] + [c.checks[j]];
    WantedSnoc(c, c.checks[..j], c.checks[j]);
    AllFiltersConcat(before, [e]);
    assert AllInput([e]) == InputFilters(e) + AllInput([]) && AllOutput([e]) == OutputFilters(e) + AllOutput([]);
  }

  predicate AllReachable(callouts: seq<Callout>) {
    forall c | c in callouts :: Reachable(c)
  }

  predicate Expandable(callouts: seq<Callout>) {
    && AllReachable(callouts)
    && AllInput(Flatten(callouts)) + AllOutput(Flatten(callouts)) != []
  }

  lemma {:induction false} ExpandStep(callouts: seq<Callout>, i: nat)
    requires i < |callouts|
    ensures
      var before, own := Flatten(callouts[..i]), Wanted(callouts[i], callouts[i].checks, []);
      && AllInput(Flatten(callouts[..i + 1])) == AllInput(before) + AllInput(own)
      && AllOutput(Flatten(callouts[..i + 1])) == AllOutput(before) + AllOutput(own)
  {
    assert callouts[..i + 1] == callouts[..i] + [callouts[i]];
    FlattenSnoc(callouts[..i], callouts[i]);
    AllFiltersConcat(Flatten(callouts[..i]), Wanted(callouts[i], callouts[i].checks, []));
  }

  // The filters of the first i callouts.
  ghost predicate ExpandedTo(callouts: seq<Callout>, i: nat, forward: seq<Filter>, output: seq<Filter>)
    requires i <= |callouts|
  {
    && AllReachable(callouts[..i])
    && forward == AllInput(Flatten(callouts[..i])) && output == AllOutput(Flatten(callouts[..i]))
  }

  // One filter per phase: requests in catalog order, then responses reversed.
  method ExpandNemoChecks(callouts: seq<Callout>) returns (filters: Option<seq<Filter>>)
    ensures filters.Some? <==> Expandable(callouts)
    ensures filters.Some? ==> filters.value == AllInput(Flatten(callouts)) + Reversed(AllOutput(Flatten(callouts)))
  {
    var forward, output: seq<Filter> := [], [];
    for i := 0 to |callouts|
      invariant ExpandedTo(callouts, i, forward, output)
    {
      if !Reachable(callouts[i]) {
        return None;
      }
      ExpandStep(callouts, i);
      assert callouts[..i + 1] == callouts[..i] + [callouts[i]];
      var input, response := ExpandCallout(callouts[i]);
      forward, output := forward + input, output + response;
    }
    assert callouts[..|callouts|] == callouts;
    forward := forward + Reversed(output);
    return if forward == [] then None else Some(forward);
  }

  /******* Nothing selected is dropped *******/

  ghost predicate WellNamedPolicies(policies: seq<Policy>) {
    && (forall i :: 0 <= i < |policies| ==> '/' !in policies[i].name)
    && (forall i, j :: 0 <= i < j < |policies| ==> policies[i].name != policies[j].name)
    && (forall i :: 0 <= i < |policies| ==> DistinctChecks(policies[i].checks))
  }

  ghost predicate DistinctChecks(checks: seq<PolicyCheck>) {
    forall i, j :: 0 <= i < j < |checks| ==> checks[i].name != checks[j].name
  }

  // A call of the policy's own service for one of its checks.
  predicate Calls(f: Filter, p: Policy, header: string, check: PolicyCheck) {
    && !f.closed && f.header == header && f.configId == check.configId
    && p.provider.Service? && (p.provider.checksUrl.Some? ==> f.endpoint == p.provider.checksUrl.value)
    && f.authenticated == p.provider.authenticated && f.timeout == p.timeout
  }

  ghost predicate RefusesChosen(filters: seq<Filter>, header: string) {
    exists f :: f in filters && f.closed && f.header == header
  }

  // There is a call for each phase of the check.
  ghost predicate CallsEachPhase(filters: seq<Filter>, p: Policy, header: string, check: PolicyCheck) {
    && (Input in check.phases ==> exists f :: f in filters && Calls(f, p, header, check) && f.request)
    && (Output in check.phases ==> exists f :: f in filters && Calls(f, p, header, check) && f.response)
  }

  // The policy's service is called rather than its checks refused: it is an
  // accepted policy of a NeMo service in the infrastructure namespace, its
  // timeout lasts a millisecond if it has one, and all its checks name a
  // configuration and phases that can run.
  predicate MayCall(p: Policy, outputUnsupported: bool, infra: string) {
    && p.accepted && p.provider.Service? && infra != "" && p.provider.namespace == infra
    && (p.timeout <= 0 || p.timeout / MILLISECOND >= 1)
    && p.checks != []
    && forall c | c in p.checks ::
         && c.configId != "" && (Input in c.phases || Output in c.phases) && OtherPhase !in c.phases
         && (outputUnsupported ==> Output !in c.phases)
  }

  function PinAll(callouts: seq<Callout>, infra: string): (r: seq<Callout>)
    ensures |r| == |callouts| && forall i :: 0 <= i < |r| ==> r[i] == Pinned(callouts[i], infra)
  {
    if callouts == [] then [] else [Pinned(callouts[0], infra)] + PinAll(callouts[1..], infra)
  }

  // Closing keeps the check's header; an entry that stays open is unchanged.
  function PinnedEntry(e: Entry, infra: string): Entry {
    if e.source.closed || (infra != "" && e.source.serviceNamespace == infra) then e
    else Entry(Callout(e.source.name, None, "", false, 0, true, []), ClosedCheck(e.check.name, e.check.header))
  }

  lemma {:induction false} PinKeepsEveryEntry(callouts: seq<Callout>, infra: string, e: Entry)
    requires e in Flatten(callouts)
    ensures PinnedEntry(e, infra) in Flatten(PinAll(callouts, infra))
  {
    var c := callouts[0];
    assert PinAll(callouts, infra)[1..] == PinAll(callouts[1..], infra);
    WantedMembers(c, c.checks, [], e);
    if e in Wanted(c, c.checks, []) {
      var pinned := Pinned(c, infra);
      if pinned != c {
        var i :| 0 <= i < |c.checks| && c.checks[i] == e.check;
        assert pinned.checks[i] == ClosedCheck(e.check.name, e.check.header);
      }
      WantedMembers(pinned, pinned.checks, [], PinnedEntry(e, infra));
    } else {
      PinKeepsEveryEntry(callouts[1..], infra, e);
    }
  }

  lemma {:induction false} FiltersOfEntry(entries: seq<Entry>, e: Entry, f: Filter)
    requires e in entries
    ensures f in InputFilters(e) ==> f in AllInput(entries)
    ensures f in OutputFilters(e) ==> f in AllOutput(entries)
  {
    if entries[0] != e {
      FiltersOfEntry(entries[1..], e, f);
    }
  }

  lemma {:induction false} NamedOnlyKeeps(checks: seq<PolicyCheck>, c: PolicyCheck)
    ensures c in NamedOnly(checks) <==> c in checks && c.name != ""
  {
    if checks != [] { NamedOnlyKeeps(checks[1..], c); }
  }

  lemma {:induction false} NamedOnlyDistinct(checks: seq<PolicyCheck>)
    requires DistinctChecks(checks)
    ensures DistinctChecks(NamedOnly(checks))
  {
    if checks != [] {
      NamedOnlyDistinct(checks[1..]);
      var rest := NamedOnly(checks[1..]);
      forall j | 0 <= j < |rest| ensures rest[j].name != checks[0].name {
        NamedOnlyKeeps(checks[1..], rest[j]);
        var k :| 0 <= k < |checks[1..]| && checks[1..][k] == rest[j];
        assert checks[k + 1] == rest[j];
      }
    }
  }

  lemma {:induction false} CalloutHasChecks(header: (string, string) -> string, p: Policy, outputUnsupported: bool,
                                            c: PolicyCheck)
    requires DistinctChecks(p.checks)
    ensures forall i, j :: 0 <= i < j < |CalloutOf(header, p, outputUnsupported).checks| ==>
      CalloutOf(header, p, outputUnsupported).checks[i].name != CalloutOf(header, p, outputUnsupported).checks[j].name
    ensures c in p.checks && c.name != "" ==>
      var callout := CalloutOf(header, p, outputUnsupported);
      (if callout.closed then ClosedCheck(c.name, header(p.name, c.name))
       else OpenCheck(header, p, c)) in callout.checks
  {
    NamedOnlyDistinct(p.checks);
    if c in p.checks && c.name != "" {
      CalloutHasCheck(header, p, outputUnsupported, c);
    }
  }

  lemma {:induction false} CalloutHasCheck(header: (string, string) -> string, p: Policy, outputUnsupported: bool,
                                           c: PolicyCheck)
    requires c in p.checks && c.name != ""
    ensures var callout := CalloutOf(header, p, outputUnsupported);
      (if callout.closed then ClosedCheck(c.name, header(p.name, c.name))
       else OpenCheck(header, p, c)) in callout.checks
  {
    var callout := CalloutOf(header, p, outputUnsupported);
    var checks := if callout.closed then NamedOnly(p.checks) else p.checks;
    NamedOnlyKeeps(p.checks, c);
    var i :| 0 <= i < |checks| && checks[i] == c;
    assert callout.checks[i] ==
      if callout.closed then ClosedCheck(c.name, header(p.name, c.name)) else OpenCheck(header, p, c);
  }

  lemma {:induction false} CalloutsOfSource(header: (string, string) -> string, policies: seq<Policy>,
                                            refs: seq<AttachmentRef>, tenant: string, outputUnsupported: bool, k: nat)
    returns (i: nat)
    requires k < |CalloutsOf(header, policies, refs, tenant, outputUnsupported)|
    ensures i < |policies| && CalloutsOf(header, policies, refs, tenant, outputUnsupported)[k] ==
      CalloutOf(header, policies[i], outputUnsupported)
  {
    var n := |policies| - 1;
    if k < |CalloutsOf(header, policies[..n], refs, tenant, outputUnsupported)| {
      i := CalloutsOfSource(header, policies[..n], refs, tenant, outputUnsupported, k);
    } else {
      i := n;
    }
  }

  lemma {:induction false} CalloutsOfComplete(header: (string, string) -> string, policies: seq<Policy>,
                                              refs: seq<AttachmentRef>, tenant: string, outputUnsupported: bool, i: nat)
    requires i < |policies| && Attached(policies[i], refs, tenant)
      && CalloutOf(header, policies[i], outputUnsupported).checks != []
    ensures CalloutOf(header, policies[i], outputUnsupported)
         in CalloutsOf(header, policies, refs, tenant, outputUnsupported)
  {
    var n := |policies| - 1;
    if i < n {
      CalloutsOfComplete(header, policies[..n], refs, tenant, outputUnsupported, i);
    }
  }

  ghost predicate DistinctNames(callouts: seq<Callout>) {
    forall i, j :: 0 <= i < j < |callouts| ==> callouts[i].name != callouts[j].name
  }

  lemma {:induction false} CalloutsOfNames(header: (string, string) -> string, policies: seq<Policy>,
                                           refs: seq<AttachmentRef>, tenant: string, outputUnsupported: bool)
    requires forall i, j :: 0 <= i < j < |policies| ==> policies[i].name != policies[j].name
    ensures DistinctNames(CalloutsOf(header, policies, refs, tenant, outputUnsupported))
  {
    if policies != [] {
      var n := |policies| - 1;
      var before := CalloutsOf(header, policies[..n], refs, tenant, outputUnsupported);
      CalloutsOfNames(header, policies[..n], refs, tenant, outputUnsupported);
      forall k | 0 <= k < |before| ensures before[k].name != policies[n].name {
        var i := CalloutsOfSource(header, policies[..n], refs, tenant, outputUnsupported, k);
        assert policies[i].name == before[k].name;
      }
      var callouts := CalloutsOf(header, policies, refs, tenant, outputUnsupported);
      assert before <= callouts && |callouts| <= |before| + 1;
      assert |callouts| > |before| ==> callouts[|before|].name == policies[n].name;
    }
  }

  lemma {:induction false} CalloutsOfWellNamed(header: (string, string) -> string, policies: seq<Policy>,
                                               refs: seq<AttachmentRef>, tenant: string, outputUnsupported: bool)
    requires WellNamedPolicies(policies)
    ensures WellNamed(CalloutsOf(header, policies, refs, tenant, outputUnsupported))
  {
    var callouts := CalloutsOf(header, policies, refs, tenant, outputUnsupported);
    CalloutsOfNames(header, policies, refs, tenant, outputUnsupported);
    forall k | 0 <= k < |callouts|
      ensures '/' !in callouts[k].name
      ensures forall i, j :: 0 <= i < j < |callouts[k].checks| ==>
        callouts[k].checks[i].name != callouts[k].checks[j].name
    {
      var i := CalloutsOfSource(header, policies, refs, tenant, outputUnsupported, k);
      CalloutHasChecks(header, policies[i], outputUnsupported, PolicyCheck("", "", []));
    }
  }

  predicate CallsFor(f: Filter, e: Entry) {
    && !f.closed && f.header == e.check.header && f.configId == e.check.configId
    && (e.source.endpoint.Some? ==> f.endpoint == e.source.endpoint.value)
    && f.authenticated == e.source.authenticated && f.timeout == e.source.timeout
  }

  // An entry of the pinned catalog is enforced by the expanded filters.
  lemma {:induction false} EntryEnforced(entries: seq<Entry>, e: Entry)
    requires e in entries
    ensures
      var filters := AllInput(entries) + Reversed(AllOutput(entries));
      if e.source.closed then RefusesChosen(filters, e.check.header)
      else
        && (e.check.request ==> exists f :: f in filters && CallsFor(f, e) && f.request)
        && (e.check.response ==> exists f :: f in filters && CallsFor(f, e) && f.response)
  {
    var filters := AllInput(entries) + Reversed(AllOutput(entries));
    InReversed(AllOutput(entries));
    if e.source.closed || e.check.request {
      var f := InputFilters(e)[0];
      FiltersOfEntry(entries, e, f);
      assert f in filters;
    }
    if !e.source.closed && e.check.response {
      var f := OutputFilters(e)[0];
      FiltersOfEntry(entries, e, f);
      assert f in filters;
    }
  }

  // The entry of a selected check, as the pinned catalog lists it.
  function ListedEntry(header: (string, string) -> string, p: Policy, c: PolicyCheck, outputUnsupported: bool,
                       infra: string): Entry {
    var callout := CalloutOf(header, p, outputUnsupported);
    var check := if callout.closed then ClosedCheck(c.name, header(p.name, c.name)) else OpenCheck(header, p, c);
    PinnedEntry(EntryOf(callout, check), infra)
  }

  lemma {:induction false} SelectedIsListed(header: (string, string) -> string, policies: seq<Policy>,
                                            refs: seq<AttachmentRef>,
                                 tenant: string, outputUnsupported: bool, infra: string, p: Policy, c: PolicyCheck)
    requires WellNamedPolicies(policies) && p in policies && c in p.checks && c.name != ""
    requires Selected(refs, tenant, p.name, c.name)
    ensures
      var ordered := Ordered(Visits(CalloutsOf(header, policies, refs, tenant, outputUnsupported), refs, tenant), {});
      ListedEntry(header, p, c, outputUnsupported, infra) in Flatten(PinAll(ordered, infra))
  {
    var callouts := CalloutsOf(header, policies, refs, tenant, outputUnsupported);
    var ordered := Ordered(Visits(callouts, refs, tenant), {});
    var callout := CalloutOf(header, p, outputUnsupported);
    var k :| 0 <= k < |policies| && policies[k] == p;
    assert DistinctChecks(policies[k].checks);
    CalloutHasChecks(header, p, outputUnsupported, c);
    var check := if callout.closed then ClosedCheck(c.name, header(p.name, c.name)) else OpenCheck(header, p, c);
    CalloutsOfWellNamed(header, policies, refs, tenant, outputUnsupported);
    CalloutsOfComplete(header, policies, refs, tenant, outputUnsupported, k);
    CatalogIsExact(callouts, refs, tenant, callout, check);
    PinKeepsEveryEntry(ordered, infra, EntryOf(callout, check));
  }

  lemma {:induction false} ListedIsEnforced(header: (string, string) -> string, entries: seq<Entry>,
                                            outputUnsupported: bool, infra: string, p: Policy, c: PolicyCheck)
    requires ListedEntry(header, p, c, outputUnsupported, infra) in entries
    ensures
      var filters := AllInput(entries) + Reversed(AllOutput(entries));
      if MayCall(p, outputUnsupported, infra) then CallsEachPhase(filters, p, header(p.name, c.name), c)
      else RefusesChosen(filters, header(p.name, c.name))
  {
    var e := ListedEntry(header, p, c, outputUnsupported, infra);
    EntryEnforced(entries, e);
    MayCallIffOpen(header, p, outputUnsupported, infra);
    if MayCall(p, outputUnsupported, infra) {
      assert forall f :: CallsFor(f, e) ==> Calls(f, p, header(p.name, c.name), c);
    }
  }

  // Whenever the catalog is produced, every named check an attachment selects,
  // or that an unreadable entry may select, is enforced by the compiled
  // filters: ordering, pinning and expanding lose nothing and reopen nothing.
  // A policy that may call has its own service called, as it asks to be; any
  // other has its checks refused.
  lemma {:induction false} NothingSelectedIsDropped(header: (string, string) -> string, policies: seq<Policy>,
                                                    refs: seq<AttachmentRef>,
                                 tenant: string, outputUnsupported: bool, infra: string, p: Policy, c: PolicyCheck)
    requires WellNamedPolicies(policies) && p in policies && c in p.checks && c.name != ""
    requires Selected(refs, tenant, p.name, c.name)
    ensures
      var ordered := Ordered(Visits(CalloutsOf(header, policies, refs, tenant, outputUnsupported), refs, tenant), {});
      var pinned := PinAll(ordered, infra);
      var filters := AllInput(Flatten(pinned)) + Reversed(AllOutput(Flatten(pinned)));
      if MayCall(p, outputUnsupported, infra) then
        && CallsEachPhase(filters, p, header(p.name, c.name), c)
        && (Expandable(pinned) ==> p.provider.checksUrl.Some?)
      else RefusesChosen(filters, header(p.name, c.name))
  {
    var ordered := Ordered(Visits(CalloutsOf(header, policies, refs, tenant, outputUnsupported), refs, tenant), {});
    SelectedIsListed(header, policies, refs, tenant, outputUnsupported, infra, p, c);
    ListedIsEnforced(header, Flatten(PinAll(ordered, infra)), outputUnsupported, infra, p, c);
    EntryIsReachable(PinAll(ordered, infra), ListedEntry(header, p, c, outputUnsupported, infra));
    MayCallIffOpen(header, p, outputUnsupported, infra);
  }

  // ----- and nothing else is compiled -----

  lemma {:induction false} FilterHasEntry(entries: seq<Entry>, f: Filter) returns (e: Entry)
    requires f in AllInput(entries) || f in AllOutput(entries)
    ensures e in entries && (f in InputFilters(e) || f in OutputFilters(e))
  {
    e := entries[0];
    if !(f in InputFilters(e) || f in OutputFilters(e)) {
      e := FilterHasEntry(entries[1..], f);
    }
  }

  lemma {:induction false} PinnedHasEntry(callouts: seq<Callout>, infra: string, e: Entry) returns (was: Entry)
    requires e in Flatten(PinAll(callouts, infra))
    ensures was in Flatten(callouts) && e == PinnedEntry(was, infra)
  {
    var c, pinned := callouts[0], Pinned(callouts[0], infra);
    assert PinAll(callouts, infra)[1..] == PinAll(callouts[1..], infra);
    WantedMembers(pinned, pinned.checks, [], e);
    if e in Wanted(pinned, pinned.checks, []) {
      var i :| 0 <= i < |pinned.checks| && pinned.checks[i] == e.check;
      was := EntryOf(c, c.checks[i]);
      WantedMembers(c, c.checks, [], was);
    } else {
      was := PinnedHasEntry(callouts[1..], infra, e);
    }
  }

  lemma {:induction false} CheckHasSource(header: (string, string) -> string, p: Policy, outputUnsupported: bool,
                                          check: Check) returns (c: PolicyCheck)
    requires check in CalloutOf(header, p, outputUnsupported).checks
    ensures c in p.checks && check.name == c.name
    ensures check == if CalloutOf(header, p, outputUnsupported).closed then ClosedCheck(c.name, header(p.name, c.name))
                     else OpenCheck(header, p, c)
  {
    var callout := CalloutOf(header, p, outputUnsupported);
    var checks := if callout.closed then NamedOnly(p.checks) else p.checks;
    var i :| 0 <= i < |callout.checks| && callout.checks[i] == check;
    c := checks[i];
    NamedOnlyKeeps(p.checks, c);
  }

  lemma {:induction false} ListedHasPolicy(header: (string, string) -> string, policies: seq<Policy>,
                                           refs: seq<AttachmentRef>, tenant: string, outputUnsupported: bool, e: Entry)
    returns (p: Policy, c: PolicyCheck)
    requires WellNamedPolicies(policies)
    requires e in Flatten(Ordered(Visits(CalloutsOf(header, policies, refs, tenant, outputUnsupported), refs, tenant),
                                  {}))
    ensures p in policies && c in p.checks && Selected(refs, tenant, p.name, c.name)
    ensures var callout := CalloutOf(header, p, outputUnsupported);
      e == EntryOf(callout, if callout.closed then ClosedCheck(c.name, header(p.name, c.name))
                            else OpenCheck(header, p, c))
  {
    var callouts := CalloutsOf(header, policies, refs, tenant, outputUnsupported);
    CalloutsOfWellNamed(header, policies, refs, tenant, outputUnsupported);
    var callout := EntryHasCallout(callouts, refs, tenant, e);
    var k :| 0 <= k < |callouts| && callouts[k] == callout;
    var i := CalloutsOfSource(header, policies, refs, tenant, outputUnsupported, k);
    p := policies[i];
    c := CheckHasSource(header, p, outputUnsupported, e.check);
  }

  // A filter of a check: its refusal, or a call of the policy's service for one
  // of the phases it asks for.
  predicate FilterOf(f: Filter, p: Policy, header: string, check: PolicyCheck, mayCall: bool) {
    if mayCall then
      && Calls(f, p, header, check)
      && ((f.request && !f.response && Input in check.phases) || (f.response && !f.request && Output in check.phases))
    else f == Filter("", "", header, false, 0, true, false, true)
  }

  lemma {:induction false} PinnedFilters(header: (string, string) -> string, p: Policy, c: PolicyCheck,
                                         outputUnsupported: bool, infra: string, f: Filter)
    requires var e := ListedEntry(header, p, c, outputUnsupported, infra); f in InputFilters(e) || f in OutputFilters(e)
    ensures FilterOf(f, p, header(p.name, c.name), c, MayCall(p, outputUnsupported, infra))
  {
    MayCallIffOpen(header, p, outputUnsupported, infra);
  }

  // Every compiled filter is there for a check that some attachment selects.
  lemma {:induction false} NothingElseIsCompiled(header: (string, string) -> string, policies: seq<Policy>,
                                                 refs: seq<AttachmentRef>, tenant: string, outputUnsupported: bool,
                                                 infra: string, f: Filter) returns (p: Policy, c: PolicyCheck)
    requires WellNamedPolicies(policies)
    requires
      var ordered := Ordered(Visits(CalloutsOf(header, policies, refs, tenant, outputUnsupported), refs, tenant), {});
      var entries := Flatten(PinAll(ordered, infra));
      f in AllInput(entries) || f in AllOutput(entries)
    ensures p in policies && c in p.checks && Selected(refs, tenant, p.name, c.name)
    ensures FilterOf(f, p, header(p.name, c.name), c, MayCall(p, outputUnsupported, infra))
  {
    var ordered := Ordered(Visits(CalloutsOf(header, policies, refs, tenant, outputUnsupported), refs, tenant), {});
    var e := FilterHasEntry(Flatten(PinAll(ordered, infra)), f);
    var was := PinnedHasEntry(ordered, infra, e);
    p, c := ListedHasPolicy(header, policies, refs, tenant, outputUnsupported, was);
    PinnedFilters(header, p, c, outputUnsupported, infra, f);
  }

  lemma {:induction false} MayCallIffOpen(header: (string, string) -> string, p: Policy, outputUnsupported: bool,
                                          infra: string)
    ensures MayCall(p, outputUnsupported, infra) <==>
      var callout := CalloutOf(header, p, outputUnsupported);
      !callout.closed && infra != "" && callout.serviceNamespace == infra
  {
    forall c: PolicyCheck
      ensures Compilable(c) <==>
        c.configId != "" && (Input in c.phases || Output in c.phases) && OtherPhase !in c.phases
    {
      if Compilable(c) { assert c.phases[0] in c.phases; }
    }
    assert forall i :: 0 <= i < |p.checks| ==> p.checks[i] in p.checks;
  }

  lemma {:induction false} EntryIsReachable(callouts: seq<Callout>, e: Entry)
    requires e in Flatten(callouts)
    ensures AllReachable(callouts) ==> e.source.closed || e.source.endpoint.Some?
  {
    WantedMembers(callouts[0], callouts[0].checks, [], e);
    if e in Wanted(callouts[0], callouts[0].checks, []) {
      assert callouts[0] in callouts;
    } else {
      EntryIsReachable(callouts[1..], e);
    }
  }

  lemma {:induction false} InReversed(s: seq<Filter>)
    ensures forall f :: f in s ==> f in Reversed(s)
  {
    forall f | f in s ensures f in Reversed(s) {
      var i :| 0 <= i < |s| && s[i] == f;
      assert Reversed(s)[|s| - 1 - i] == f;
    }
  }

  /******* The compiled chain *******/

  // An entry of the post-auth chain. Original entries are opaque: name is the
  // filter's name and id tells two of them apart.
  datatype ChainEntry =
    | Original(name: string, id: nat)
    | Refuse(header: string)
    | Guard(filter: Filter)
    | RemoveHeaders(headers: seq<string>)

  function FilterEntry(f: Filter): ChainEntry {
    if f.closed then Refuse(f.header) else Guard(f)
  }

  function FilterEntries(filters: seq<Filter>): (r: seq<ChainEntry>)
    ensures |r| == |filters| && forall i :: 0 <= i < |r| ==> r[i] == FilterEntry(filters[i])
  {
    if filters == [] then [] else [FilterEntry(filters[0])] + FilterEntries(filters[1..])
  }

  predicate IsRequestId(e: ChainEntry) {
    e.Original? && e.name == "request_id"
  }

  // Position (c, i) holds the first request_id filter of the first chain that
  // has one.
  ghost predicate FirstRequestId(chains: seq<seq<ChainEntry>>, c: int, i: int) {
    && 0 <= c < |chains| && 0 <= i < |chains[c]| && IsRequestId(chains[c][i])
    && (forall k :: 0 <= k < i ==> !IsRequestId(chains[c][k]))
    && (forall b, k :: 0 <= b < c && 0 <= k < |chains[b]| ==> !IsRequestId(chains[b][k]))
  }

  ghost predicate InsertedAt(chains: seq<seq<ChainEntry>>, entries: seq<ChainEntry>, result: seq<seq<ChainEntry>>,
                             c: int, i: int) {
    FirstRequestId(chains, c, i) && result == chains[c := chains[c][..i + 1] + entries + chains[c][i + 1..]]
  }

  predicate NoRequestId(chains: seq<seq<ChainEntry>>) {
    forall c, i :: 0 <= c < |chains| && 0 <= i < |chains[c]| ==> !IsRequestId(chains[c][i])
  }

  method InsertAfterRequestId(chains: seq<seq<ChainEntry>>,
                              entries: seq<ChainEntry>) returns (result: Option<seq<seq<ChainEntry>>>)
    ensures result.None? <==> NoRequestId(chains)
    ensures result.Some? ==> exists c, i :: InsertedAt(chains, entries, result.value, c, i)
  {
    for c := 0 to |chains|
      invariant forall b, k :: 0 <= b < c && 0 <= k < |chains[b]| ==> !IsRequestId(chains[b][k])
    {
      for i := 0 to |chains[c]|
        invariant forall k :: 0 <= k < i ==> !IsRequestId(chains[c][k])
      {
        if IsRequestId(chains[c][i]) {
          var out := chains[c := chains[c][..i + 1] + entries + chains[c][i + 1..]];
          assert InsertedAt(chains, entries, out, c, i);
          return Some(out);
        }
      }
    }
    return None;
  }

  function HeadersOf(filters: seq<Filter>): set<string> {
    set f | f in filters :: f.header
  }

  lemma {:induction false} HeadersOfMore(filters: seq<Filter>, f: Filter)
    ensures HeadersOf(filters + [f]) == HeadersOf(filters) + {f.header}
  {
    assert forall x :: x in filters + [f] <==> x in filters || x == f;
    assert f in filters + [f];
  }

  // Each filter in place, then one removal of exactly their headers.
  method CompileFilters(filters: seq<Filter>) returns (compiled: seq<ChainEntry>, headers: seq<string>)
    ensures compiled == FilterEntries(filters) + [RemoveHeaders(headers)]
    ensures (set x | x in headers) == HeadersOf(filters)
  {
    compiled, headers := [], [];
    for i := 0 to |filters|
      invariant |compiled| == i && forall k :: 0 <= k < i ==> compiled[k] == FilterEntry(filters[k])
      invariant (set x | x in headers) == HeadersOf(filters[..i])
    {
      assert filters[..i + 1] == filters[..i] + [filters[i]];
      HeadersOfMore(filters[..i], filters[i]);
      compiled := compiled + [FilterEntry(filters[i])];
      if filters[i].header !in headers {
        assert (set x | x in headers + [filters[i].header]) == (set x | x in headers) + {filters[i].header};
        headers := headers + [filters[i].header];
      }
    }
    assert filters[..|filters|] == filters;
    assert compiled == FilterEntries(filters);
    compiled := compiled + [RemoveHeaders(headers)];
  }

  // The headers that select the catalog's checks.
  function SelectionHeaders(entries: seq<Entry>): set<string> {
    HeadersOf(AllInput(entries) + Reversed(AllOutput(entries)))
  }

  // The document has the compiled catalog right after its first request_id
  // filter, and exactly the selection headers are removed.
  ghost predicate Compiles(chains: seq<seq<ChainEntry>>, callouts: seq<Callout>, headers: seq<string>,
                           result: seq<seq<ChainEntry>>) {
    && (set x | x in headers) == SelectionHeaders(Flatten(callouts))
    && exists c, i :: InsertedAt(chains, CompiledEntries(Flatten(callouts), headers), result, c, i)
  }

  method CompileNemoExtproc(chains: seq<seq<ChainEntry>>, callouts: seq<Callout>)
    returns (result: Option<seq<seq<ChainEntry>>>, ghost headers: seq<string>)
    ensures callouts == [] ==> result == Some(chains)
    ensures result.None? <==> callouts != [] && (!Expandable(callouts) || NoRequestId(chains))
    ensures result.Some? && callouts != [] ==> Compiles(chains, callouts, headers, result.value)
  {
    headers := [];
    if callouts == [] {
      return Some(chains), headers;
    }
    var filters := ExpandNemoChecks(callouts);
    if filters.None? {
      return None, headers;
    }
    var compiled;
    compiled, headers := CompileFilters(filters.value);
    assert compiled == CompiledEntries(Flatten(callouts), headers);
    result := InsertAfterRequestId(chains, compiled);
  }

  function CompiledEntries(entries: seq<Entry>, headers: seq<string>): seq<ChainEntry> {
    FilterEntries(AllInput(entries) + Reversed(AllOutput(entries))) + [RemoveHeaders(headers)]
  }

  /******* Walking a chain *******/

  type Headers = map<string, string>

  datatype Event =
    | Ran(entry: ChainEntry, seen: Headers)
    | Refused(header: string)
    | Called(call: Call)
    | RanBack(entry: ChainEntry)

  // What is outside the compiled filters: an original filter's effect on the
  // headers, None when it ends the request, and NeMo's verdict on a call.
  datatype World = World(run: (ChainEntry, Headers) -> Option<Headers>, allow: Call -> bool)

  // One request to a NeMo service, as the service gets it: where it goes, the
  // configuration it names, whether it carries a token, how long it may take,
  // and whether it shows the request or the response.
  datatype Call = Call(endpoint: string, configId: string, authenticated: bool, timeout: int, response: bool)

  predicate Chosen(h: Headers, header: string) {
    header in h && h[header] == "true"
  }

  // headers is None once the request was ended.
  datatype Walk = Walk(events: seq<Event>, headers: Option<Headers>)

  function StepForward(w: World, e: ChainEntry, h: Headers): Walk {
    match e
    case Original(_, _) => Walk([Ran(e, h)], w.run(e, h))
    case Refuse(header) => if Chosen(h, header) then Walk([Refused(header)], None) else Walk([], Some(h))
    case Guard(f) =>
      if !f.request || !Chosen(h, f.header) then Walk([], Some(h))
      else
        var call := Call(f.endpoint, f.configId, f.authenticated, f.timeout, false);
        Walk([Called(call)], if w.allow(call) then Some(h) else None)
    case RemoveHeaders(headers) => Walk([], Some(h - set x | x in headers))
  }

  function Forward(w: World, chain: seq<ChainEntry>, h: Headers): Walk {
    if chain == [] then Walk([], Some(h))
    else
      var first := StepForward(w, chain[0], h);
      if first.headers.None? then first
      else
        var rest := Forward(w, chain[1..], first.headers.value);
        Walk(first.events + rest.events, rest.headers)
  }

  // ok is false once a response was refused.
  datatype Reply = Reply(events: seq<Event>, ok: bool)

  // A response hook runs when its condition held on the request.
  function StepBackward(w: World, e: ChainEntry, h: Headers): Reply {
    match e
    case Original(_, _) => Reply([RanBack(e)], true)
    case Guard(f) =>
      if !f.response || !Chosen(h, f.header) then Reply([], true)
      else
        var call := Call(f.endpoint, f.configId, f.authenticated, f.timeout, true);
        Reply([Called(call)], w.allow(call))
    case _ => Reply([], true)
  }

  // The response walk, from the end of the chain to its start; h is what the
  // chain's first filter saw on the request.
  function Backward(w: World, chain: seq<ChainEntry>, h: Headers): Reply {
    if chain == [] then Reply([], true)
    else
      var passed := StepForward(w, chain[0], h).headers;
      var rest := if passed.Some? then Backward(w, chain[1..], passed.value) else Reply([], true);
      if !rest.ok then rest
      else
        var own := StepBackward(w, chain[0], h);
        Reply(rest.events + own.events, own.ok)
  }

  /******* What the catalog means *******/

  // The URL a callout's checks are sent to; one that does not parse stops the
  // compilation.
  function Url(c: Callout): string {
    match c.endpoint case Some(url) => url case None => ""
  }

  // The chosen input and closed checks in catalog order, until one refuses.
  function InputMeaning(w: World, entries: seq<Entry>, h: Headers): Walk {
    if entries == [] then Walk([], Some(h))
    else
      var e := entries[0];
      if !Chosen(h, e.check.header) || (!e.source.closed && !e.check.request) then InputMeaning(w, entries[1..], h)
      else if e.source.closed then Walk([Refused(e.check.header)], None)
      else
        var call := Call(Url(e.source), e.check.configId, e.source.authenticated, e.source.timeout, false);
        var rest := InputMeaning(w, entries[1..], h);
        if w.allow(call) then Walk([Called(call)] + rest.events, rest.headers) else Walk([Called(call)], None)
  }

  // The chosen output checks in catalog order, until one refuses.
  function OutputMeaning(w: World, entries: seq<Entry>, h: Headers): Reply {
    if entries == [] then Reply([], true)
    else
      var e := entries[0];
      if e.source.closed || !e.check.response || !Chosen(h, e.check.header) then OutputMeaning(w, entries[1..], h)
      else
        var call := Call(Url(e.source), e.check.configId, e.source.authenticated, e.source.timeout, true);
        var rest := OutputMeaning(w, entries[1..], h);
        if w.allow(call) then Reply([Called(call)] + rest.events, rest.ok) else Reply([Called(call)], false)
  }

  lemma {:induction false} ForwardConcat(w: World, a: seq<ChainEntry>, b: seq<ChainEntry>, h: Headers)
    ensures Forward(w, a + b, h) ==
      var first := Forward(w, a, h);
      if first.headers.None? then first
      else
        var rest := Forward(w, b, first.headers.value);
        Walk(first.events + rest.events, rest.headers)
  {
    if a == [] {
      assert a + b == b;
      assert [] + Forward(w, b, h).events == Forward(w, b, h).events;
    } else {
      assert (a + b)[1..] == a[1..] + b;
      var step := StepForward(w, a[0], h);
      if step.headers.Some? {
        ForwardConcat(w, a[1..], b, step.headers.value);
        var mid := Forward(w, a[1..], step.headers.value);
        if mid.headers.Some? {
          var rest := Forward(w, b, mid.headers.value);
          assert step.events + (mid.events + rest.events) == (step.events + mid.events) + rest.events;
        }
      }
    }
  }

  lemma {:induction false} BackwardConcat(w: World, a: seq<ChainEntry>, b: seq<ChainEntry>, h: Headers)
    requires Forward(w, a, h).headers.Some?
    ensures Backward(w, a + b, h) ==
      var rest := Backward(w, b, Forward(w, a, h).headers.value);
      if !rest.ok then rest
      else Reply(rest.events + Backward(w, a, h).events, Backward(w, a, h).ok)
  {
    if a == [] {
      assert a + b == b;
      assert Backward(w, b, h).events + [] == Backward(w, b, h).events;
    } else {
      assert (a + b)[1..] == a[1..] + b;
      var step := StepForward(w, a[0], h);
      BackwardConcat(w, a[1..], b, step.headers.value);
      var rest := Backward(w, b, Forward(w, a, h).headers.value);
      var mid := Backward(w, a[1..], step.headers.value);
      var own := StepBackward(w, a[0], h);
      assert rest.events + (mid.events + own.events) == (rest.events + mid.events) + own.events;
    }
  }

  lemma {:induction false} FilterEntriesConcat(a: seq<Filter>, b: seq<Filter>)
    ensures FilterEntries(a + b) == FilterEntries(a) + FilterEntries(b)
  {
  }

  lemma {:induction false} OneFilterForward(w: World, f: Filter, rest: seq<Filter>, h: Headers)
    ensures Forward(w, FilterEntries([f] + rest), h) ==
      var first := StepForward(w, FilterEntry(f), h);
      if first.headers.None? then first
      else
        var later := Forward(w, FilterEntries(rest), first.headers.value);
        Walk(first.events + later.events, later.headers)
  {
    assert ([f] + rest)[1..] == rest;
    assert FilterEntries([f] + rest)[1..] == FilterEntries(rest);
  }

  lemma {:induction false} InputFiltersMean(w: World, entries: seq<Entry>, h: Headers)
    ensures Forward(w, FilterEntries(AllInput(entries)), h) == InputMeaning(w, entries, h)
  {
    if entries != [] {
      var own, rest := InputFilters(entries[0]), AllInput(entries[1..]);
      InputFiltersMean(w, entries[1..], h);
      if own != [] {
        assert own == [own[0]];
        OneFilterForward(w, own[0], rest, h);
      } else {
        assert own + rest == rest;
      }
      assert [] + InputMeaning(w, entries[1..], h).events == InputMeaning(w, entries[1..], h).events;
    }
  }

  // Response filters do nothing on the request.
  lemma {:induction false} OutputFiltersPass(w: World, filters: seq<Filter>, h: Headers)
    requires forall f :: f in filters ==> !f.request && !f.closed
    ensures Forward(w, FilterEntries(filters), h) == Walk([], Some(h))
  {
    if filters != [] {
      OutputFiltersPass(w, filters[1..], h);
      assert FilterEntries(filters)[1..] == FilterEntries(filters[1..]);
    }
  }

  // Request filters do nothing on the response.
  lemma {:induction false} InputFiltersSilentBack(w: World, filters: seq<Filter>, h: Headers)
    requires forall f :: f in filters ==> !f.response
    ensures Backward(w, FilterEntries(filters), h) == Reply([], true)
  {
    if filters != [] {
      assert FilterEntries(filters)[1..] == FilterEntries(filters[1..]);
      InputFiltersSilentBack(w, filters[1..], h);
      var passed := StepForward(w, FilterEntry(filters[0]), h).headers;
      assert passed.Some? ==> passed.value == h;
    }
  }

  lemma {:induction false} AllFiltersPhases(entries: seq<Entry>)
    ensures forall f :: f in AllInput(entries) ==> !f.response
    ensures forall f :: f in AllOutput(entries) ==> !f.request && !f.closed
  {
    if entries != [] { AllFiltersPhases(entries[1..]); }
  }

  lemma {:induction false} ReversedMembers(s: seq<Filter>)
    ensures forall f :: f in Reversed(s) ==> f in s
  {
    if s != [] { ReversedMembers(s[1..]); }
  }

  lemma {:induction false} ReversedConcat(a: seq<Filter>, b: seq<Filter>)
    ensures Reversed(a + b) == Reversed(b) + Reversed(a)
  {
    if a == [] {
      assert a + b == b;
    } else {
      assert (a + b)[1..] == a[1..] + b;
      ReversedConcat(a[1..], b);
    }
  }

  // Walking back over reversed response filters runs the first one first.
  lemma {:induction false} LastRunsFirst(w: World, f: Filter, rest: seq<Filter>, h: Headers)
    requires f.response && !f.closed && forall g :: g in rest ==> !g.request && !g.closed
    ensures Backward(w, FilterEntries(Reversed([f] + rest)), h) ==
      var own := StepBackward(w, Guard(f), h);
      var later := Backward(w, FilterEntries(Reversed(rest)), h);
      if !own.ok then own else Reply(own.events + later.events, later.ok)
  {
    ReversedConcat([f], rest);
    FilterEntriesConcat(Reversed(rest), [f]);
    assert Reversed([f]) == [f];
    ReversedMembers(rest);
    OutputFiltersPass(w, Reversed(rest), h);
    BackwardConcat(w, FilterEntries(Reversed(rest)), [Guard(f)], h);
    assert FilterEntries([f]) == [Guard(f)];
    assert [Guard(f)][1..] == [];
    var own := StepBackward(w, Guard(f), h);
    assert [] + own.events == own.events;
  }

  lemma {:induction false} OwnOutput(w: World, e: Entry, h: Headers)
    requires !e.source.closed && e.check.response
    ensures |OutputFilters(e)| == 1 && OutputFilters(e)[0].response && !OutputFilters(e)[0].closed
    ensures StepBackward(w, Guard(OutputFilters(e)[0]), h) ==
      var call := Call(Url(e.source), e.check.configId, e.source.authenticated, e.source.timeout, true);
      if Chosen(h, e.check.header) then Reply([Called(call)], w.allow(call)) else Reply([], true)
  {
  }

  // The output check of one entry, before those of the rest.
  lemma {:induction false} OutputStepMeans(w: World, e: Entry, rest: seq<Filter>, later: Reply, h: Headers)
    requires !e.source.closed && e.check.response && forall g :: g in rest ==> !g.request && !g.closed
    requires Backward(w, FilterEntries(Reversed(rest)), h) == later
    ensures Backward(w, FilterEntries(Reversed(OutputFilters(e) + rest)), h) ==
      var call := Call(Url(e.source), e.check.configId, e.source.authenticated, e.source.timeout, true);
      if !Chosen(h, e.check.header) then later
      else if !w.allow(call) then Reply([Called(call)], false)
      else Reply([Called(call)] + later.events, later.ok)
  {
    var f := OutputFilters(e)[0];
    OwnOutput(w, e, h);
    LastRunsFirst(w, f, rest, h);
    assert OutputFilters(e) == [f] && [] + later.events == later.events;
  }

  // Placed in reverse and walked backwards, the response checks run in
  // catalog order.
  lemma {:induction false} OutputFiltersMean(w: World, entries: seq<Entry>, h: Headers)
    ensures Backward(w, FilterEntries(Reversed(AllOutput(entries))), h) == OutputMeaning(w, entries, h)
  {
    if entries != [] {
      var e, rest := entries[0], entries[1..];
      OutputFiltersMean(w, rest, h);
      if !e.source.closed && e.check.response {
        AllFiltersPhases(rest);
        OutputStepMeans(w, e, AllOutput(rest), OutputMeaning(w, rest, h), h);
      } else {
        assert OutputFilters(e) + AllOutput(rest) == AllOutput(rest);
      }
    }
  }

  lemma {:induction false} InputMeaningKeepsHeaders(w: World, entries: seq<Entry>, h: Headers)
    ensures InputMeaning(w, entries, h).headers.Some? ==> InputMeaning(w, entries, h).headers.value == h
  {
    if entries != [] { InputMeaningKeepsHeaders(w, entries[1..], h); }
  }

  lemma {:induction false} ThreePartsForward(w: World, input: seq<ChainEntry>, output: seq<ChainEntry>,
                                             headers: seq<string>,
                                             h: Headers, meaning: Walk)
    requires Forward(w, input, h) == meaning && (meaning.headers.Some? ==> meaning.headers.value == h)
    requires Forward(w, output, h) == Walk([], Some(h))
    ensures Forward(w, input + (output + [RemoveHeaders(headers)]), h)
         == Walk(meaning.events, if meaning.headers.None? then None else Some(h - set x | x in headers))
  {
    var remove := [RemoveHeaders(headers)];
    ForwardConcat(w, input, output + remove, h);
    ForwardConcat(w, output, remove, h);
    assert remove[1..] == [];
    assert Forward(w, remove, h) == Walk([], Some(h - set x | x in headers));
    assert meaning.events + [] == meaning.events;
  }

  lemma {:induction false} ThreePartsBackward(w: World, input: seq<ChainEntry>, output: seq<ChainEntry>,
                                              headers: seq<string>,
                                              h: Headers, meaning: Reply)
    requires Forward(w, input, h).headers == Some(h) && Backward(w, input, h) == Reply([], true)
    requires Forward(w, output, h) == Walk([], Some(h)) && Backward(w, output, h) == meaning
    ensures Backward(w, input + (output + [RemoveHeaders(headers)]), h) == meaning
  {
    var remove := [RemoveHeaders(headers)];
    BackwardConcat(w, input, output + remove, h);
    BackwardConcat(w, output, remove, h);
    assert remove[1..] == [];
    assert Backward(w, remove, h) == Reply([], true);
    assert [] + meaning.events == meaning.events && meaning.events + [] == meaning.events;
  }

  lemma {:induction false} CompiledParts(w: World, entries: seq<Entry>, headers: seq<string>, h: Headers)
    ensures CompiledEntries(entries, headers)
         == FilterEntries(AllInput(entries)) + (FilterEntries(Reversed(AllOutput(entries))) + [RemoveHeaders(headers)])
    ensures Forward(w, FilterEntries(Reversed(AllOutput(entries))), h) == Walk([], Some(h))
  {
    FilterEntriesConcat(AllInput(entries), Reversed(AllOutput(entries)));
    AllFiltersPhases(entries);
    ReversedMembers(AllOutput(entries));
    OutputFiltersPass(w, Reversed(AllOutput(entries)), h);
  }

  // The compiled entries on a request: exactly the chosen input and closed
  // checks, then the selection headers are gone.
  lemma {:induction false} CompiledForward(w: World, entries: seq<Entry>, headers: seq<string>, h: Headers)
    ensures Forward(w, CompiledEntries(entries, headers), h) ==
      var meaning := InputMeaning(w, entries, h);
      Walk(meaning.events, if meaning.headers.None? then None else Some(h - set x | x in headers))
  {
    CompiledParts(w, entries, headers, h);
    InputFiltersMean(w, entries, h);
    InputMeaningKeepsHeaders(w, entries, h);
    ThreePartsForward(w, FilterEntries(AllInput(entries)), FilterEntries(Reversed(AllOutput(entries))), headers, h,
                      InputMeaning(w, entries, h));
  }

  // On the response of a request they let through: exactly the chosen output
  // checks.
  lemma {:induction false} CompiledBackward(w: World, entries: seq<Entry>, headers: seq<string>, h: Headers)
    requires InputMeaning(w, entries, h).headers.Some?
    ensures Backward(w, CompiledEntries(entries, headers), h) == OutputMeaning(w, entries, h)
  {
    CompiledParts(w, entries, headers, h);
    InputFiltersMean(w, entries, h);
    InputMeaningKeepsHeaders(w, entries, h);
    OutputFiltersMean(w, entries, h);
    InputSilent(w, entries, h);
    ThreePartsBackward(w, FilterEntries(AllInput(entries)), FilterEntries(Reversed(AllOutput(entries))), headers, h,
                       OutputMeaning(w, entries, h));
  }

  lemma {:induction false} InputSilent(w: World, entries: seq<Entry>, h: Headers)
    ensures Backward(w, FilterEntries(AllInput(entries)), h) == Reply([], true)
  {
    AllFiltersPhases(entries);
    InputFiltersSilentBack(w, AllInput(entries), h);
  }

  // What a chain with the catalog between pre and post does to a request: the
  // filters before, the catalog's chosen input and closed checks in order, then
  // the filters after, without the dropped headers.
  ghost predicate WalksForwardAs(w: World, pre: seq<ChainEntry>, entries: seq<Entry>, post: seq<ChainEntry>,
                                 dropped: set<string>, chain: seq<ChainEntry>, h: Headers) {
    var before := Forward(w, pre, h);
    if before.headers.None? then Forward(w, chain, h) == before
    else
      var meaning := InputMeaning(w, entries, before.headers.value);
      if meaning.headers.None? then Forward(w, chain, h) == Walk(before.events + meaning.events, None)
      else
        var after := Forward(w, post, before.headers.value - dropped);
        Forward(w, chain, h) == Walk(before.events + meaning.events + after.events, after.headers)
  }

  // And to the response of a request that was let through: the filters after,
  // the catalog's chosen output checks in order, then the filters before.
  ghost predicate WalksBackAs(w: World, pre: seq<ChainEntry>, entries: seq<Entry>, post: seq<ChainEntry>,
                              dropped: set<string>, chain: seq<ChainEntry>, h: Headers) {
    var before := Forward(w, pre, h);
    before.headers.Some? && Forward(w, chain, h).headers.Some? ==>
      var back := Backward(w, post, before.headers.value - dropped);
      var checked := OutputMeaning(w, entries, before.headers.value);
      var front := Backward(w, pre, h);
      Backward(w, chain, h) ==
        if !back.ok then back
        else if !checked.ok then Reply(back.events + checked.events, false)
        else Reply(back.events + checked.events + front.events, front.ok)
  }

  // Compilation preserves meaning, for every set of selected headers, every
  // verdict and every behaviour of the original filters.
  lemma {:induction false} CompilationPreservesMeaning(w: World, pre: seq<ChainEntry>, post: seq<ChainEntry>,
                                                       entries: seq<Entry>, headers: seq<string>, h: Headers)
    ensures
      var chain := pre + CompiledEntries(entries, headers) + post;
      var dropped := set x | x in headers;
      && WalksForwardAs(w, pre, entries, post, dropped, chain, h)
      && WalksBackAs(w, pre, entries, post, dropped, chain, h)
  {
    var before := Forward(w, pre, h);
    if before.headers.Some? {
      var h1 := before.headers.value;
      var meaning := InputMeaning(w, entries, h1);
      CompiledForward(w, entries, headers, h1);
      AroundForward(w, pre, CompiledEntries(entries, headers), post, h);
      if meaning.headers.Some? {
        var stripped := h1 - set x | x in headers;
        var after := Forward(w, post, stripped);
        if after.headers.Some? {
          CompiledBackward(w, entries, headers, h1);
          AroundBackward(w, pre, CompiledEntries(entries, headers), post, h);
        }
      }
    } else {
      ForwardConcat(w, pre, CompiledEntries(entries, headers), h);
      ForwardConcat(w, pre + CompiledEntries(entries, headers), post, h);
    }
  }

  // The chain of the first request_id filter means the original chain with the
  // catalog right after that filter; the other chains are as they were.
  ghost predicate DocumentMeans(w: World, chains: seq<seq<ChainEntry>>, entries: seq<Entry>,
                                result: seq<seq<ChainEntry>>, h: Headers, c: int, i: int) {
    && FirstRequestId(chains, c, i) && |result| == |chains|
    && (forall d | 0 <= d < |chains| && d != c :: result[d] == chains[d])
    && WalksForwardAs(w, chains[c][..i + 1], entries, chains[c][i + 1..], SelectionHeaders(entries), result[c], h)
    && WalksBackAs(w, chains[c][..i + 1], entries, chains[c][i + 1..], SelectionHeaders(entries), result[c], h)
  }

  // What the compiler returns means the catalog.
  lemma {:induction false} CompiledDocumentMeans(w: World, chains: seq<seq<ChainEntry>>, callouts: seq<Callout>,
                                                 headers: seq<string>, result: seq<seq<ChainEntry>>, h: Headers)
    requires Compiles(chains, callouts, headers, result)
    ensures exists c, i :: DocumentMeans(w, chains, Flatten(callouts), result, h, c, i)
  {
    var c, i :| InsertedAt(chains, CompiledEntries(Flatten(callouts), headers), result, c, i);
    CompilationPreservesMeaning(w, chains[c][..i + 1], chains[c][i + 1..], Flatten(callouts), headers, h);
    assert DocumentMeans(w, chains, Flatten(callouts), result, h, c, i);
  }

  // A chain in three parts, on a request.
  lemma {:induction false} AroundForward(w: World, pre: seq<ChainEntry>, mid: seq<ChainEntry>, post: seq<ChainEntry>,
                                         h: Headers)
    requires Forward(w, pre, h).headers.Some?
    ensures
      var before := Forward(w, pre, h);
      var middle := Forward(w, mid, before.headers.value);
      Forward(w, pre + mid + post, h) ==
        if middle.headers.None? then Walk(before.events + middle.events, None)
        else
          var after := Forward(w, post, middle.headers.value);
          Walk(before.events + middle.events + after.events, after.headers)
  {
    var before := Forward(w, pre, h);
    ForwardConcat(w, pre, mid, h);
    ForwardConcat(w, pre + mid, post, h);
  }

  // On a response.
  lemma {:induction false} AroundBackward(w: World, pre: seq<ChainEntry>, mid: seq<ChainEntry>, post: seq<ChainEntry>,
                                          h: Headers)
    requires Forward(w, pre, h).headers.Some? && Forward(w, mid, Forward(w, pre, h).headers.value).headers.Some?
    ensures
      var h1 := Forward(w, pre, h).headers.value;
      var back := Backward(w, post, Forward(w, mid, h1).headers.value);
      var middle := Backward(w, mid, h1);
      var front := Backward(w, pre, h);
      Backward(w, pre + mid + post, h) ==
        if !back.ok then back
        else if !middle.ok then Reply(back.events + middle.events, false)
        else Reply(back.events + middle.events + front.events, front.ok)
  {
    var h1 := Forward(w, pre, h).headers.value;
    ForwardConcat(w, pre, mid, h);
    BackwardConcat(w, pre, mid, h);
    BackwardConcat(w, pre + mid, post, h);
    var back := Backward(w, post, Forward(w, mid, h1).headers.value);
    var middle := Backward(w, mid, h1);
    var front := Backward(w, pre, h);
    assert back.events + (middle.events + front.events) == back.events + middle.events + front.events;
  }
}
