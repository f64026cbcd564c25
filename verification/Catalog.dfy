// Guardrail attachments: reading the lists, and ordering the checks they
// select from the broadest list to the narrowest.
module Catalog {
  import opened Wrappers
  import Ordering

  /******* Reading a guardrails list *******/

  datatype RawItem = Text(s: string) | NotText

  datatype RawChecks = NoChecks | NotAList | Items(items: seq<RawItem>)

  // An entry that is not an object, or one with the ref's name ("" when the
  // ref or its name cannot be read) and namespace.
  datatype RawEntry = NotAnObject | Object(name: string, namespace: string, checks: RawChecks)

  // An empty checks list selects every check. An unreadable entry may name any
  // policy of the tenant.
  datatype AttachmentRef = AttachmentRef(namespace: string, name: string, checks: seq<string>, unreadable: bool)

  const UNREADABLE := AttachmentRef("", "", [], true)

  function Texts(items: seq<RawItem>): seq<string> {
    if items == [] then []
    else (if items[0].Text? then [items[0].s] else []) + Texts(items[1..])
  }

  method StringList(checks: RawChecks) returns (names: Option<seq<string>>)
    ensures names.None? <==>
      checks.NotAList? || (checks.Items? && exists i :: 0 <= i < |checks.items| && checks.items[i].NotText?)
    ensures names.Some? ==> names.value == if checks.Items? then Texts(checks.items) else []
  {
    match checks
    case NoChecks => return Some([]);
    case NotAList => return None;
    case Items(items) =>
      var read := [];
      for i := 0 to |items|
        invariant forall k :: 0 <= k < i ==> items[k].Text?
        invariant read + Texts(items[i..]) == Texts(items)
      {
        assert items[i..][1..] == items[i + 1..];
        if items[i].NotText? {
          return None;
        }
        read := read + [items[i].s];
      }
      assert items[|items|..] == [];
      return Some(read);
  }

  // The reference that stands for an entry: what cannot be read selects more,
  // never less.
  ghost predicate Represents(ref: AttachmentRef, entry: RawEntry) {
    match entry
    case NotAnObject => ref == UNREADABLE
    case Object(name, namespace, checks) =>
      if name == "" then ref == UNREADABLE
      else
        && !ref.unreadable && ref.name == name && ref.namespace == namespace
        && ref.checks == if checks.Items? && (forall i :: 0 <= i < |checks.items| ==> checks.items[i].Text?)
             then Texts(checks.items) else []
  }

  ghost predicate Readable(entry: RawEntry) {
    && entry.Object? && entry.name != "" && !entry.checks.NotAList?
    && (entry.checks.Items? ==> forall i :: 0 <= i < |entry.checks.items| ==> entry.checks.items[i].Text?)
  }

  method ParseGuardrailRefs(raw: seq<RawEntry>) returns (refs: seq<AttachmentRef>, problems: nat)
    ensures |refs| == |raw| && forall i :: 0 <= i < |raw| ==> Represents(refs[i], raw[i])
    ensures problems == 0 <==> forall i :: 0 <= i < |raw| ==> Readable(raw[i])
  {
    refs, problems := [], 0;
    for i := 0 to |raw|
      invariant |refs| == i && forall k :: 0 <= k < i ==> Represents(refs[k], raw[k])
      invariant problems == 0 <==> forall k :: 0 <= k < i ==> Readable(raw[k])
    {
      match raw[i]
      case NotAnObject =>
        refs, problems := refs + [UNREADABLE], problems + 1;
      case Object(name, namespace, checks) =>
        if name == "" {
          refs, problems := refs + [UNREADABLE], problems + 1;
        } else {
          var names := StringList(checks);
          if names.None? {
            problems := problems + 1;
          }
          refs := refs + [AttachmentRef(namespace, name, if names.Some? then names.value else [], false)];
        }
    }
  }

  /******* Ordering the selected checks *******/

  datatype Check = Check(name: string, configId: string, header: string, request: bool, response: bool, closed: bool)

  // endpoint is the checks URL, None when the provider URL does not parse.
  datatype Callout = Callout(
    name: string, endpoint: Option<string>, serviceNamespace: string,
    authenticated: bool, timeout: int, closed: bool, checks: seq<Check>)

  predicate InTenant(ref: AttachmentRef, tenant: string) {
    !ref.unreadable && (ref.namespace == "" || ref.namespace == tenant)
  }

  predicate AnyUnreadable(refs: seq<AttachmentRef>) {
    exists i :: 0 <= i < |refs| && refs[i].unreadable
  }

  predicate Wants(wanted: seq<string>, check: string) {
    wanted == [] || check in wanted
  }

  // An entry selects a check when it cannot be read, or when it is for the
  // policy, in the tenant unless it says otherwise, and names the check or none.
  predicate Selects(ref: AttachmentRef, tenant: string, policy: string, check: string) {
    || ref.unreadable
    || (ref.name == policy && ref.namespace in {"", tenant} && (ref.checks == [] || check in ref.checks))
  }

  ghost predicate Selected(refs: seq<AttachmentRef>, tenant: string, policy: string, check: string) {
    exists i :: 0 <= i < |refs| && Selects(refs[i], tenant, policy, check)
  }

  method AttachedPolicies(refs: seq<AttachmentRef>, tenant: string) returns (names: set<string>, all: bool)
    ensures all == AnyUnreadable(refs)
    ensures forall name :: name in names <==> exists i ::
      0 <= i < |refs| && InTenant(refs[i], tenant) && refs[i].name == name
    ensures forall policy, check :: Selected(refs, tenant, policy, check) ==> all || policy in names
  {
    names, all := {}, false;
    for i := 0 to |refs|
      invariant all == exists k :: 0 <= k < i && refs[k].unreadable
      invariant forall name :: name in names <==> exists k ::
        0 <= k < i && InTenant(refs[k], tenant) && refs[k].name == name
    {
      if refs[i].unreadable {
        all := true;
      } else if InTenant(refs[i], tenant) {
        names := names + {refs[i].name};
      }
    }
  }

  // The last callout of each name.
  function ByName(callouts: seq<Callout>): (m: map<string, Callout>)
    ensures forall name :: name in m ==> m[name].name == name && m[name] in callouts
    ensures forall c :: c in callouts ==> c.name in m
  {
    if callouts == [] then map[]
    else
      var last := callouts[|callouts| - 1];
      ByName(callouts[..|callouts| - 1])[last.name := last]
  }

  lemma {:induction false} ByNameAppend(callouts: seq<Callout>, c: Callout)
    ensures ByName(callouts + [c]) == ByName(callouts)[c.name := c]
  {
    assert (callouts + [c])[..|callouts|] == callouts;
  }

  // Of callouts of one name the last counts.
  lemma {:induction false} ByNameIsLast(before: seq<Callout>, c: Callout, after: seq<Callout>)
    requires forall d | d in after :: d.name != c.name
    ensures c.name in ByName(before + [c] + after) && ByName(before + [c] + after)[c.name] == c
  {
    if after == [] {
      assert before + [c] + after == before + [c];
      ByNameAppend(before, c);
    } else {
      var front, last := after[..|after| - 1], after[|after| - 1];
      assert before + [c] + after == (before + [c] + front) + [last];
      ByNameIsLast(before, c, front);
      ByNameAppend(before + [c] + front, last);
    }
  }

  // One request to add a policy's checks.
  datatype Visit = Visit(source: Callout, wanted: seq<string>)

  function NamedVisits(byName: map<string, Callout>, refs: seq<AttachmentRef>, tenant: string): seq<Visit> {
    if refs == [] then []
    else
      (if InTenant(refs[0], tenant) && refs[0].name in byName
       then [Visit(byName[refs[0].name], refs[0].checks)] else [])
      + NamedVisits(byName, refs[1..], tenant)
  }

  function EveryVisit(byName: map<string, Callout>, names: seq<string>): seq<Visit>
    requires forall name :: name in names ==> name in byName
  {
    if names == [] then [] else [Visit(byName[names[0]], [])] + EveryVisit(byName, names[1..])
  }

  function Visits(callouts: seq<Callout>, refs: seq<AttachmentRef>, tenant: string): seq<Visit> {
    var byName := ByName(callouts);
    NamedVisits(byName, refs, tenant)
    + if AnyUnreadable(refs) then EveryVisit(byName, Ordering.Sorted(byName.Keys)) else []
  }

  function Key(policy: string, check: string): string {
    policy + "/" + check
  }

  // Keeps the policy's check order, and takes each check once.
  method SelectCalloutChecks(callout: Callout, wanted: seq<string>, used: set<string>)
    returns (selected: seq<Check>, nowUsed: set<string>)
    ensures selected == Select(callout.name, callout.checks, wanted, used).0
    ensures nowUsed == Select(callout.name, callout.checks, wanted, used).1
  {
    var allow := set name | name in wanted;
    selected, nowUsed := [], used;
    assert callout.checks[0..] == callout.checks;
    for i := 0 to |callout.checks|
      invariant Select(callout.name, callout.checks, wanted, used).0 ==
        selected + Select(callout.name, callout.checks[i..], wanted, nowUsed).0
      invariant Select(callout.name, callout.checks, wanted, used).1 ==
        Select(callout.name, callout.checks[i..], wanted, nowUsed).1
    {
      var check := callout.checks[i];
      assert callout.checks[i..][1..] == callout.checks[i + 1..];
      if (wanted != [] && check.name !in allow) || Key(callout.name, check.name) in nowUsed {
        continue;
      }
      nowUsed := nowUsed + {Key(callout.name, check.name)};
      selected := selected + [check];
    }
    assert callout.checks[|callout.checks|..] == [];
    assert selected + [] == selected;
  }

  function Select(policy: string, checks: seq<Check>, wanted: seq<string>, used: set<string>): (seq<Check>,
                  set<string>) {
    if checks == [] then ([], used)
    else if !Wants(wanted, checks[0].name) || Key(policy, checks[0].name) in used then
      Select(policy, checks[1..], wanted, used)
    else
      var (rest, after) := Select(policy, checks[1..], wanted, used + {Key(policy, checks[0].name)});
      ([checks[0]] + rest, after)
  }

  function Ordered(visits: seq<Visit>, used: set<string>): seq<Callout> {
    if visits == [] then []
    else
      var (selected, after) := Select(visits[0].source.name, visits[0].source.checks, visits[0].wanted, used);
      (if selected == [] then [] else [visits[0].source.(checks := selected)]) + Ordered(visits[1..], after)
  }

  // Adds what a visit still selects to the catalog built so far.
  method Add(source: Callout, wanted: seq<string>, used: set<string>, ordered: seq<Callout>, ghost later: seq<Visit>)
    returns (nowUsed: set<string>, nowOrdered: seq<Callout>)
    ensures nowOrdered + Ordered(later, nowUsed) == ordered + Ordered([Visit(source, wanted)] + later, used)
  {
    var selected;
    selected, nowUsed := SelectCalloutChecks(source, wanted, used);
    nowOrdered := if selected == [] then ordered else ordered + [source.(checks := selected)];
    assert ([Visit(source, wanted)] + later)[1..] == later;
  }

  method AddEvery(byName: map<string, Callout>, names: seq<string>, used: set<string>,
                  given: seq<Callout>) returns (ordered: seq<Callout>)
    requires forall name :: name in names ==> name in byName
    ensures ordered == given + Ordered(EveryVisit(byName, names), used)
  {
    var nowUsed := used;
    ordered := given;
    assert names[0..] == names;
    for i := 0 to |names|
      invariant ordered + Ordered(EveryVisit(byName, names[i..]), nowUsed) ==
        given + Ordered(EveryVisit(byName, names), used)
    {
      assert names[i..][1..] == names[i + 1..];
      nowUsed, ordered := Add(byName[names[i]], [], nowUsed, ordered, EveryVisit(byName, names[i + 1..]));
    }
    assert names[|names|..] == [];
  }

  method AddNamed(byName: map<string, Callout>, refs: seq<AttachmentRef>, tenant: string, ghost last: seq<Visit>)
    returns (used: set<string>, ordered: seq<Callout>)
    ensures ordered + Ordered(last, used) == Ordered(NamedVisits(byName, refs, tenant) + last, {})
  {
    used, ordered := {}, [];
    assert refs[0..] == refs;
    for i := 0 to |refs|
      invariant ordered + Ordered(NamedVisits(byName, refs[i..], tenant) + last, used) ==
        Ordered(NamedVisits(byName, refs, tenant) + last, {})
    {
      assert refs[i..][1..] == refs[i + 1..];
      ghost var later := NamedVisits(byName, refs[i + 1..], tenant) + last;
      if InTenant(refs[i], tenant) && refs[i].name in byName {
        assert NamedVisits(byName, refs[i..], tenant) + last == [Visit(byName[refs[i].name], refs[i].checks)] + later;
        used, ordered := Add(byName[refs[i].name], refs[i].checks, used, ordered, later);
      } else {
        assert NamedVisits(byName, refs[i..], tenant) + last == later;
      }
    }
    assert refs[|refs|..] == [];
    assert [] + last == last;
  }

  method ApplyAttachmentOrder(callouts: seq<Callout>, refs: seq<AttachmentRef>,
                              tenant: string) returns (ordered: seq<Callout>)
    ensures ordered == Ordered(Visits(callouts, refs, tenant), {})
  {
    var byName := ByName(callouts);
    var sorted := Ordering.Sorted(byName.Keys);
    var _, all := AttachedPolicies(refs, tenant);
    var used;
    used, ordered := AddNamed(byName, refs, tenant, if all then EveryVisit(byName, sorted) else []);
    if all {
      ordered := AddEvery(byName, sorted, used, ordered);
    }
  }

  /******* What the order means *******/

  // One check of one policy, with the policy's settings.
  datatype Entry = Entry(source: Callout, check: Check)

  function EntryOf(source: Callout, check: Check): Entry {
    Entry(source.(checks := []), check)
  }

  function KeyOf(e: Entry): string {
    Key(e.source.name, e.check.name)
  }

  function Wanted(source: Callout, checks: seq<Check>, wanted: seq<string>): seq<Entry> {
    if checks == [] then []
    else
      (if Wants(wanted, checks[0].name) then [EntryOf(source, checks[0])] else [])
      + Wanted(source, checks[1..], wanted)
  }

  // Every check every attachment names, in the order they are named, with
  // repetitions.
  function Stream(visits: seq<Visit>): seq<Entry> {
    if visits == [] then []
    else Wanted(visits[0].source, visits[0].source.checks, visits[0].wanted) + Stream(visits[1..])
  }

  // The first entry of each key, in place.
  function FirstOfEach(entries: seq<Entry>, used: set<string>): seq<Entry> {
    if entries == [] then []
    else if KeyOf(entries[0]) in used then FirstOfEach(entries[1..], used)
    else [entries[0]] + FirstOfEach(entries[1..], used + {KeyOf(entries[0])})
  }

  function Flatten(ordered: seq<Callout>): seq<Entry> {
    if ordered == [] then [] else Wanted(ordered[0], ordered[0].checks, []) + Flatten(ordered[1..])
  }

  function Keys(entries: seq<Entry>): set<string> {
    set e | e in entries :: KeyOf(e)
  }

  lemma {:induction false} FirstOfEachSplit(a: seq<Entry>, b: seq<Entry>, used: set<string>)
    ensures FirstOfEach(a + b, used) == FirstOfEach(a, used) + FirstOfEach(b, used + Keys(a))
  {
    if a == [] {
      assert a + b == b && used + Keys(a) == used;
    } else {
      assert (a + b)[1..] == a[1..] + b;
      var u := if KeyOf(a[0]) in used then used else used + {KeyOf(a[0])};
      FirstOfEachSplit(a[1..], b, u);
      assert used + Keys(a) == u + Keys(a[1..]) by {
        assert a == [a[0]] + a[1..];
      }
    }
  }

  lemma {:induction false} SelectIsFirstOfEach(source: Callout, checks: seq<Check>, wanted: seq<string>,
                                               used: set<string>)
    ensures
      var (selected, after) := Select(source.name, checks, wanted, used);
      && Wanted(source, selected, []) == FirstOfEach(Wanted(source, checks, wanted), used)
      && after == used + Keys(Wanted(source, checks, wanted))
  {
    if checks != [] {
      var e := EntryOf(source, checks[0]);
      var rest := Wanted(source, checks[1..], wanted);
      if !Wants(wanted, checks[0].name) {
        SelectIsFirstOfEach(source, checks[1..], wanted, used);
        assert Wanted(source, checks, wanted) == rest;
      } else {
        var all := [e] + rest;
        assert Wanted(source, checks, wanted) == all && all[1..] == rest;
        assert Keys(all) == {KeyOf(e)} + Keys(rest);
        if KeyOf(e) in used {
          SelectIsFirstOfEach(source, checks[1..], wanted, used);
        } else {
          SelectIsFirstOfEach(source, checks[1..], wanted, used + {KeyOf(e)});
          var (selected, _) := Select(source.name, checks[1..], wanted, used + {KeyOf(e)});
          assert ([checks[0]] + selected)[1..] == selected;
        }
      }
    }
  }

  lemma {:induction false} WantedIgnoresChecks(source: Callout, selected: seq<Check>, checks: seq<Check>,
                                               wanted: seq<string>)
    ensures Wanted(source.(checks := selected), checks, wanted) == Wanted(source, checks, wanted)
  {
    if checks != [] { WantedIgnoresChecks(source, selected, checks[1..], wanted); }
  }

  // The ordered catalog, flattened, is the stream of named checks with only
  // the first naming of each check kept.
  lemma {:induction false} OrderedIsFirstNaming(visits: seq<Visit>, used: set<string>)
    ensures Flatten(Ordered(visits, used)) == FirstOfEach(Stream(visits), used)
  {
    if visits != [] {
      var v := visits[0];
      var named := Wanted(v.source, v.source.checks, v.wanted);
      var (selected, after) := Select(v.source.name, v.source.checks, v.wanted, used);
      SelectIsFirstOfEach(v.source, v.source.checks, v.wanted, used);
      WantedIgnoresChecks(v.source, selected, selected, []);
      OrderedIsFirstNaming(visits[1..], after);
      FirstOfEachSplit(named, Stream(visits[1..]), used);
      var rest := Ordered(visits[1..], after);
      if selected != [] {
        assert ([v.source.(checks := selected)] + rest)[1..] == rest;
      } else {
        assert [] + rest == rest;
      }
    }
  }

  /******* Exact, stable and duplicate-free *******/

  // Policy names are Kubernetes names, so a key determines its policy and check.
  ghost predicate WellNamed(callouts: seq<Callout>) {
    && (forall i :: 0 <= i < |callouts| ==> '/' !in callouts[i].name)
    && (forall i, j :: 0 <= i < j < |callouts| ==> callouts[i].name != callouts[j].name)
    && (forall c :: c in callouts ==> forall i, j :: 0 <= i < j < |c.checks| ==> c.checks[i].name != c.checks[j].name)
  }

  lemma {:induction false} KeyInjective(p: string, c: string, p': string, c': string)
    requires '/' !in p && '/' !in p' && Key(p, c) == Key(p', c')
    ensures p == p' && c == c'
  {
    var k := Key(p, c);
    assert k[|p|] == '/' && k[|p'|] == '/';
    assert forall i :: 0 <= i < |p| ==> k[i] == p[i];
    assert forall i :: 0 <= i < |p'| ==> k[i] == p'[i];
    assert |p| == |p'|;
    assert p == k[..|p|] == p' && c == k[|p| + 1..] == c';
  }

  // Where a key is named first.
  function FirstNaming(entries: seq<Entry>, key: string): (i: nat)
    ensures i <= |entries|
  {
    if entries == [] || KeyOf(entries[0]) == key then 0 else 1 + FirstNaming(entries[1..], key)
  }

  lemma {:induction false} NothingNamedBefore(entries: seq<Entry>, key: string, k: nat)
    requires k < FirstNaming(entries, key)
    ensures KeyOf(entries[k]) != key
  {
    if k > 0 {
      NothingNamedBefore(entries[1..], key, k - 1);
    }
  }

  lemma {:induction false} KeysCons(e: Entry, entries: seq<Entry>)
    ensures Keys([e] + entries) == {KeyOf(e)} + Keys(entries)
  {
    assert ([e] + entries)[0] == e;
  }

  lemma {:induction false} KeepsEveryKey(entries: seq<Entry>, used: set<string>)
    ensures Keys(FirstOfEach(entries, used)) == Keys(entries) - used
  {
    if entries != [] {
      var first := KeyOf(entries[0]);
      assert entries == [entries[0]] + entries[1..];
      KeysCons(entries[0], entries[1..]);
      if first in used {
        KeepsEveryKey(entries[1..], used);
      } else {
        KeepsEveryKey(entries[1..], used + {first});
        KeysCons(entries[0], FirstOfEach(entries[1..], used + {first}));
      }
    }
  }

  // What is kept is the first naming of its key.
  lemma {:induction false} KeepsFirstNaming(entries: seq<Entry>, used: set<string>, k: nat)
    requires k < |FirstOfEach(entries, used)|
    ensures
      var e := FirstOfEach(entries, used)[k];
      && KeyOf(e) !in used
      && FirstNaming(entries, KeyOf(e)) < |entries|
      && entries[FirstNaming(entries, KeyOf(e))] == e
  {
    var first := KeyOf(entries[0]);
    if first in used {
      KeepsFirstNaming(entries[1..], used, k);
    } else if k > 0 {
      KeepsFirstNaming(entries[1..], used + {first}, k - 1);
    }
  }

  lemma {:induction false} KeepsOrder(entries: seq<Entry>, used: set<string>, j: nat, k: nat)
    requires j < k < |FirstOfEach(entries, used)|
    ensures
      var kept := FirstOfEach(entries, used);
      FirstNaming(entries, KeyOf(kept[j])) < FirstNaming(entries, KeyOf(kept[k]))
  {
    var first := KeyOf(entries[0]);
    if first in used {
      KeepsFirstNaming(entries[1..], used, j);
      KeepsFirstNaming(entries[1..], used, k);
      KeepsOrder(entries[1..], used, j, k);
    } else {
      KeepsFirstNaming(entries[1..], used + {first}, k - 1);
      if j > 0 {
        KeepsFirstNaming(entries[1..], used + {first}, j - 1);
        KeepsOrder(entries[1..], used + {first}, j - 1, k - 1);
      }
    }
  }

  lemma {:induction false} WantedMembers(source: Callout, checks: seq<Check>, wanted: seq<string>, e: Entry)
    ensures e in Wanted(source, checks, wanted) <==>
      e.source == source.(checks := []) && e.check in checks && Wants(wanted, e.check.name)
  {
    if checks != [] {
      WantedMembers(source, checks[1..], wanted, e);
    }
  }

  ghost predicate VisitNames(v: Visit, e: Entry) {
    e.source == v.source.(checks := []) && e.check in v.source.checks && Wants(v.wanted, e.check.name)
  }

  lemma {:induction false} StreamMembers(visits: seq<Visit>, e: Entry)
    ensures e in Stream(visits) <==> exists i :: 0 <= i < |visits| && VisitNames(visits[i], e)
  {
    if visits != [] {
      WantedMembers(visits[0].source, visits[0].source.checks, visits[0].wanted, e);
      StreamMembers(visits[1..], e);
      if i :| 0 <= i < |visits[1..]| && VisitNames(visits[1..][i], e) {
        assert visits[i + 1] == visits[1..][i];
      }
      if i :| 1 <= i < |visits| && VisitNames(visits[i], e) {
        assert visits[1..][i - 1] == visits[i];
      }
    }
  }

  lemma {:induction false} NamedVisitsMembers(byName: map<string, Callout>, refs: seq<AttachmentRef>, tenant: string,
                                              v: Visit)
    ensures v in NamedVisits(byName, refs, tenant) <==>
      exists i ::
        && 0 <= i < |refs| && InTenant(refs[i], tenant) && refs[i].name in byName
        && v == Visit(byName[refs[i].name], refs[i].checks)
  {
    if refs != [] {
      NamedVisitsMembers(byName, refs[1..], tenant, v);
      if i :| && 0 <= i < |refs[1..]| && InTenant(refs[1..][i], tenant) && refs[1..][i].name in byName
              && v == Visit(byName[refs[1..][i].name], refs[1..][i].checks) {
        assert refs[i + 1] == refs[1..][i];
      }
      if i :| && 1 <= i < |refs| && InTenant(refs[i], tenant) && refs[i].name in byName
              && v == Visit(byName[refs[i].name], refs[i].checks) {
        assert refs[1..][i - 1] == refs[i];
      }
    }
  }

  lemma {:induction false} EveryVisitMembers(byName: map<string, Callout>, names: seq<string>, v: Visit)
    requires forall name :: name in names ==> name in byName
    ensures v in EveryVisit(byName, names) <==>
      v.wanted == [] && exists i :: 0 <= i < |names| && v.source == byName[names[i]]
  {
    if names != [] {
      EveryVisitMembers(byName, names[1..], v);
      if i :| 0 <= i < |names[1..]| && v.source == byName[names[1..][i]] {
        assert names[i + 1] == names[1..][i];
      }
      if i :| 1 <= i < |names| && v.source == byName[names[i]] {
        assert names[1..][i - 1] == names[i];
      }
    }
  }

  lemma {:induction false} ByNameFinds(callouts: seq<Callout>, c: Callout)
    requires c in callouts
    requires forall i, j :: 0 <= i < j < |callouts| ==> callouts[i].name != callouts[j].name
    ensures ByName(callouts)[c.name] == c
  {
    var last := |callouts| - 1;
    var k :| 0 <= k < |callouts| && callouts[k] == c;
    if k < last {
      assert callouts[..last][k] == c;
      ByNameFinds(callouts[..last], c);
    }
  }

  // A policy's check is in the flattened catalog exactly when an attachment
  // selects it, and it is there once, with the policy's own settings.
  lemma {:induction false} CatalogIsExact(callouts: seq<Callout>, refs: seq<AttachmentRef>, tenant: string,
                                          c: Callout, check: Check)
    requires WellNamed(callouts) && c in callouts && check in c.checks
    ensures
      var flat := Flatten(Ordered(Visits(callouts, refs, tenant), {}));
      && (EntryOf(c, check) in flat <==> Selected(refs, tenant, c.name, check.name))
      && (forall i, j :: 0 <= i < j < |flat| ==> KeyOf(flat[i]) != KeyOf(flat[j]))
  {
    var stream := Stream(Visits(callouts, refs, tenant));
    var e := EntryOf(c, check);
    OrderedIsFirstNaming(Visits(callouts, refs, tenant), {});
    StreamNames(callouts, refs, tenant, c, check);
    var flat := FirstOfEach(stream, {});
    if e in flat { FirstsAreStreamed(stream, e); }
    forall i, j | 0 <= i < j < |flat| ensures KeyOf(flat[i]) != KeyOf(flat[j]) {
      KeepsOrder(stream, {}, i, j);
    }
    if e in stream {
      KeepsEveryKey(stream, {});
      assert KeyOf(e) in Keys(flat);
      var kept :| kept in flat && KeyOf(kept) == KeyOf(e);
      FirstsAreStreamed(stream, kept);
      StreamEntriesAreChecks(callouts, refs, tenant, kept);
      SameKeySameEntry(callouts, kept, e);
    }
  }

  lemma {:induction false} FirstsAreStreamed(stream: seq<Entry>, e: Entry)
    requires e in FirstOfEach(stream, {})
    ensures e in stream
  {
    var flat := FirstOfEach(stream, {});
    var k :| 0 <= k < |flat| && flat[k] == e;
    KeepsFirstNaming(stream, {}, k);
  }

  ghost predicate IsCheckOf(callouts: seq<Callout>, e: Entry) {
    exists c :: c in callouts && e.source == c.(checks := []) && e.check in c.checks
  }

  lemma {:induction false} SameKeySameEntry(callouts: seq<Callout>, a: Entry, b: Entry)
    requires WellNamed(callouts) && IsCheckOf(callouts, a) && IsCheckOf(callouts, b) && KeyOf(a) == KeyOf(b)
    ensures a == b
  {
    var ca :| ca in callouts && a.source == ca.(checks := []) && a.check in ca.checks;
    var cb :| cb in callouts && b.source == cb.(checks := []) && b.check in cb.checks;
    KeyInjective(ca.name, a.check.name, cb.name, b.check.name);
    assert ca == cb;
  }

  lemma {:induction false} VisitSources(callouts: seq<Callout>, refs: seq<AttachmentRef>, tenant: string, v: Visit)
    requires v in Visits(callouts, refs, tenant)
    ensures v.source in callouts
  {
    var byName := ByName(callouts);
    NamedVisitsMembers(byName, refs, tenant, v);
    EveryVisitMembers(byName, Ordering.Sorted(byName.Keys), v);
  }

  lemma {:induction false} StreamEntriesAreChecks(callouts: seq<Callout>, refs: seq<AttachmentRef>, tenant: string,
                                                  e: Entry)
    requires e in Stream(Visits(callouts, refs, tenant))
    ensures IsCheckOf(callouts, e)
  {
    var visits := Visits(callouts, refs, tenant);
    StreamMembers(visits, e);
    var i :| 0 <= i < |visits| && VisitNames(visits[i], e);
    VisitSources(callouts, refs, tenant, visits[i]);
  }

  lemma {:induction false} StreamNames(callouts: seq<Callout>, refs: seq<AttachmentRef>, tenant: string, c: Callout,
                                       check: Check)
    requires WellNamed(callouts) && c in callouts && check in c.checks
    ensures EntryOf(c, check) in Stream(Visits(callouts, refs, tenant)) <==> Selected(refs, tenant, c.name, check.name)
  {
    var byName := ByName(callouts);
    var visits := Visits(callouts, refs, tenant);
    var e := EntryOf(c, check);
    ByNameFinds(callouts, c);
    StreamMembers(visits, e);
    if i :| 0 <= i < |visits| && VisitNames(visits[i], e) { NamedIsSelected(callouts, refs, tenant, visits[i], e); }
    if k :| 0 <= k < |refs| && !refs[k].unreadable && Selects(refs[k], tenant, c.name, check.name) {
      NamedVisitsMembers(byName, refs, tenant, Visit(c, refs[k].checks));
      assert Visit(c, refs[k].checks) in visits;
      assert VisitNames(Visit(c, refs[k].checks), e);
    } else if AnyUnreadable(refs) {
      var sorted := Ordering.Sorted(byName.Keys);
      assert c.name in sorted;
      var k :| 0 <= k < |sorted| && sorted[k] == c.name;
      EveryVisitMembers(byName, sorted, Visit(c, []));
      assert Visit(c, []) in visits;
      assert VisitNames(Visit(c, []), e);
    }
  }

  lemma {:induction false} NamedIsSelected(callouts: seq<Callout>, refs: seq<AttachmentRef>, tenant: string, v: Visit,
                                           e: Entry)
    requires v in Visits(callouts, refs, tenant) && VisitNames(v, e)
    ensures Selected(refs, tenant, e.source.name, e.check.name)
  {
    var byName := ByName(callouts);
    NamedVisitsMembers(byName, refs, tenant, v);
    if v in NamedVisits(byName, refs, tenant) {
      var k :| 0 <= k < |refs| && InTenant(refs[k], tenant) && refs[k].name in byName
        && v == Visit(byName[refs[k].name], refs[k].checks);
      assert Selects(refs[k], tenant, e.source.name, e.check.name);
    } else {
      var k :| 0 <= k < |refs| && refs[k].unreadable;
      assert Selects(refs[k], tenant, e.source.name, e.check.name);
    }
  }

  // Whatever is in the catalog is a selected check of one of the callouts.
  lemma {:induction false} EntryHasCallout(callouts: seq<Callout>, refs: seq<AttachmentRef>, tenant: string,
                                           e: Entry) returns (c: Callout)
    requires WellNamed(callouts) && e in Flatten(Ordered(Visits(callouts, refs, tenant), {}))
    ensures c in callouts && e.check in c.checks && e == EntryOf(c, e.check)
    ensures Selected(refs, tenant, c.name, e.check.name)
  {
    var visits := Visits(callouts, refs, tenant);
    OrderedIsFirstNaming(visits, {});
    FirstsAreStreamed(Stream(visits), e);
    StreamEntriesAreChecks(callouts, refs, tenant, e);
    c :| c in callouts && e.source == c.(checks := []) && e.check in c.checks;
    CatalogIsExact(callouts, refs, tenant, c, e.check);
  }

  // Two selected checks run in the order in which the attachments first name
  // them, and each is what was named there.
  lemma {:induction false} CatalogIsStable(callouts: seq<Callout>, refs: seq<AttachmentRef>, tenant: string, i: int,
                                           j: int)
    requires 0 <= i < j < |Flatten(Ordered(Visits(callouts, refs, tenant), {}))|
    ensures
      var flat := Flatten(Ordered(Visits(callouts, refs, tenant), {}));
      var stream := Stream(Visits(callouts, refs, tenant));
      && FirstNaming(stream, KeyOf(flat[i])) < FirstNaming(stream, KeyOf(flat[j])) < |stream|
      && flat[i] == stream[FirstNaming(stream, KeyOf(flat[i]))]
      && forall k :: 0 <= k < FirstNaming(stream, KeyOf(flat[i])) ==> KeyOf(stream[k]) != KeyOf(flat[i])
  {
    var visits := Visits(callouts, refs, tenant);
    OrderedIsFirstNaming(visits, {});
    KeepsFirstNaming(Stream(visits), {}, i);
    KeepsFirstNaming(Stream(visits), {}, j);
    KeepsOrder(Stream(visits), {}, i, j);
    var key := KeyOf(FirstOfEach(Stream(visits), {})[i]);
    forall k | 0 <= k < FirstNaming(Stream(visits), key) ensures KeyOf(Stream(visits)[k]) != key {
      NothingNamedBefore(Stream(visits), key, k);
    }
  }

  lemma {:induction false} NamedVisitsConcat(byName: map<string, Callout>, a: seq<AttachmentRef>,
                                             b: seq<AttachmentRef>, tenant: string)
    ensures NamedVisits(byName, a + b, tenant) == NamedVisits(byName, a, tenant) + NamedVisits(byName, b, tenant)
  {
    if a == [] {
      assert a + b == b;
    } else {
      assert (a + b)[1..] == a[1..] + b;
      NamedVisitsConcat(byName, a[1..], b, tenant);
    }
  }

  lemma {:induction false} StreamConcat(a: seq<Visit>, b: seq<Visit>)
    ensures Stream(a + b) == Stream(a) + Stream(b)
  {
    if a == [] {
      assert a + b == b;
    } else {
      assert (a + b)[1..] == a[1..] + b;
      StreamConcat(a[1..], b);
    }
  }

  // A narrower list never displaces a broader one: appending readable entries
  // to a readable list only extends the flattened catalog.
  lemma {:induction false} AppendingExtends(callouts: seq<Callout>, refs: seq<AttachmentRef>,
                                            more: seq<AttachmentRef>, tenant: string)
    requires !AnyUnreadable(refs + more)
    ensures Flatten(Ordered(Visits(callouts, refs, tenant), {}))
         <= Flatten(Ordered(Visits(callouts, refs + more, tenant), {}))
  {
    var byName := ByName(callouts);
    assert forall i :: 0 <= i < |refs| ==> refs[i] == (refs + more)[i];
    var before, after := NamedVisits(byName, refs, tenant), NamedVisits(byName, more, tenant);
    NamedVisitsConcat(byName, refs, more, tenant);
    StreamConcat(before, after);
    assert Visits(callouts, refs, tenant) == before && Visits(callouts, refs + more, tenant) == before + after;
    OrderedIsFirstNaming(before, {});
    OrderedIsFirstNaming(before + after, {});
    FirstOfEachSplit(Stream(before), Stream(after), {});
  }

  // A readable entry of the tenant names the check.
  ghost predicate ReadablyNamed(refs: seq<AttachmentRef>, tenant: string, e: Entry) {
    exists k :: 0 <= k < |refs| && NamedBy(refs[k], tenant, e)
  }

  predicate NamedBy(ref: AttachmentRef, tenant: string, e: Entry) {
    !ref.unreadable && Selects(ref, tenant, e.source.name, e.check.name)
  }

  ghost predicate ByPolicyName(entries: seq<Entry>) {
    forall i, j :: 0 <= i < j < |entries| ==> Ordering.Le(entries[i].source.name, entries[j].source.name)
  }

  ghost predicate AfterPolicy(name: string, entries: seq<Entry>) {
    forall e :: e in entries ==> Ordering.Le(name, e.source.name)
  }

  lemma {:induction false} FirstOfEachKeepsPolicyOrder(entries: seq<Entry>, used: set<string>)
    requires ByPolicyName(entries)
    ensures ByPolicyName(FirstOfEach(entries, used))
    ensures forall e :: e in FirstOfEach(entries, used) ==> e in entries
  {
    if entries != [] {
      var rest := entries[1..];
      var more := if KeyOf(entries[0]) in used then used else used + {KeyOf(entries[0])};
      FirstOfEachKeepsPolicyOrder(rest, more);
      forall e | e in rest ensures e in entries && Ordering.Le(entries[0].source.name, e.source.name) {
        var k :| 0 <= k < |rest| && rest[k] == e;
        assert entries[k + 1] == e;
      }
    }
  }

  lemma {:induction false} WantedIsOfOnePolicy(source: Callout, checks: seq<Check>, wanted: seq<string>)
    ensures forall e :: e in Wanted(source, checks, wanted) ==> e.source.name == source.name
  {
    if checks != [] { WantedIsOfOnePolicy(source, checks[1..], wanted); }
  }

  lemma {:induction false} PolicyOrderConcat(name: string, own: seq<Entry>, rest: seq<Entry>)
    requires (forall e :: e in own ==> e.source.name == name) && AfterPolicy(name, rest) && ByPolicyName(rest)
    ensures ByPolicyName(own + rest)
  {
    var all := own + rest;
    Ordering.LeTotal(name, name);
    forall i, j | 0 <= i < j < |all| ensures Ordering.Le(all[i].source.name, all[j].source.name) {
      if i < |own| {
        assert all[i] in own;
        if j < |own| { assert all[j] in own; } else { assert all[j] in rest; }
      } else {
        assert all[i] == rest[i - |own|] && all[j] == rest[j - |own|];
      }
    }
  }

  // Visiting every policy by ascending name streams the checks by policy name.
  lemma {:induction false} EveryVisitIsByPolicyName(byName: map<string, Callout>, names: seq<string>)
    requires forall name :: name in names ==> name in byName
    requires forall name :: name in byName ==> byName[name].name == name
    requires forall i, j :: 0 <= i < j < |names| ==> Ordering.Le(names[i], names[j])
    ensures ByPolicyName(Stream(EveryVisit(byName, names)))
    ensures forall e :: e in Stream(EveryVisit(byName, names)) ==> e.source.name in names
  {
    if names != [] {
      var v, rest := Visit(byName[names[0]], []), names[1..];
      EveryVisitIsByPolicyName(byName, rest);
      assert EveryVisit(byName, names)[1..] == EveryVisit(byName, rest);
      WantedIsOfOnePolicy(v.source, v.source.checks, []);
      forall e | e in Stream(EveryVisit(byName, rest)) ensures Ordering.Le(names[0], e.source.name) {
        var k :| 0 <= k < |rest| && rest[k] == e.source.name;
        assert names[k + 1] == e.source.name;
      }
      PolicyOrderConcat(names[0], Wanted(v.source, v.source.checks, []), Stream(EveryVisit(byName, rest)));
    }
  }

  lemma {:induction false} NamedIsReadable(byName: map<string, Callout>, refs: seq<AttachmentRef>, tenant: string,
                                           e: Entry)
    requires forall name :: name in byName ==> byName[name].name == name
    requires e in Stream(NamedVisits(byName, refs, tenant))
    ensures ReadablyNamed(refs, tenant, e)
  {
    var visits := NamedVisits(byName, refs, tenant);
    StreamMembers(visits, e);
    var i :| 0 <= i < |visits| && VisitNames(visits[i], e);
    NamedVisitsMembers(byName, refs, tenant, visits[i]);
    var k :| 0 <= k < |refs| && InTenant(refs[k], tenant) && refs[k].name in byName
             && visits[i] == Visit(byName[refs[k].name], refs[k].checks);
    assert NamedBy(refs[k], tenant, e);
  }

  lemma {:induction false} ReadableIsNamed(byName: map<string, Callout>, refs: seq<AttachmentRef>, tenant: string,
                                           names: seq<string>, e: Entry)
    requires forall name :: name in byName ==> byName[name].name == name
    requires forall name :: name in names ==> name in byName
    requires e in Stream(EveryVisit(byName, names)) && ReadablyNamed(refs, tenant, e)
    ensures e in Stream(NamedVisits(byName, refs, tenant))
  {
    var every := EveryVisit(byName, names);
    StreamMembers(every, e);
    var i :| 0 <= i < |every| && VisitNames(every[i], e);
    EveryVisitMembers(byName, names, every[i]);
    var k :| 0 <= k < |refs| && NamedBy(refs[k], tenant, e);
    var v := Visit(every[i].source, refs[k].checks);
    NamedVisitsMembers(byName, refs, tenant, v);
    assert v in NamedVisits(byName, refs, tenant) && VisitNames(v, e);
    StreamMembers(NamedVisits(byName, refs, tenant), e);
  }

  lemma {:induction false} NamedAreReadable(byName: map<string, Callout>, refs: seq<AttachmentRef>, tenant: string)
    requires forall name :: name in byName ==> byName[name].name == name
    ensures forall e ::
      e in FirstOfEach(Stream(NamedVisits(byName, refs, tenant)), {}) ==> ReadablyNamed(refs, tenant, e)
  {
    var stream := Stream(NamedVisits(byName, refs, tenant));
    forall e | e in FirstOfEach(stream, {}) ensures ReadablyNamed(refs, tenant, e) {
      FirstsAreStreamed(stream, e);
      NamedIsReadable(byName, refs, tenant, e);
    }
  }

  // The checks that only an unreadable entry may select.
  lemma {:induction false} OthersAreUnnamed(byName: map<string, Callout>, refs: seq<AttachmentRef>, tenant: string,
                                            names: seq<string>)
    requires forall name :: name in byName ==> byName[name].name == name
    requires forall name :: name in names ==> name in byName
    requires forall i, j :: 0 <= i < j < |names| ==> Ordering.Le(names[i], names[j])
    ensures var tail := FirstOfEach(Stream(EveryVisit(byName, names)), Keys(Stream(NamedVisits(byName, refs, tenant))));
      ByPolicyName(tail) && forall k :: 0 <= k < |tail| ==> !ReadablyNamed(refs, tenant, tail[k])
  {
    var stream, rest := Stream(NamedVisits(byName, refs, tenant)), Stream(EveryVisit(byName, names));
    var tail := FirstOfEach(rest, Keys(stream));
    EveryVisitIsByPolicyName(byName, names);
    FirstOfEachKeepsPolicyOrder(rest, Keys(stream));
    forall k | 0 <= k < |tail| ensures !ReadablyNamed(refs, tenant, tail[k]) {
      KeepsFirstNaming(rest, Keys(stream), k);
      assert tail[k] in rest;
      if ReadablyNamed(refs, tenant, tail[k]) { ReadableIsNamed(byName, refs, tenant, names, tail[k]); }
    }
  }

  // The catalog starts with exactly the checks that readable entries name.
  // Others follow only when some entry is unreadable, ordered by policy name.
  lemma {:induction false} UnreadableRunsLast(callouts: seq<Callout>, refs: seq<AttachmentRef>, tenant: string)
    ensures
      var named := Flatten(Ordered(NamedVisits(ByName(callouts), refs, tenant), {}));
      var flat := Flatten(Ordered(Visits(callouts, refs, tenant), {}));
      && named <= flat
      && (!AnyUnreadable(refs) ==> flat == named)
      && (forall i :: 0 <= i < |flat| ==> (ReadablyNamed(refs, tenant, flat[i]) <==> i < |named|))
      && ByPolicyName(flat[|named|..])
  {
    var byName := ByName(callouts);
    var named := NamedVisits(byName, refs, tenant);
    var stream := Stream(named);
    OrderedIsFirstNaming(named, {});
    OrderedIsFirstNaming(Visits(callouts, refs, tenant), {});
    NamedAreReadable(byName, refs, tenant);
    if AnyUnreadable(refs) {
      var names := Ordering.Sorted(byName.Keys);
      var rest := Stream(EveryVisit(byName, names));
      StreamConcat(named, EveryVisit(byName, names));
      FirstOfEachSplit(stream, rest, {});
      assert {} + Keys(stream) == Keys(stream);
      OthersAreUnnamed(byName, refs, tenant, names);
      TailOf(FirstOfEach(stream, {}), FirstOfEach(rest, Keys(stream)), refs, tenant);
    } else {
      assert Visits(callouts, refs, tenant) == named;
    }
  }

  lemma {:induction false} TailOf(named: seq<Entry>, tail: seq<Entry>, refs: seq<AttachmentRef>, tenant: string)
    requires forall e :: e in named ==> ReadablyNamed(refs, tenant, e)
    requires forall k :: 0 <= k < |tail| ==> !ReadablyNamed(refs, tenant, tail[k])
    ensures var flat := named + tail;
      && named <= flat && flat[|named|..] == tail
      && forall i :: 0 <= i < |flat| ==> (ReadablyNamed(refs, tenant, flat[i]) <==> i < |named|)
  {
    var flat := named + tail;
    forall i | 0 <= i < |flat| ensures ReadablyNamed(refs, tenant, flat[i]) <==> i < |named| {
      if i < |named| { assert flat[i] in named; } else { assert flat[i] == tail[i - |named|]; }
    }
  }
}
