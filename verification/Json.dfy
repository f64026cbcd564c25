// JSON documents as an ordered tree, and the canonical form of RFC 8785 with
// members sorted as its section 3.2.3 asks: by the UTF-16 code units of the
// property names. Numbers are integers; white space and escapes of the text
// are not part of this model.
module Json {
  datatype Json =
    | Null
    | Bool(b: bool)
    | Num(n: int)
    | Str(s: string)
    | Arr(items: seq<Json>)
    | Obj(members: seq<Member>)

  datatype Member = Member(key: string, value: Json)

  // What a document says, whatever order its members come in.
  datatype Value =
    | VNull
    | VBool(b: bool)
    | VNum(n: int)
    | VStr(s: string)
    | VArr(items: seq<Value>)
    | VObj(entries: map<string, Value>)

  function Denote(j: Json): Value {
    match j
    case Null => VNull
    case Bool(b) => VBool(b)
    case Num(n) => VNum(n)
    case Str(s) => VStr(s)
    case Arr(items) => VArr(DenoteItems(items))
    case Obj(members) => VObj(DenoteMembers(members))
  }

  function DenoteItems(items: seq<Json>): (r: seq<Value>)
    ensures |r| == |items|
  {
    if items == [] then [] else [Denote(items[0])] + DenoteItems(items[1..])
  }

  // A later member of the same name wins.
  function DenoteMembers(members: seq<Member>): (r: map<string, Value>)
    ensures r.Keys == Names(members)
  {
    if members == [] then map[]
    else
      NamesSplit(members);
      Put(members[0].key, Denote(members[0].value), DenoteMembers(members[1..]))
  }

  function Put(key: string, v: Value, rest: map<string, Value>): map<string, Value> {
    if key in rest then rest else rest[key := v]
  }

  lemma {:induction false} ConsMeaning(m: Member, members: seq<Member>)
    ensures DenoteMembers([m] + members) == Put(m.key, Denote(m.value), DenoteMembers(members))
  {
    assert ([m] + members)[1..] == members;
  }

  lemma {:induction false} NamesSplit(members: seq<Member>)
    requires members != []
    ensures Names(members) == {members[0].key} + Names(members[1..])
  {
    assert members[0] in members;
    assert forall m :: m in members <==> m == members[0] || m in members[1..];
  }

  function Names(members: seq<Member>): set<string> {
    set m | m in members :: m.key
  }

  // No object of the document repeats a name.
  predicate WellKeyed(j: Json) {
    match j
    case Arr(items) => AllWellKeyed(items)
    case Obj(members) => MembersWellKeyed(members)
    case _ => true
  }

  predicate AllWellKeyed(items: seq<Json>) {
    items == [] || (WellKeyed(items[0]) && AllWellKeyed(items[1..]))
  }

  predicate MembersWellKeyed(members: seq<Member>) {
    members == []
    || (members[0].key !in Names(members[1..]) && WellKeyed(members[0].value) && MembersWellKeyed(members[1..]))
  }

  // ----- property name order (RFC 8785, section 3.2.3) -----

  function CodeUnits(c: char): (r: seq<int>)
    ensures 1 <= |r| <= 2
  {
    var n := c as int;
    if n < 0x10000 then [n] else [0xD800 + (n - 0x10000) / 0x400, 0xDC00 + (n - 0x10000) % 0x400]
  }

  function Utf16(s: string): seq<int> {
    if s == "" then [] else CodeUnits(s[0]) + Utf16(s[1..])
  }

  lemma {:induction false} Utf16Injective(a: string, b: string)
    requires Utf16(a) == Utf16(b)
    ensures a == b
  {
    if a == "" || b == "" {
    } else {
      var x, y := CodeUnits(a[0]), CodeUnits(b[0]);
      var p, q := Utf16(a[1..]), Utf16(b[1..]);
      assert x[0] == (x + p)[0] == (y + q)[0] == y[0];
      assert |x| == |y|;
      if |x| == 2 { assert x[1] == (x + p)[1] == (y + q)[1] == y[1]; }
      assert a[0] == b[0];
      assert p == (x + p)[|x|..] == (y + q)[|y|..] == q;
      Utf16Injective(a[1..], b[1..]);
      assert a == [a[0]] + a[1..] && b == [b[0]] + b[1..];
    }
  }

  predicate Before(a: seq<int>, b: seq<int>) {
    b != [] && (a == [] || a[0] < b[0] || (a[0] == b[0] && Before(a[1..], b[1..])))
  }

  lemma {:induction false} BeforeIsStrictOrder(a: seq<int>, b: seq<int>, c: seq<int>)
    ensures !Before(a, a)
    ensures Before(a, b) && Before(b, c) ==> Before(a, c)
    ensures Before(a, b) || Before(b, a) || a == b
    decreases |a| + |b| + |c|
  {
    if a != [] && b != [] {
      BeforeIsStrictOrder(a[1..], b[1..], if c == [] then [] else c[1..]);
      assert a == [a[0]] + a[1..] && b == [b[0]] + b[1..];
    } else if a != [] {
      BeforeIsStrictOrder(a[1..], b, c);
    }
  }

  predicate KeyBefore(a: string, b: string) {
    Before(Utf16(a), Utf16(b))
  }

  lemma {:induction false} KeyOrder(a: string, b: string, c: string)
    ensures !KeyBefore(a, a)
    ensures KeyBefore(a, b) && KeyBefore(b, c) ==> KeyBefore(a, c)
    ensures KeyBefore(a, b) || KeyBefore(b, a) || a == b
  {
    BeforeIsStrictOrder(Utf16(a), Utf16(b), Utf16(c));
    if Utf16(a) == Utf16(b) { Utf16Injective(a, b); }
  }

  // ----- canonical form -----

  function Canon(j: Json): Json {
    match j
    case Arr(items) => Arr(CanonItems(items))
    case Obj(members) => Obj(CanonMembers(members))
    case _ => j
  }

  function CanonItems(items: seq<Json>): seq<Json> {
    if items == [] then [] else [Canon(items[0])] + CanonItems(items[1..])
  }

  function CanonMembers(members: seq<Member>): seq<Member> {
    if members == [] then []
    else Insert(Member(members[0].key, Canon(members[0].value)), CanonMembers(members[1..]))
  }

  function Insert(m: Member, sorted: seq<Member>): (r: seq<Member>)
    ensures forall x :: x in r <==> x == m || x in sorted
  {
    if sorted == [] || KeyBefore(m.key, sorted[0].key) then [m] + sorted
    else [sorted[0]] + Insert(m, sorted[1..])
  }

  // Every object of the document has its members in ascending order.
  predicate Canonical(j: Json) {
    match j
    case Arr(items) => AllCanonical(items)
    case Obj(members) => MembersCanonical(members)
    case _ => true
  }

  predicate AllCanonical(items: seq<Json>) {
    items == [] || (Canonical(items[0]) && AllCanonical(items[1..]))
  }

  predicate MembersCanonical(members: seq<Member>) {
    members == []
    || (&& (forall m :: m in members[1..] ==> KeyBefore(members[0].key, m.key))
        && Canonical(members[0].value)
        && MembersCanonical(members[1..]))
  }

  lemma {:induction false} InsertCanonical(m: Member, sorted: seq<Member>)
    requires MembersCanonical(sorted) && Canonical(m.value) && m.key !in Names(sorted)
    ensures MembersCanonical(Insert(m, sorted))
  {
    if sorted != [] {
      assert sorted[0] in sorted;
      KeyOrder(m.key, sorted[0].key, m.key);
      if KeyBefore(m.key, sorted[0].key) {
        assert ([m] + sorted)[1..] == sorted;
        forall x | x in sorted ensures KeyBefore(m.key, x.key) {
          if x != sorted[0] {
            assert x in sorted[1..];
            KeyOrder(m.key, sorted[0].key, x.key);
          }
        }
      } else {
        InsertCanonical(m, sorted[1..]);
        assert Insert(m, sorted)[1..] == Insert(m, sorted[1..]);
      }
    }
  }

  lemma {:induction false} InsertMeaning(m: Member, sorted: seq<Member>)
    requires m.key !in Names(sorted)
    ensures DenoteMembers(Insert(m, sorted)) == DenoteMembers(sorted)[m.key := Denote(m.value)]
  {
    if sorted == [] || KeyBefore(m.key, sorted[0].key) {
      ConsMeaning(m, sorted);
    } else {
      NamesSplit(sorted);
      InsertMeaning(m, sorted[1..]);
      ConsMeaning(sorted[0], Insert(m, sorted[1..]));
      PutCommutes(sorted[0].key, Denote(sorted[0].value), m.key, Denote(m.value), DenoteMembers(sorted[1..]));
    }
  }

  lemma {:induction false} PutCommutes(k: string, v: Value, key: string, w: Value, rest: map<string, Value>)
    requires k != key
    ensures Put(k, v, rest[key := w]) == Put(k, v, rest)[key := w]
  {
    assert k in rest[key := w] <==> k in rest;
  }

  lemma {:induction false} CanonKeepsMeaning(j: Json)
    requires WellKeyed(j)
    ensures Canonical(Canon(j)) && Denote(Canon(j)) == Denote(j)
    decreases j, 0
  {
    match j
    case Arr(items) => CanonItemsKeepMeaning(items);
    case Obj(members) => CanonMembersKeepMeaning(members);
    case _ =>
  }

  lemma {:induction false} CanonItemsKeepMeaning(items: seq<Json>)
    requires AllWellKeyed(items)
    ensures AllCanonical(CanonItems(items)) && DenoteItems(CanonItems(items)) == DenoteItems(items)
    decreases items, 1
  {
    if items != [] {
      CanonKeepsMeaning(items[0]);
      CanonItemsKeepMeaning(items[1..]);
      assert CanonItems(items)[1..] == CanonItems(items[1..]);
    }
  }

  lemma {:induction false} CanonMembersKeepMeaning(members: seq<Member>)
    requires MembersWellKeyed(members)
    ensures MembersCanonical(CanonMembers(members)) && DenoteMembers(CanonMembers(members)) == DenoteMembers(members)
    decreases members, 1
  {
    if members != [] {
      CanonKeepsMeaning(members[0].value);
      CanonMembersKeepMeaning(members[1..]);
      var m := Member(members[0].key, Canon(members[0].value));
      assert Names(CanonMembers(members[1..])) == DenoteMembers(members[1..]).Keys == Names(members[1..]);
      InsertCanonical(m, CanonMembers(members[1..]));
      InsertMeaning(m, CanonMembers(members[1..]));
    }
  }

  // Canonical documents that say the same are the same document.
  lemma {:induction false} CanonicalIsUnique(a: Json, b: Json)
    requires Canonical(a) && Canonical(b) && Denote(a) == Denote(b)
    ensures a == b
    decreases a, 0
  {
    match a
    case Arr(items) => CanonicalItemsUnique(items, b.items);
    case Obj(members) => CanonicalMembersUnique(members, b.members);
    case _ =>
  }

  lemma {:induction false} CanonicalItemsUnique(a: seq<Json>, b: seq<Json>)
    requires AllCanonical(a) && AllCanonical(b) && DenoteItems(a) == DenoteItems(b)
    ensures a == b
    decreases a, 1
  {
    if a != [] {
      assert Denote(a[0]) == DenoteItems(a)[0] == DenoteItems(b)[0] == Denote(b[0]);
      assert DenoteItems(a[1..]) == DenoteItems(a)[1..] == DenoteItems(b)[1..] == DenoteItems(b[1..]);
      CanonicalIsUnique(a[0], b[0]);
      CanonicalItemsUnique(a[1..], b[1..]);
      assert a == [a[0]] + a[1..] && b == [b[0]] + b[1..];
    }
  }

  lemma {:induction false} FirstIsLeast(members: seq<Member>)
    requires members != [] && MembersCanonical(members)
    ensures Names(members) == {members[0].key} + Names(members[1..]) && members[0].key !in Names(members[1..])
    ensures forall k :: k in Names(members[1..]) ==> KeyBefore(members[0].key, k)
  {
    NamesSplit(members);
    KeyOrder(members[0].key, members[0].key, members[0].key);
  }

  lemma {:induction false} HeadAndRest(members: seq<Member>)
    requires members != [] && members[0].key !in Names(members[1..])
    ensures members[0].key in DenoteMembers(members)
    ensures DenoteMembers(members)[members[0].key] == Denote(members[0].value)
    ensures DenoteMembers(members[1..]) == DenoteMembers(members) - {members[0].key}
  {
    NamesSplit(members);
  }

  lemma {:induction false} CanonicalMembersUnique(a: seq<Member>, b: seq<Member>)
    requires MembersCanonical(a) && MembersCanonical(b) && DenoteMembers(a) == DenoteMembers(b)
    ensures a == b
    decreases a, 1
  {
    if a == [] {
      if b != [] { FirstIsLeast(b); }
    } else {
      FirstIsLeast(a);
      assert a[0].key in Names(b);
      FirstIsLeast(b);
      HeadAndRest(a);
      HeadAndRest(b);
      KeyOrder(a[0].key, b[0].key, a[0].key);
      CanonicalIsUnique(a[0].value, b[0].value);
      CanonicalMembersUnique(a[1..], b[1..]);
      assert a == [a[0]] + a[1..] && b == [b[0]] + b[1..];
    }
  }

  // Two documents have one canonical form exactly when they say the same.
  lemma {:induction false} CanonDecidesMeaning(a: Json, b: Json)
    requires WellKeyed(a) && WellKeyed(b)
    ensures Canon(a) == Canon(b) <==> Denote(a) == Denote(b)
  {
    CanonKeepsMeaning(a);
    CanonKeepsMeaning(b);
    if Denote(a) == Denote(b) { CanonicalIsUnique(Canon(a), Canon(b)); }
  }

  // ----- the order of RFC 8785 -----

  // A character beyond the basic plane is two surrogates, high before low.
  lemma {:induction false} CodeUnitsAreUtf16(c: char)
    ensures var u, n := CodeUnits(c), c as int;
      if n < 0x10000 then u == [n]
      else
        && |u| == 2 && 0xD800 <= u[0] <= 0xDBFF && 0xDC00 <= u[1] <= 0xDFFF
        && n == 0x10000 + (u[0] - 0xD800) * 0x400 + (u[1] - 0xDC00)
  {
    assert c as int < 0x110000;
  }

  // The units of a string are those of its characters, in order.
  lemma {:induction false} Utf16Appends(s: string, t: string)
    ensures Utf16(s + t) == Utf16(s) + Utf16(t)
    ensures |s| == 1 ==> Utf16(s) == CodeUnits(s[0])
  {
    if s == "" {
      assert s + t == t;
    } else {
      assert (s + t)[1..] == s[1..] + t;
      Utf16Appends(s[1..], t);
      assert |s| == 1 ==> Utf16(s[1..]) == [];
    }
  }

  // The first unit that differs is smaller, or there is none and a is shorter.
  predicate FirstDiffers(a: seq<int>, b: seq<int>, d: int) {
    && 0 <= d <= |a| && d < |b| && (forall i | 0 <= i < d :: a[i] == b[i])
    && (d == |a| || a[d] < b[d])
  }

  lemma {:induction false} BeforeIsLexicographic(a: seq<int>, b: seq<int>)
    ensures Before(a, b) ==> exists d :: FirstDiffers(a, b, d)
  {
    if Before(a, b) {
      if a == [] || a[0] < b[0] {
        assert FirstDiffers(a, b, 0);
      } else {
        BeforeIsLexicographic(a[1..], b[1..]);
        var d :| FirstDiffers(a[1..], b[1..], d);
        assert forall i | 0 < i < d + 1 :: a[i] == a[1..][i - 1] && b[i] == b[1..][i - 1];
        assert FirstDiffers(a, b, d + 1);
      }
    }
  }

  lemma {:induction false} CanonicalIsSorted(members: seq<Member>, i: nat, k: nat)
    requires MembersCanonical(members) && i < k < |members|
    ensures KeyBefore(members[i].key, members[k].key)
  {
    if i > 0 {
      CanonicalIsSorted(members[1..], i - 1, k - 1);
    } else {
      assert members[1..][k - 1] == members[k];
    }
  }

  // Members are in the order of their names' UTF-16 code units, and they are
  // the document's own members, their values in canonical form.
  lemma {:induction false} SortedByCodeUnits(members: seq<Member>, i: nat, k: nat)
    requires MembersWellKeyed(members) && i < k < |CanonMembers(members)|
    ensures exists d :: FirstDiffers(Utf16(CanonMembers(members)[i].key), Utf16(CanonMembers(members)[k].key), d)
  {
    CanonMembersKeepMeaning(members);
    CanonicalIsSorted(CanonMembers(members), i, k);
    BeforeIsLexicographic(Utf16(CanonMembers(members)[i].key), Utf16(CanonMembers(members)[k].key));
  }

  lemma {:induction false} InsertAddsOne(m: Member, sorted: seq<Member>)
    ensures multiset(Insert(m, sorted)) == multiset(sorted) + multiset{m}
  {
    if sorted == [] || KeyBefore(m.key, sorted[0].key) {
    } else {
      InsertAddsOne(m, sorted[1..]);
      assert sorted == [sorted[0]] + sorted[1..];
    }
  }

  function EachCanon(members: seq<Member>): (r: seq<Member>)
    ensures |r| == |members|
    ensures forall i | 0 <= i < |r| :: r[i] == Member(members[i].key, Canon(members[i].value))
  {
    seq(|members|, i requires 0 <= i < |members| => Member(members[i].key, Canon(members[i].value)))
  }

  lemma {:induction false} CanonPermutes(members: seq<Member>)
    ensures multiset(CanonMembers(members)) == multiset(EachCanon(members))
  {
    if members != [] {
      CanonPermutes(members[1..]);
      InsertAddsOne(EachCanon(members)[0], CanonMembers(members[1..]));
      assert EachCanon(members) == [EachCanon(members)[0]] + EachCanon(members[1..]);
    }
  }
}
