// Go structs as JSON: a fixed list of distinct names, each with a value or,
// where omitempty leaves it out, none.
module JsonRecords {
  import opened Json
  import opened Wrappers

  predicate Distinct(keys: seq<string>) {
    forall i, j | 0 <= i < j < |keys| :: keys[i] != keys[j]
  }

  function Record(keys: seq<string>, values: seq<Option<Json>>): seq<Member>
    requires |keys| == |values|
  {
    if keys == [] then []
    else match values[0]
         case None => Record(keys[1..], values[1..])
         case Some(v) => [Member(keys[0], v)] + Record(keys[1..], values[1..])
  }

  // An object read into a map: a later member of the same name wins.
  function Entries(members: seq<Member>): map<string, Json> {
    if members == [] then map[]
    else
      var rest := Entries(members[1..]);
      if members[0].key in rest then rest else rest[members[0].key := members[0].value]
  }

  // Reading into a map and reading the meaning agree.
  lemma {:induction false} EntriesMeaning(members: seq<Member>)
    ensures Entries(members).Keys == Names(members) == DenoteMembers(members).Keys
    ensures forall k | k in Entries(members) :: Denote(Entries(members)[k]) == DenoteMembers(members)[k]
    ensures MembersWellKeyed(members) ==> forall k | k in Entries(members) :: WellKeyed(Entries(members)[k])
  {
    if members != [] {
      EntriesMeaning(members[1..]);
      NamesSplit(members);
    }
  }

  predicate AllKeyed(values: seq<Option<Json>>) {
    forall i | 0 <= i < |values| :: values[i].Some? ==> WellKeyed(values[i].value)
  }

  lemma {:induction false} RecordNames(keys: seq<string>, values: seq<Option<Json>>)
    requires |keys| == |values|
    ensures forall k | k in Names(Record(keys, values)) :: k in keys
  {
    if keys != [] {
      RecordNames(keys[1..], values[1..]);
      if values[0].Some? {
        NamesSplit(Record(keys, values));
        assert Record(keys, values)[1..] == Record(keys[1..], values[1..]);
      }
    }
  }

  lemma {:induction false} RecordKeyed(keys: seq<string>, values: seq<Option<Json>>)
    requires |keys| == |values| && Distinct(keys) && AllKeyed(values)
    ensures MembersWellKeyed(Record(keys, values))
  {
    if keys != [] {
      RecordKeyed(keys[1..], values[1..]);
      RecordNames(keys[1..], values[1..]);
      if values[0].Some? {
        assert Record(keys, values)[1..] == Record(keys[1..], values[1..]);
      }
    }
  }

  // Field i is found under its own name, when it is there at all.
  lemma {:induction false} RecordField(keys: seq<string>, values: seq<Option<Json>>, i: nat)
    requires |keys| == |values| && Distinct(keys) && i < |keys|
    ensures var m := Entries(Record(keys, values));
      (keys[i] in m <==> values[i].Some?) && (values[i].Some? ==> m[keys[i]] == values[i].value)
  {
    var rest := Record(keys[1..], values[1..]);
    NotAmongLater(keys, values);
    if values[0].Some? { EntriesInFront(Member(keys[0], values[0].value), rest); }
    if i > 0 { RecordField(keys[1..], values[1..], i - 1); }
  }

  lemma {:induction false} NotAmongLater(keys: seq<string>, values: seq<Option<Json>>)
    requires |keys| == |values| > 0 && Distinct(keys)
    ensures keys[0] !in Entries(Record(keys[1..], values[1..]))
  {
    RecordNames(keys[1..], values[1..]);
    EntriesMeaning(Record(keys[1..], values[1..]));
  }

  lemma {:induction false} EntriesInFront(m: Member, rest: seq<Member>)
    requires m.key !in Entries(rest)
    ensures Entries([m] + rest) == Entries(rest)[m.key := m.value]
  {
    assert ([m] + rest)[1..] == rest;
  }

  predicate SameValue(a: Option<Json>, b: Option<Json>) {
    match (a, b)
    case (None, None) => true
    case (Some(x), Some(y)) => Denote(x) == Denote(y)
    case _ => false
  }

  // Records over the same names say the same only field by field.
  lemma {:induction false} RecordDecides(keys: seq<string>, a: seq<Option<Json>>, b: seq<Option<Json>>, i: nat)
    requires |keys| == |a| == |b| && Distinct(keys) && i < |keys|
    requires DenoteMembers(Record(keys, a)) == DenoteMembers(Record(keys, b))
    ensures SameValue(a[i], b[i])
  {
    RecordField(keys, a, i);
    RecordField(keys, b, i);
    EntriesMeaning(Record(keys, a));
    EntriesMeaning(Record(keys, b));
  }
}
