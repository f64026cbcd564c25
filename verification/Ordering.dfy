// Strings in the order Go's sort.Strings puts them, and the sorted listing of
// a finite set of names.
module Ordering {
  predicate Le(a: string, b: string) {
    a == "" || (b != "" && (a[0] < b[0] || (a[0] == b[0] && Le(a[1..], b[1..]))))
  }

  lemma {:induction false} LeTotal(a: string, b: string)
    ensures Le(a, b) || Le(b, a)
    ensures Le(a, b) && Le(b, a) ==> a == b
  {
    if a != "" && b != "" && a[0] == b[0] {
      LeTotal(a[1..], b[1..]);
      assert a == [a[0]] + a[1..] && b == [b[0]] + b[1..];
    }
  }

  lemma {:induction false} LeTransitive(a: string, b: string, c: string)
    requires Le(a, b) && Le(b, c)
    ensures Le(a, c)
  {
    if a != "" && a[0] == b[0] == c[0] {
      LeTransitive(a[1..], b[1..], c[1..]);
    }
  }

  // The first character that differs is smaller, or there is none and a is no
  // longer than b.
  predicate Precedes(a: string, b: string, d: int) {
    && 0 <= d <= |a| && d <= |b| && a[..d] == b[..d]
    && (d == |a| || (d < |b| && a[d] < b[d]))
  }

  lemma {:induction false} LeIsLexicographic(a: string, b: string)
    ensures Le(a, b) <==> exists d :: Precedes(a, b, d)
  {
    if a == "" {
      assert Precedes(a, b, 0);
    } else if b != "" {
      LeIsLexicographic(a[1..], b[1..]);
      if a[0] < b[0] {
        assert Precedes(a, b, 0);
      } else if d :| Precedes(a[1..], b[1..], d) {
        if a[0] == b[0] {
          assert a[..d + 1] == [a[0]] + a[1..][..d] && b[..d + 1] == [b[0]] + b[1..][..d];
          assert Precedes(a, b, d + 1);
        }
      }
      if d :| Precedes(a, b, d) {
        if d > 0 {
          assert a[0] == a[..d][0] && b[0] == b[..d][0];
          assert a[1..][..d - 1] == a[..d][1..] && b[1..][..d - 1] == b[..d][1..];
          assert Precedes(a[1..], b[1..], d - 1);
        }
      }
    }
  }

  predicate Least(s: set<string>, x: string) {
    x in s && forall y | y in s :: Le(x, y)
  }

  lemma {:induction false} LeastExists(s: set<string>) returns (x: string)
    requires s != {}
    ensures Least(s, x)
  {
    var y :| y in s;
    var rest := s - {y};
    LeTotal(y, y);
    if rest == {} {
      x := y;
      assert forall z :: z in s ==> z == y || z in rest;
    } else {
      var z := LeastExists(rest);
      LeTotal(y, z);
      x := if Le(y, z) then y else z;
      forall w | w in s ensures Le(x, w) {
        if w != y {
          assert w in rest;
          if x == y { LeTransitive(y, z, w); }
        }
      }
    }
  }

  lemma {:induction false} OneLeast(s: set<string>)
    requires s != {}
    ensures exists x :: Least(s, x)
    ensures forall x, y :: Least(s, x) && Least(s, y) ==> x == y
  {
    var least := LeastExists(s);
    forall x, y | Least(s, x) && Least(s, y) ensures x == y { LeTotal(x, y); }
  }

  function LeastOf(s: set<string>): (x: string)
    requires s != {}
    ensures Least(s, x)
  {
    OneLeast(s);
    var least :| Least(s, least);
    least
  }

  // r holds the elements of s, each once, in ascending order.
  ghost predicate Lists(r: seq<string>, s: set<string>) {
    && |r| == |s|
    && (forall x :: x in r <==> x in s)
    && forall i, j :: 0 <= i < j < |r| ==> Le(r[i], r[j]) && r[i] != r[j]
  }

  lemma {:induction false} LeastFirst(s: set<string>, least: string, rest: seq<string>)
    requires Least(s, least) && Lists(rest, s - {least})
    ensures Lists([least] + rest, s)
  {
    var r := [least] + rest;
    assert s == {least} + (s - {least});
    forall i, j | 0 <= i < j < |r| ensures Le(r[i], r[j]) && r[i] != r[j] {
      assert r[j] == rest[j - 1] && rest[j - 1] in s - {least};
      if i > 0 { assert r[i] == rest[i - 1]; }
    }
  }

  function Sorted(s: set<string>): (r: seq<string>)
    ensures Lists(r, s)
  {
    if s == {} then []
    else
      var least := LeastOf(s);
      var rest := Sorted(s - {least});
      LeastFirst(s, least, rest);
      [least] + rest
  }
}
