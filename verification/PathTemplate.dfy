// Substituting configuration into a request path template: key by key, in
// sorted order, then the reserved model placeholder.
module PathTemplate {
  import opened Ordering
  import opened Strings
  import opened Wrappers

  // ----- the substitution as it runs -----

  // Every non-overlapping occurrence from the left.
  function ReplaceAll(s: string, old_: string, with: string): string
    requires old_ != ""
  {
    if |s| < |old_| then s
    else if s[..|old_|] == old_ then with + ReplaceAll(s[|old_|..], old_, with)
    else [s[0]] + ReplaceAll(s[1..], old_, with)
  }

  function Placeholder(key: string): (r: string)
    ensures r != ""
  {
    "{" + key + "}"
  }

  function ReplaceKeys(s: string, keys: seq<string>, cfg: map<string, string>): string {
    if keys == [] then s
    else
      var k := keys[|keys| - 1];
      var before := ReplaceKeys(s, keys[..|keys| - 1], cfg);
      if k in cfg then ReplaceAll(before, Placeholder(k), cfg[k]) else before
  }

  // A brace pair around at least one character other than the closing brace.
  predicate PlaceholderAt(s: string, i: int, j: int) {
    0 <= i && i + 1 < j < |s| && s[i] == '{' && s[j] == '}' && '}' !in s[i + 1..j]
  }

  predicate HasPlaceholder(s: string) {
    exists i, j | 0 <= i < j < |s| :: PlaceholderAt(s, i, j)
  }

  // Unresolved stands for the error that lists the remaining placeholders.
  datatype Unresolved = Unresolved

  function ResolvedIn(tmpl: string, targetModel: string, cfg: map<string, string>, order: seq<string>)
    : Result<string, Unresolved>
  {
    if '{' !in tmpl then Ok(tmpl)
    else
      var path := ReplaceAll(ReplaceKeys(tmpl, order, cfg), Placeholder("model"), targetModel);
      if HasPlaceholder(path) then Err(Unresolved) else Ok(path)
  }

  method SubstituteKeys(tmpl: string, keys: seq<string>, cfg: map<string, string>) returns (path: string)
    requires forall k | k in keys :: k in cfg
    ensures path == ReplaceKeys(tmpl, keys, cfg)
  {
    path := tmpl;
    var i := 0;
    while i < |keys|
      invariant 0 <= i <= |keys|
      invariant path == ReplaceKeys(tmpl, keys[..i], cfg)
    {
      assert keys[i] in keys;
      assert keys[..i + 1][..i] == keys[..i];
      path := ReplaceAll(path, Placeholder(keys[i]), cfg[keys[i]]);
      i := i + 1;
    }
    assert keys[..|keys|] == keys;
  }

  method ResolvePath(tmpl: string, targetModel: string, cfg: map<string, string>)
    returns (r: Result<string, Unresolved>)
    ensures r == ResolvedIn(tmpl, targetModel, cfg, Sorted(cfg.Keys))
    ensures r.Ok? ==> !HasPlaceholder(r.value)
  {
    if '{' !in tmpl { return Ok(tmpl); }
    var path := SubstituteKeys(tmpl, Sorted(cfg.Keys), cfg);
    path := ReplaceAll(path, Placeholder("model"), targetModel);
    if HasPlaceholder(path) { return Err(Unresolved); }
    r := Ok(path);
  }

  // ----- templates as pieces -----

  datatype Piece = Literal(c: char) | Hole(key: string)

  predicate NoBraces(s: string) {
    '{' !in s && '}' !in s
  }

  predicate Clean(p: Piece) {
    match p
    case Literal(c) => c != '{' && c != '}'
    case Hole(key) => NoBraces(key)
  }

  predicate AllClean(ps: seq<Piece>) {
    forall p | p in ps :: Clean(p)
  }

  function Text(ps: seq<Piece>): string {
    if ps == [] then ""
    else (match ps[0] case Literal(c) => [c] case Hole(key) => Placeholder(key)) + Text(ps[1..])
  }

  // The pieces of a template whose braces are closed and not nested.
  function Parse(t: string): Option<seq<Piece>> {
    if t == "" then Some([])
    else if t[0] == '}' then None
    else if t[0] == '{' then
      var n := IndexOf(t, '}');
      if n == |t| || '{' in t[1..n] then None
      else match Parse(t[n + 1..])
           case None => None
           case Some(rest) => Some([Hole(t[1..n])] + rest)
    else match Parse(t[1..])
         case None => None
         case Some(rest) => Some([Literal(t[0])] + rest)
  }

  lemma {:induction false} ParseRenders(t: string)
    requires Parse(t).Some?
    ensures AllClean(Parse(t).value) && Text(Parse(t).value) == t
  {
    if t != "" {
      if t[0] == '{' {
        var n := IndexOf(t, '}');
        ParseRenders(t[n + 1..]);
        HoleInFront(t, n, Parse(t[n + 1..]).value);
      } else {
        ParseRenders(t[1..]);
        PieceInFront(Literal(t[0]), Parse(t[1..]).value);
      }
    }
  }

  lemma {:induction false} HoleInFront(t: string, n: nat, rest: seq<Piece>)
    requires 1 <= n < |t| && t[0] == '{' && t[n] == '}' && '}' !in t[..n] && '{' !in t[1..n]
    requires AllClean(rest) && Text(rest) == t[n + 1..]
    ensures AllClean([Hole(t[1..n])] + rest) && Text([Hole(t[1..n])] + rest) == t
  {
    forall c | c in t[1..n] ensures c in t[..n] {
      var i :| 0 <= i < |t[1..n]| && t[1..n][i] == c;
      assert t[..n][i + 1] == c;
    }
    PieceInFront(Hole(t[1..n]), rest);
    assert t == Placeholder(t[1..n]) + t[n + 1..];
  }

  lemma {:induction false} PieceInFront(p: Piece, rest: seq<Piece>)
    requires Clean(p) && AllClean(rest)
    ensures AllClean([p] + rest)
    ensures Text([p] + rest) == (match p case Literal(c) => [c] case Hole(key) => Placeholder(key)) + Text(rest)
  {
    assert ([p] + rest)[1..] == rest;
  }

  // ----- filling holes -----

  function Literals(s: string): (r: seq<Piece>)
    ensures |r| == |s| && forall i | 0 <= i < |s| :: r[i] == Literal(s[i])
  {
    if s == "" then [] else [Literal(s[0])] + Literals(s[1..])
  }

  function Fill(p: Piece, m: map<string, string>): seq<Piece> {
    if p.Hole? && p.key in m then Literals(m[p.key]) else [p]
  }

  // All holes with a value filled at once.
  function Substitute(ps: seq<Piece>, m: map<string, string>): seq<Piece> {
    if ps == [] then [] else Fill(ps[0], m) + Substitute(ps[1..], m)
  }

  lemma {:induction false} TextConcat(a: seq<Piece>, b: seq<Piece>)
    ensures Text(a + b) == Text(a) + Text(b)
  {
    if a == [] {
      assert a + b == b;
    } else {
      assert (a + b)[1..] == a[1..] + b;
      TextConcat(a[1..], b);
    }
  }

  lemma {:induction false} TextOfLiterals(s: string)
    ensures Text(Literals(s)) == s
  {
    if s != "" {
      TextOfLiterals(s[1..]);
      assert Literals(s)[1..] == Literals(s[1..]);
    }
  }

  // Text without an opening brace passes through a replacement.
  lemma {:induction false} PlainPasses(plain: string, rest: string, key: string, with: string)
    requires '{' !in plain
    ensures ReplaceAll(plain + rest, Placeholder(key), with) == plain + ReplaceAll(rest, Placeholder(key), with)
  {
    if plain == "" {
      assert plain + rest == rest;
    } else {
      var s := plain + rest;
      assert s[0] != '{' && s[1..] == plain[1..] + rest;
      PlainPasses(plain[1..], rest, key, with);
      if |s| >= |Placeholder(key)| {
        assert s[..|Placeholder(key)|][0] == s[0];
      } else {
        assert ReplaceAll(s[1..], Placeholder(key), with) == s[1..];
      }
    }
  }

  // Only the placeholder of the key itself starts with the key's placeholder.
  lemma {:induction false} OwnHole(h: string, key: string, rest: string)
    requires NoBraces(h) && NoBraces(key) && Placeholder(key) <= Placeholder(h) + rest
    ensures h == key
  {
    var a, b := Placeholder(key), Placeholder(h) + rest;
    assert a[|key| + 1] == '}' && b[|h| + 1] == '}';
    assert forall i | 0 <= i < |key| :: b[i + 1] == a[i + 1] == key[i];
    assert forall i | 0 <= i < |h| :: b[i + 1] == h[i];
    assert b[|key| + 1] == a[|key| + 1];
  }

  lemma {:induction false} HoleReplaced(h: string, key: string, rest: string, with: string)
    requires NoBraces(h) && NoBraces(key)
    ensures ReplaceAll(Placeholder(h) + rest, Placeholder(key), with)
         == (if h == key then with else Placeholder(h)) + ReplaceAll(rest, Placeholder(key), with)
  {
    var s := Placeholder(h) + rest;
    if h == key {
      assert s[..|Placeholder(key)|] == Placeholder(key) && s[|Placeholder(key)|..] == rest;
    } else {
      if Placeholder(key) <= s { OwnHole(h, key, rest); }
      NoMatchInFront(s, Placeholder(key), with);
      assert s[1..] == (h + "}") + rest;
      PlainPasses(h + "}", rest, key, with);
      assert Placeholder(h) == ['{'] + (h + "}");
    }
  }

  lemma {:induction false} NoMatchInFront(s: string, old_: string, with: string)
    requires old_ != "" && s != "" && !(old_ <= s)
    ensures ReplaceAll(s, old_, with) == [s[0]] + ReplaceAll(s[1..], old_, with)
  {
    if |s| < |old_| {
      assert s == [s[0]] + s[1..];
    } else {
      assert s[..|old_|] != old_;
    }
  }

  lemma {:induction false} ReplaceFills(ps: seq<Piece>, key: string, with: string)
    requires AllClean(ps) && NoBraces(key)
    ensures ReplaceAll(Text(ps), Placeholder(key), with) == Text(Substitute(ps, map[key := with]))
  {
    if ps != [] {
      var m := map[key := with];
      assert Clean(ps[0]) by { assert ps[0] in ps; }
      ReplaceFills(ps[1..], key, with);
      TextConcat(Fill(ps[0], m), Substitute(ps[1..], m));
      assert Text([ps[0]]) == (match ps[0] case Literal(c) => [c] case Hole(h) => Placeholder(h)) + Text([]);
      match ps[0]
      case Literal(c) => PlainPasses([c], Text(ps[1..]), key, with);
      case Hole(h) =>
        HoleReplaced(h, key, Text(ps[1..]), with);
        TextOfLiterals(with);
    }
  }

  lemma {:induction false} LiteralsStay(s: string, m: map<string, string>)
    ensures Substitute(Literals(s), m) == Literals(s)
  {
    if s != "" {
      LiteralsStay(s[1..], m);
      assert Literals(s)[1..] == Literals(s[1..]);
    }
  }

  lemma {:induction false} SubstituteConcat(a: seq<Piece>, b: seq<Piece>, m: map<string, string>)
    ensures Substitute(a + b, m) == Substitute(a, m) + Substitute(b, m)
  {
    if a == [] {
      assert a + b == b;
    } else {
      assert (a + b)[1..] == a[1..] + b;
      SubstituteConcat(a[1..], b, m);
    }
  }

  // Filling in two rounds is filling once, the first round taking precedence.
  lemma {:induction false} SubstituteTwice(ps: seq<Piece>, m: map<string, string>, n: map<string, string>)
    ensures Substitute(Substitute(ps, m), n) == Substitute(ps, n + m)
  {
    if ps != [] {
      SubstituteTwice(ps[1..], m, n);
      SubstituteConcat(Fill(ps[0], m), Substitute(ps[1..], m), n);
      if ps[0].Hole? && ps[0].key in m {
        LiteralsStay(m[ps[0].key], n);
      } else {
        assert Substitute([ps[0]], n) == Fill(ps[0], n) + Substitute([], n);
        assert Fill(ps[0], n) + [] == Fill(ps[0], n);
      }
    }
  }

  predicate BraceFree(m: map<string, string>) {
    forall k | k in m :: NoBraces(k) && NoBraces(m[k])
  }

  lemma {:induction false} SubstituteStaysClean(ps: seq<Piece>, m: map<string, string>)
    requires AllClean(ps) && BraceFree(m)
    ensures AllClean(Substitute(ps, m))
  {
    if ps != [] {
      assert ps[0] in ps && AllClean(ps[1..]);
      SubstituteStaysClean(ps[1..], m);
      if ps[0].Hole? && ps[0].key in m {
        var v := m[ps[0].key];
        forall p | p in Literals(v) ensures Clean(p) {
          var i :| 0 <= i < |v| && Literals(v)[i] == p;
          assert v[i] in v;
        }
      }
    }
  }

  function Restricted(cfg: map<string, string>, keys: seq<string>): map<string, string> {
    map k | k in cfg && k in keys :: cfg[k]
  }

  lemma {:induction false} KeysFill(ps: seq<Piece>, keys: seq<string>, cfg: map<string, string>)
    requires AllClean(ps) && BraceFree(cfg)
    ensures ReplaceKeys(Text(ps), keys, cfg) == Text(Substitute(ps, Restricted(cfg, keys)))
  {
    if keys == [] {
      NothingToFill(ps);
      assert Restricted(cfg, keys) == map[];
    } else {
      var k, front := keys[|keys| - 1], keys[..|keys| - 1];
      KeysFill(ps, front, cfg);
      assert keys == front + [k];
      var done := Restricted(cfg, front);
      if k in cfg {
        SubstituteStaysClean(ps, done);
        ReplaceFills(Substitute(ps, done), k, cfg[k]);
        SubstituteTwice(ps, done, map[k := cfg[k]]);
        assert map[k := cfg[k]] + done == Restricted(cfg, keys);
      } else {
        assert done == Restricted(cfg, keys);
      }
    }
  }

  lemma {:induction false} NothingToFill(ps: seq<Piece>)
    ensures Substitute(ps, map[]) == ps
  {
    if ps != [] { NothingToFill(ps[1..]); }
  }

  // ----- what is left over -----

  predicate Unfilled(ps: seq<Piece>) {
    exists p :: p in ps && p.Hole? && p.key != ""
  }

  // The simultaneous substitution: every hole by its configuration value, the
  // model's hole by the target model when the configuration has none.
  function Simultaneous(ps: seq<Piece>, targetModel: string, cfg: map<string, string>): Result<string, Unresolved> {
    var filled := Substitute(ps, map["model" := targetModel] + cfg);
    if Unfilled(filled) then Err(Unresolved) else Ok(Text(filled))
  }

  lemma {:induction false} ShiftedPlaceholder(front: string, s: string, i: int, j: int)
    requires 0 <= i
    ensures PlaceholderAt(front + s, |front| + i, |front| + j) <==> PlaceholderAt(s, i, j)
  {
    if i + 1 < j < |s| {
      assert (front + s)[|front| + i + 1..|front| + j] == s[i + 1..j];
    }
  }

  // A front in which no placeholder can start.
  lemma {:induction false} NoneStartsInFront(front: string, s: string)
    requires forall i, j | 0 <= i < |front| :: !PlaceholderAt(front + s, i, j)
    ensures HasPlaceholder(front + s) <==> HasPlaceholder(s)
  {
    var t := front + s;
    if HasPlaceholder(s) {
      var i, j :| 0 <= i < j < |s| && PlaceholderAt(s, i, j);
      ShiftedPlaceholder(front, s, i, j);
    }
    if HasPlaceholder(t) {
      var i, j :| 0 <= i < j < |t| && PlaceholderAt(t, i, j);
      ShiftedPlaceholder(front, s, i - |front|, j - |front|);
    }
  }

  lemma {:induction false} PlaceholderPastText(plain: string, s: string)
    requires '{' !in plain
    ensures HasPlaceholder(plain + s) <==> HasPlaceholder(s)
  {
    forall i, j | 0 <= i < |plain| ensures !PlaceholderAt(plain + s, i, j) {
      assert (plain + s)[i] == plain[i] && plain[i] in plain;
    }
    NoneStartsInFront(plain, s);
  }

  lemma {:induction false} EmptyHole(s: string)
    ensures HasPlaceholder("{}" + s) <==> HasPlaceholder(s)
  {
    var t := "{}" + s;
    assert t[0] == '{' && t[1] == '}';
    forall i, j | 0 <= i < 2 ensures !PlaceholderAt(t, i, j) {
      if i == 0 && 1 < j < |t| { assert t[1] in t[1..j]; }
    }
    NoneStartsInFront("{}", s);
  }

  lemma {:induction false} LeftoverIsUnfilled(ps: seq<Piece>)
    requires AllClean(ps)
    ensures HasPlaceholder(Text(ps)) <==> Unfilled(ps)
  {
    if ps != [] {
      var rest := Text(ps[1..]);
      assert Clean(ps[0]) by { assert ps[0] in ps; }
      LeftoverIsUnfilled(ps[1..]);
      assert Unfilled(ps) <==> (ps[0].Hole? && ps[0].key != "") || Unfilled(ps[1..]) by {
        assert forall p :: p in ps <==> p == ps[0] || p in ps[1..];
      }
      match ps[0]
      case Literal(c) => PlaceholderPastText([c], rest);
      case Hole(key) =>
        if key == "" {
          assert Placeholder(key) + rest == "{}" + rest;
          EmptyHole(rest);
        } else {
          var t := Placeholder(key) + rest;
          assert t[0 + 1..|key| + 1] == key;
          assert PlaceholderAt(t, 0, |key| + 1);
        }
    }
  }

  // ----- the order of keys -----

  predicate Lists(order: seq<string>, cfg: map<string, string>) {
    forall k | k in cfg :: k in order
  }

  // Without braces in names, values and target model, and with the template's
  // braces closed and not nested, every order of the keys gives what filling
  // all holes at once gives.
  lemma {:induction false} AnyOrderIsSimultaneous(tmpl: string, targetModel: string, cfg: map<string, string>,
                                                  order: seq<string>)
    requires Parse(tmpl).Some? && NoBraces(targetModel) && BraceFree(cfg) && Lists(order, cfg)
    ensures ResolvedIn(tmpl, targetModel, cfg, order) == Simultaneous(Parse(tmpl).value, targetModel, cfg)
  {
    var ps := Parse(tmpl).value;
    ParseRenders(tmpl);
    ReplacedIsFilled(ps, targetModel, cfg, order);
    LeftoverIsUnfilled(Substitute(ps, map["model" := targetModel] + cfg));
    if '{' !in tmpl {
      NoHoles(ps, map["model" := targetModel] + cfg);
      assert !HasPlaceholder(tmpl);
    }
  }

  lemma {:induction false} ReplacedIsFilled(ps: seq<Piece>, targetModel: string, cfg: map<string, string>,
                                            order: seq<string>)
    requires AllClean(ps) && NoBraces(targetModel) && BraceFree(cfg) && Lists(order, cfg)
    ensures var filled := Substitute(ps, map["model" := targetModel] + cfg);
      && AllClean(filled)
      && ReplaceAll(ReplaceKeys(Text(ps), order, cfg), Placeholder("model"), targetModel) == Text(filled)
  {
    KeysFill(ps, order, cfg);
    assert Restricted(cfg, order) == cfg;
    var model := map["model" := targetModel];
    SubstituteStaysClean(ps, cfg);
    assert NoBraces("model");
    ReplaceFills(Substitute(ps, cfg), "model", targetModel);
    SubstituteTwice(ps, cfg, model);
    SubstituteStaysClean(ps, model + cfg);
  }

  lemma {:induction false} NoHoles(ps: seq<Piece>, m: map<string, string>)
    requires '{' !in Text(ps)
    ensures Substitute(ps, m) == ps
  {
    if ps != [] {
      var head := match ps[0] case Literal(c) => [c] case Hole(key) => Placeholder(key);
      assert Text(ps) == head + Text(ps[1..]);
      NoHoles(ps[1..], m);
    }
  }

  lemma {:induction false} TwoKeys(s: string, a: string, b: string, cfg: map<string, string>)
    requires a in cfg && b in cfg
    ensures ReplaceKeys(s, [a, b], cfg)
         == ReplaceAll(ReplaceAll(s, Placeholder(a), cfg[a]), Placeholder(b), cfg[b])
  {
    assert [a, b][..1] == [a] && [a][..0] == [];
    assert ReplaceKeys(s, [a], cfg) == ReplaceAll(s, Placeholder(a), cfg[a]);
  }

  lemma {:induction false} PlainStays(plain: string, key: string, with: string)
    requires NoBraces(plain)
    ensures ReplaceAll(plain, Placeholder(key), with) == plain
  {
    PlainPasses(plain, "", key, with);
    assert plain + "" == plain;
  }

  // A value that names another placeholder makes the order matter, which is
  // why the keys are sorted: one order fills it and the other leaves it.
  lemma {:induction false} ChainedValuesDependOnOrder(a: string, b: string, front: string, back: string, z: string)
    requires NoBraces(a) && NoBraces(b) && a != b && NoBraces(front) && NoBraces(back)
    ensures var cfg := map[a := front + Placeholder(b) + back, b := z];
      && ReplaceKeys(Placeholder(a), [a, b], cfg) == front + z + back
      && ReplaceKeys(Placeholder(a), [b, a], cfg) == front + Placeholder(b) + back
  {
    var value := front + Placeholder(b) + back;
    var cfg := map[a := value, b := z];
    TwoKeys(Placeholder(a), a, b, cfg);
    TwoKeys(Placeholder(a), b, a, cfg);
    HoleReplaced(a, a, "", value);
    HoleReplaced(a, b, "", z);
    assert Placeholder(a) + "" == Placeholder(a) && value + "" == value;
    assert value == front + (Placeholder(b) + back);
    PlainPasses(front, Placeholder(b) + back, b, z);
    HoleReplaced(b, b, back, z);
    PlainStays(back, b, z);
    assert front + (z + back) == front + z + back;
  }
}
