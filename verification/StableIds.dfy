// The stable identities that tie an overlay candidate to its Envoy rule:
// printing, classifying and splitting them.
module StableIds {
  import opened Wrappers

  const PROVIDER_SEPARATOR := "/provider-"
  const MAX_STABLE_ID_BYTES: nat := 256

  /******* String helpers, as in Go's strings package *******/

  function Count(s: string, c: char): nat {
    if s == "" then 0 else (if s[0] == c then 1 else 0) + Count(s[1..], c)
  }

  function Split(s: string): (parts: seq<string>)
    ensures |parts| >= 1
  {
    if s == "" then [""]
    else if s[0] == '/' then [""] + Split(s[1..])
    else
      var rest := Split(s[1..]);
      [[s[0]] + rest[0]] + rest[1..]
  }

  function Join(parts: seq<string>): string
    requires parts != []
  {
    if |parts| == 1 then parts[0] else parts[0] + "/" + Join(parts[1..])
  }

  predicate At(s: string, sub: string, i: int) {
    0 <= i <= |s| - |sub| && s[i..i + |sub|] == sub
  }

  // The last position of sub that is at most i, or -1.
  function LastIndexUpTo(s: string, sub: string, i: int): (r: int)
    ensures -1 <= r <= i || r == -1
    ensures r >= 0 ==> At(s, sub, r)
    ensures forall k :: r < k <= i ==> !At(s, sub, k)
    decreases i
  {
    if i < 0 then -1 else if At(s, sub, i) then i else LastIndexUpTo(s, sub, i - 1)
  }

  function LastIndex(s: string, sub: string): int {
    LastIndexUpTo(s, sub, |s|)
  }

  predicate NoSlash(s: string) {
    forall i :: 0 <= i < |s| ==> s[i] != '/'
  }

  predicate Name(s: string) {
    s != "" && NoSlash(s)
  }

  /******* Printing *******/

  function CandidateStableId(model: string, provider: string): string {
    model + PROVIDER_SEPARATOR + provider
  }

  // Eight bytes, most significant first.
  function BigEndian(n: nat, bytes: nat): (r: string)
    ensures |r| == bytes
  {
    if bytes == 0 then "" else BigEndian(n / 256, bytes - 1) + [(n % 256) as char]
  }

  function LengthPrefixed(fields: seq<string>): string {
    if fields == [] then "" else BigEndian(|fields[0]|, 8) + fields[0] + LengthPrefixed(fields[1..])
  }

  // sha is the hex digest of the bytes written to the hash.
  function ScopedStableId(sha: string -> string, modelNamespace: string, model: string, providerNamespace: string,
                          provider: string): string {
    var fields := [modelNamespace, model, providerNamespace, provider];
    var id := Join(fields);
    if |id| <= MAX_STABLE_ID_BYTES then id else "sha256:" + sha(LengthPrefixed(fields))
  }

  predicate IsScoped(id: string) {
    Count(id, '/') != 1
  }

  /******* Splitting *******/

  function SplitCandidate(id: string): Option<(string, string)> {
    var index := LastIndex(id, PROVIDER_SEPARATOR);
    if index <= 0 || index + |PROVIDER_SEPARATOR| >= |id| then None
    else Some((id[..index], id[index + |PROVIDER_SEPARATOR|..]))
  }

  // model, provider namespace ("" for a local id) and provider.
  datatype Identity = Identity(model: string, providerNamespace: string, provider: string)

  function SplitTenant(id: string, namespace: string): Option<Identity> {
    if !IsScoped(id) then
      match SplitCandidate(id)
      case Some((model, provider)) => Some(Identity(model, "", provider))
      case None => None
    else
      var parts := Split(id);
      if |parts| != 4 || parts[0] != namespace then None
      else Some(Identity(parts[1], parts[2], parts[3]))
  }

  // The identity a kept rule carries once it is read back from its HTTPRoute:
  // a rule records no scoped identity, so a four-part one turns local.
  function Reread(id: string): string {
    var parts := Split(id);
    if IsScoped(id) && |parts| == 4 then CandidateStableId(parts[1], parts[3]) else id
  }

  /******* Splitting undoes printing *******/

  lemma {:induction false} CountConcat(a: string, b: string, c: char)
    ensures Count(a + b, c) == Count(a, c) + Count(b, c)
  {
    if a == "" {
      assert a + b == b;
    } else {
      assert (a + b)[1..] == a[1..] + b;
      CountConcat(a[1..], b, c);
    }
  }

  lemma {:induction false} NameHasNoSlash(s: string)
    requires NoSlash(s)
    ensures Count(s, '/') == 0
  {
    if s != "" {
      NameHasNoSlash(s[1..]);
    }
  }

  lemma {:induction false} SplitName(s: string, rest: string)
    requires forall i :: 0 <= i < |s| ==> s[i] != '/'
    ensures Split(s) == [s]
    ensures Split(s + "/" + rest) == [s] + Split(rest)
  {
    if s == "" {
      assert s + "/" + rest == "/" + rest;
    } else {
      SplitName(s[1..], rest);
      assert s == [s[0]] + s[1..];
      assert (s + "/" + rest)[1..] == s[1..] + "/" + rest;
    }
  }

  lemma {:induction false} OneMoreSlash(part: string, rest: string)
    requires NoSlash(part)
    ensures Count(part + "/" + rest, '/') == 1 + Count(rest, '/')
  {
    NameHasNoSlash(part);
    CountConcat(part + "/", rest, '/');
    CountConcat(part, "/", '/');
    assert Count("/", '/') == 1 + Count("", '/');
  }

  lemma {:induction false} SplitUndoesJoin(parts: seq<string>)
    requires parts != [] && forall i :: 0 <= i < |parts| ==> NoSlash(parts[i])
    ensures Split(Join(parts)) == parts
    ensures Count(Join(parts), '/') == |parts| - 1
  {
    if |parts| == 1 {
      NameHasNoSlash(parts[0]);
      SplitName(parts[0], "");
    } else {
      SplitUndoesJoin(parts[1..]);
      SplitName(parts[0], Join(parts[1..]));
      OneMoreSlash(parts[0], Join(parts[1..]));
    }
  }

  lemma {:induction false} JoinUndoesSplit(s: string)
    ensures Join(Split(s)) == s && forall i :: 0 <= i < |Split(s)| ==> NoSlash(Split(s)[i])
  {
    if s != "" {
      JoinUndoesSplit(s[1..]);
      var rest := Split(s[1..]);
      if s[0] == '/' {
        assert Split(s)[1..] == rest;
        assert s == "" + "/" + s[1..];
      } else {
        assert Split(s)[1..] == rest[1..];
        assert s == [s[0]] + s[1..];
        if |rest| > 1 {
          var more := Join(rest[1..]);
          assert [s[0]] + (rest[0] + "/" + more) == ([s[0]] + rest[0]) + "/" + more;
        }
      }
    }
  }

  // An identity belongs to the tenant exactly when it is the local form of a
  // model and a provider, or the four-part form with the tenant's namespace in
  // front; the parts may be any without a slash.
  lemma {:induction false} SplitTenantIsExact(id: string, namespace: string, identity: Identity)
    ensures SplitTenant(id, namespace) == Some(identity) <==>
      if Count(id, '/') == 1 then
        && identity.providerNamespace == "" && identity.model != "" && identity.provider != ""
        && id == identity.model + "/provider-" + identity.provider
      else
        && NoSlash(namespace) && NoSlash(identity.model)
        && NoSlash(identity.providerNamespace) && NoSlash(identity.provider)
        && id == Join([namespace, identity.model, identity.providerNamespace, identity.provider])
  {
    if Count(id, '/') == 1 {
      LocalSplitIsExact(id, identity.model, identity.provider);
    } else {
      var parts := [namespace, identity.model, identity.providerNamespace, identity.provider];
      JoinUndoesSplit(id);
      if NoSlash(namespace) && NoSlash(identity.model) && NoSlash(identity.providerNamespace)
        && NoSlash(identity.provider)
      {
        SplitUndoesJoin(parts);
      }
      if |Split(id)| == 4 {
        assert Split(id) == [Split(id)[0], Split(id)[1], Split(id)[2], Split(id)[3]];
      }
    }
  }

  lemma {:induction false} LocalSplitIsExact(id: string, model: string, provider: string)
    requires Count(id, '/') == 1
    ensures SplitCandidate(id) == Some((model, provider)) <==>
      model != "" && provider != "" && id == model + PROVIDER_SEPARATOR + provider
  {
    var index := LastIndex(id, PROVIDER_SEPARATOR);
    if index >= 0 {
      assert id == id[..index] + PROVIDER_SEPARATOR + id[index + |PROVIDER_SEPARATOR|..];
    }
    if id == model + PROVIDER_SEPARATOR + provider {
      assert id[|model|..|model| + |PROVIDER_SEPARATOR|] == PROVIDER_SEPARATOR;
      assert At(id, PROVIDER_SEPARATOR, |model|);
      if index != |model| { TwoSlashes(id, |model|, index); }
      assert id[..|model|] == model && id[|model| + |PROVIDER_SEPARATOR|..] == provider;
    }
  }

  lemma {:induction false} TwoSlashes(id: string, i: int, j: int)
    requires At(id, PROVIDER_SEPARATOR, i) && At(id, PROVIDER_SEPARATOR, j) && i < j
    ensures Count(id, '/') > 1
  {
    assert id[i] == id[i..i + |PROVIDER_SEPARATOR|][0] == '/' && id[j] == id[j..j + |PROVIDER_SEPARATOR|][0] == '/';
    var front, back := id[..j], id[j..];
    assert id == front + back && front[i] == '/' && back[0] == '/';
    CountConcat(front, back, '/');
    OneSlashCounts(front, i);
    OneSlashCounts(back, 0);
  }

  lemma {:induction false} OneSlashCounts(s: string, i: nat)
    requires i < |s| && s[i] == '/'
    ensures Count(s, '/') >= 1
  {
    if i > 0 { OneSlashCounts(s[1..], i - 1); }
  }

  lemma {:induction false} LocalFormHasOneSlash(model: string, provider: string)
    requires NoSlash(model) && NoSlash(provider)
    ensures Count(CandidateStableId(model, provider), '/') == 1
  {
    assert PROVIDER_SEPARATOR == "/" + "provider-";
    NameHasNoSlash(model);
    NameHasNoSlash(provider);
    SeparatorHasOneSlash();
    CountConcat(model + PROVIDER_SEPARATOR, provider, '/');
    CountConcat(model, PROVIDER_SEPARATOR, '/');
  }

  lemma {:induction false} SeparatorHasOneSlash()
    ensures Count(PROVIDER_SEPARATOR, '/') == 1
  {
    NameHasNoSlash("provider-");
    CountConcat("/", "provider-", '/');
    assert Count("/", '/') == 1 + Count("", '/');
  }

  lemma {:induction false} LocalFormSplits(model: string, provider: string)
    requires Name(model) && Name(provider)
    ensures Count(CandidateStableId(model, provider), '/') == 1
    ensures SplitCandidate(CandidateStableId(model, provider)) == Some((model, provider))
    ensures forall namespace ::
      SplitTenant(CandidateStableId(model, provider), namespace) == Some(Identity(model, "", provider))
  {
    var id := CandidateStableId(model, provider);
    assert PROVIDER_SEPARATOR == "/" + "provider-";
    LocalFormHasOneSlash(model, provider);
    assert At(id, PROVIDER_SEPARATOR, |model|);
    forall k | At(id, PROVIDER_SEPARATOR, k) ensures k == |model| {
      assert id[k] == id[k..k + |PROVIDER_SEPARATOR|][0] == '/';
    }
    assert LastIndex(id, PROVIDER_SEPARATOR) == |model|;
    assert id[..|model|] == model;
    assert id[|model| + |PROVIDER_SEPARATOR|..] == provider;
  }

  predicate Unhashed(modelNamespace: string, model: string, providerNamespace: string, provider: string) {
    |Join([modelNamespace, model, providerNamespace, provider])| <= MAX_STABLE_ID_BYTES
  }

  // The four-part form belongs to exactly the tenant whose namespace it names.
  lemma {:induction false} ScopedFormSplits(sha: string -> string, modelNamespace: string, model: string,
                                            providerNamespace: string, provider: string, namespace: string)
    requires Name(modelNamespace) && Name(model) && Name(providerNamespace) && Name(provider)
    requires Unhashed(modelNamespace, model, providerNamespace, provider)
    ensures
      var id := ScopedStableId(sha, modelNamespace, model, providerNamespace, provider);
      && Count(id, '/') == 3
      && SplitTenant(id, namespace) ==
         if namespace == modelNamespace then Some(Identity(model, providerNamespace, provider)) else None
  {
    SplitUndoesJoin([modelNamespace, model, providerNamespace, provider]);
  }

  ghost predicate HexDigest(sha: string -> string) {
    && (forall a :: forall i :: 0 <= i < |sha(a)| ==> sha(a)[i] != '/')
    && (forall a, b :: sha(a) == sha(b) ==> a == b)
  }

  // The hash form has no slash, so no tenant ever claims it: a candidate whose
  // identity is hashed is never staged.
  lemma {:induction false} HashFormIsUnowned(sha: string -> string, modelNamespace: string, model: string,
                                             providerNamespace: string, provider: string, namespace: string)
    requires HexDigest(sha)
    requires !Unhashed(modelNamespace, model, providerNamespace, provider)
    ensures
      var id := ScopedStableId(sha, modelNamespace, model, providerNamespace, provider);
      && Count(id, '/') == 0 && IsScoped(id)
      && SplitTenant(id, namespace) == None
  {
    var id := ScopedStableId(sha, modelNamespace, model, providerNamespace, provider);
    NameHasNoSlash(id);
    SplitName(id, "");
  }

  /******* Each form is injective *******/

  lemma {:induction false} BigEndianInjective(a: nat, b: nat, bytes: nat)
    requires BigEndian(a, bytes) == BigEndian(b, bytes)
    requires a < Bound(bytes) && b < Bound(bytes)
    ensures a == b
  {
    if bytes > 0 {
      var ra, rb := BigEndian(a / 256, bytes - 1), BigEndian(b / 256, bytes - 1);
      assert BigEndian(a, bytes)[..bytes - 1] == ra && BigEndian(b, bytes)[..bytes - 1] == rb;
      assert BigEndian(a, bytes)[bytes - 1] == (a % 256) as char;
      assert BigEndian(b, bytes)[bytes - 1] == (b % 256) as char;
      BigEndianInjective(a / 256, b / 256, bytes - 1);
    }
  }

  function Bound(bytes: nat): nat {
    if bytes == 0 then 1 else 256 * Bound(bytes - 1)
  }

  ghost predicate Addressable(fields: seq<string>) {
    forall i :: 0 <= i < |fields| ==> |fields[i]| < Bound(8)
  }

  // The length prefixes make the hashed bytes decodable, so two different
  // field lists never feed the same bytes to the hash.
  lemma {:induction false} LengthPrefixedInjective(a: seq<string>, b: seq<string>)
    requires |a| == |b| && Addressable(a) && Addressable(b)
    requires LengthPrefixed(a) == LengthPrefixed(b)
    ensures a == b
  {
    if a != [] {
      var ea, eb := LengthPrefixed(a), LengthPrefixed(b);
      assert ea[..8] == BigEndian(|a[0]|, 8) && eb[..8] == BigEndian(|b[0]|, 8);
      BigEndianInjective(|a[0]|, |b[0]|, 8);
      var n := |a[0]|;
      assert ea[8..8 + n] == a[0] && eb[8..8 + n] == b[0];
      assert ea[8 + n..] == LengthPrefixed(a[1..]) && eb[8 + n..] == LengthPrefixed(b[1..]);
      LengthPrefixedInjective(a[1..], b[1..]);
      assert a == [a[0]] + a[1..] && b == [b[0]] + b[1..];
    }
  }

  // What an identity is printed from.
  datatype Source =
    | Local(model: string, provider: string)
    | Scoped(modelNamespace: string, model: string, providerNamespace: string, provider: string)

  ghost predicate Printable(s: Source) {
    && Name(s.model) && Name(s.provider) && |s.model| < Bound(8) && |s.provider| < Bound(8)
    && (s.Scoped? ==>
      && Name(s.modelNamespace) && Name(s.providerNamespace)
      && |s.modelNamespace| < Bound(8) && |s.providerNamespace| < Bound(8))
  }

  function Print(sha: string -> string, s: Source): string {
    match s
    case Local(model, provider) => CandidateStableId(model, provider)
    case Scoped(mns, model, pns, provider) => ScopedStableId(sha, mns, model, pns, provider)
  }

  // The tenant-local form of an identity.
  function LocalForm(s: Source): Source {
    Local(s.model, s.provider)
  }

  predicate Hashed(s: Source) {
    s.Scoped? && !Unhashed(s.modelNamespace, s.model, s.providerNamespace, s.provider)
  }

  // A provider whose transport Service, "provider-" and its name, followed by a
  // digest if it is in another namespace, starts like the Service of a sink.
  const SINK_NAME := "selection-required-"

  predicate SinkLike(s: Source) {
    SINK_NAME <= if s.Local? then s.provider else s.provider + "-"
  }

  // Whether the rule of a candidate is recognised when it is read back.
  predicate ReadsBack(s: Source) {
    !Hashed(s) && !SinkLike(s)
  }

  // Stable IDs are unambiguous: across all three printed forms, equal IDs come
  // from equal identities.
  lemma {:induction false} PrintInjective(sha: string -> string, a: Source, b: Source)
    requires HexDigest(sha) && Printable(a) && Printable(b)
    requires Print(sha, a) == Print(sha, b)
    ensures a == b
  {
    PrintedForm(sha, a);
    PrintedForm(sha, b);
    if a.Local? {
      LocalFormSplits(a.model, a.provider);
      LocalFormSplits(b.model, b.provider);
    } else {
      var fa := [a.modelNamespace, a.model, a.providerNamespace, a.provider];
      var fb := [b.modelNamespace, b.model, b.providerNamespace, b.provider];
      if Unhashed(a.modelNamespace, a.model, a.providerNamespace, a.provider) {
        SplitUndoesJoin(fa);
        SplitUndoesJoin(fb);
      } else {
        assert Print(sha, a)[7..] == sha(LengthPrefixed(fa)) && Print(sha, b)[7..] == sha(LengthPrefixed(fb));
        LengthPrefixedInjective(fa, fb);
      }
      assert fa[0] == fb[0] && fa[1] == fb[1] && fa[2] == fb[2] && fa[3] == fb[3];
    }
  }

  lemma {:induction false} PrintedForm(sha: string -> string, s: Source)
    requires HexDigest(sha) && Printable(s)
    ensures Count(Print(sha, s), '/') ==
      if s.Local? then 1
      else if Unhashed(s.modelNamespace, s.model, s.providerNamespace, s.provider) then 3 else 0
    ensures IsScoped(Print(sha, s)) <==> s.Scoped?
  {
    match s
    case Local(model, provider) => LocalFormSplits(model, provider);
    case Scoped(mns, model, pns, provider) =>
      if Unhashed(mns, model, pns, provider) {
        ScopedFormSplits(sha, mns, model, pns, provider, mns);
      } else {
        HashFormIsUnowned(sha, mns, model, pns, provider, mns);
      }
  }
}
