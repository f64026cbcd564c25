// Dropping the command-line flags a binary does not define, against a model
// of Go's flag.Parse.
module Flags {
  import opened Strings
  import opened Wrappers

  // The registered names; true for a boolean flag.
  type FlagSet = map<string, bool>

  // flag.Var panics on a name that begins with a dash or holds "="; the empty
  // name is never registered.
  predicate Registrable(fs: FlagSet) {
    forall name | name in fs :: name != "" && name[0] != '-' && '=' !in name
  }

  const HELP_FLAG_NAMES := {"h", "help"}

  // ----- Go's parser -----

  datatype Ending =
    | Done(positionals: seq<string>)
    | Help
    | Undefined(name: string)
    | BadSyntax(arg: string)
    | MissingValue(name: string)
    | InvalidValue(name: string, value: string)

  datatype Assignment = Assignment(name: string, value: string)

  datatype Parsed = Parsed(assignments: seq<Assignment>, ending: Ending)

  // The name before the first "=", and what follows it, if there is one.
  function Cut(s: string): (string, Option<string>) {
    var i := IndexOf(s, '=');
    (s[..i], if i == |s| then None else Some(s[i + 1..]))
  }

  // What follows the one or two dashes.
  function FlagText(arg: string): string
    requires |arg| > 1 && arg[0] == '-'
  {
    if arg[1] == '-' then arg[2..] else arg[1..]
  }

  function Set(accepts: (string, string) -> bool, name: string, value: string, rest: Parsed): Parsed {
    if accepts(name, value) then Parsed([Assignment(name, value)] + rest.assignments, rest.ending)
    else Parsed([], InvalidValue(name, value))
  }

  // accepts tells whether a flag's Set takes a value.
  function Parse(fs: FlagSet, accepts: (string, string) -> bool, args: seq<string>): Parsed
    decreases |args|
  {
    if args == [] || |args[0]| < 2 || args[0][0] != '-' then Parsed([], Done(args))
    else if args[0] == "--" then Parsed([], Done(args[1..]))
    else
      var text := FlagText(args[0]);
      if text == "" || text[0] == '-' || text[0] == '=' then Parsed([], BadSyntax(args[0]))
      else
        var (name, value) := Cut(text);
        if name !in fs then Parsed([], if name in HELP_FLAG_NAMES then Help else Undefined(name))
        else if value.Some? then Set(accepts, name, value.value, Parse(fs, accepts, args[1..]))
        else if fs[name] then Set(accepts, name, "true", Parse(fs, accepts, args[1..]))
        else if |args| > 1 then Set(accepts, name, args[1], Parse(fs, accepts, args[2..]))
        else Parsed([], MissingValue(name))
  }

  // ----- the filter -----

  predicate IsFlagArg(arg: string) {
    |arg| > 1 && arg[0] == '-' && arg != "--"
  }

  predicate IsParsingBoundary(arg: string) {
    arg == "--" || arg == "-"
  }

  function SplitFlagArg(arg: string): (string, bool)
    requires IsFlagArg(arg)
  {
    var (name, value) := Cut(FlagText(arg));
    (name, value.Some?)
  }

  // How many arguments the first flag takes up.
  function Span(fs: FlagSet, args: seq<string>): (n: nat)
    requires args != [] && IsFlagArg(args[0])
    ensures 1 <= n <= 2 && n <= |args|
  {
    var (name, inlineValue) := SplitFlagArg(args[0]);
    if inlineValue || |args| == 1 then 1
    else if name in fs then if fs[name] then 1 else 2
    else if name in HELP_FLAG_NAMES || IsFlagArg(args[1]) || IsParsingBoundary(args[1]) then 1
    else 2
  }

  predicate Keeps(fs: FlagSet, arg: string)
    requires IsFlagArg(arg)
  {
    SplitFlagArg(arg).0 in fs || SplitFlagArg(arg).0 in HELP_FLAG_NAMES
  }

  function Kept(fs: FlagSet, args: seq<string>): seq<string>
    decreases |args|
  {
    if args == [] || !IsFlagArg(args[0]) then args
    else
      var n := Span(fs, args);
      (if Keeps(fs, args[0]) then args[..n] else []) + Kept(fs, args[n..])
  }

  function Dropped(fs: FlagSet, args: seq<string>): seq<string>
    decreases |args|
  {
    if args == [] || !IsFlagArg(args[0]) then []
    else
      var n := Span(fs, args);
      (if Keeps(fs, args[0]) then [] else ["--" + SplitFlagArg(args[0]).0]) + Dropped(fs, args[n..])
  }

  lemma {:induction false} KeptStep(fs: FlagSet, args: seq<string>, i: nat)
    requires i < |args| && IsFlagArg(args[i])
    ensures var n := Span(fs, args[i..]);
      Kept(fs, args[i..]) == (if Keeps(fs, args[i]) then args[i..i + n] else []) + Kept(fs, args[i + n..])
  {
    var n := Span(fs, args[i..]);
    assert args[i..][n..] == args[i + n..] && args[i..][..n] == args[i..i + n];
  }

  lemma {:induction false} DroppedStep(fs: FlagSet, args: seq<string>, i: nat)
    requires i < |args| && IsFlagArg(args[i])
    ensures var n := Span(fs, args[i..]);
      Dropped(fs, args[i..])
      == (if Keeps(fs, args[i]) then [] else ["--" + SplitFlagArg(args[i]).0]) + Dropped(fs, args[i + n..])
  {
    var n := Span(fs, args[i..]);
    assert args[i..][n..] == args[i + n..];
  }

  lemma {:induction false} Regroup(total: seq<string>, a: seq<string>, rest: seq<string>, b: seq<string>,
                                   c: seq<string>)
    requires total == a + rest && rest == b + c
    ensures total == (a + b) + c
  {
  }

  // One flag argument: what it adds to either list, and where the next
  // argument starts.
  method TakeFlag(fs: FlagSet, args: seq<string>, start: nat)
    returns (kept: seq<string>, dropped: seq<string>, next: nat)
    requires start < |args| && IsFlagArg(args[start])
    ensures next == start + Span(fs, args[start..])
    ensures kept == if Keeps(fs, args[start]) then args[start..next] else []
    ensures dropped == if Keeps(fs, args[start]) then [] else ["--" + SplitFlagArg(args[start]).0]
  {
    kept, dropped := [], [];
    var i, arg := start, args[start];
    var (name, inlineValue) := SplitFlagArg(arg);
    if name in fs {
      kept := [arg];
      if !inlineValue && !fs[name] && i + 1 < |args| {
        i := i + 1;
        kept := kept + [args[i]];
      }
    } else if name in HELP_FLAG_NAMES {
      kept := [arg];
    } else {
      dropped := ["--" + name];
      if !inlineValue && i + 1 < |args| && !IsFlagArg(args[i + 1]) && !IsParsingBoundary(args[i + 1]) {
        i := i + 1;
      }
    }
    next := i + 1;
  }

  // The lists so far, and what the arguments from i on add to them.
  ghost predicate Sofar(fs: FlagSet, args: seq<string>, i: nat, kept: seq<string>, dropped: seq<string>)
    requires i <= |args|
  {
    kept + Kept(fs, args[i..]) == Kept(fs, args) && dropped + Dropped(fs, args[i..]) == Dropped(fs, args)
  }

  lemma {:induction false} SofarStarts(fs: FlagSet, args: seq<string>)
    ensures Sofar(fs, args, 0, [], [])
  {
    assert args[0..] == args;
    assert [] + Kept(fs, args) == Kept(fs, args) && [] + Dropped(fs, args) == Dropped(fs, args);
  }

  lemma {:induction false} SofarEnds(fs: FlagSet, args: seq<string>, i: nat, kept: seq<string>, dropped: seq<string>)
    requires i <= |args| && Sofar(fs, args, i, kept, dropped) && (i < |args| ==> !IsFlagArg(args[i]))
    ensures kept + args[i..] == Kept(fs, args) && dropped == Dropped(fs, args)
  {
    assert dropped + [] == dropped;
  }

  lemma {:induction false} SofarStep(fs: FlagSet, args: seq<string>, i: nat, kept: seq<string>, dropped: seq<string>,
                                     keptNow: seq<string>, droppedNow: seq<string>)
    requires i < |args| && IsFlagArg(args[i]) && Sofar(fs, args, i, kept, dropped)
    requires keptNow == if Keeps(fs, args[i]) then args[i..i + Span(fs, args[i..])] else []
    requires droppedNow == if Keeps(fs, args[i]) then [] else ["--" + SplitFlagArg(args[i]).0]
    ensures Sofar(fs, args, i + Span(fs, args[i..]), kept + keptNow, dropped + droppedNow)
  {
    KeptSofarStep(fs, args, i, kept, keptNow);
    DroppedSofarStep(fs, args, i, dropped, droppedNow);
  }

  lemma {:induction false} KeptSofarStep(fs: FlagSet, args: seq<string>, i: nat, kept: seq<string>,
                                         keptNow: seq<string>)
    requires i < |args| && IsFlagArg(args[i]) && kept + Kept(fs, args[i..]) == Kept(fs, args)
    requires keptNow == if Keeps(fs, args[i]) then args[i..i + Span(fs, args[i..])] else []
    ensures (kept + keptNow) + Kept(fs, args[i + Span(fs, args[i..])..]) == Kept(fs, args)
  {
    KeptStep(fs, args, i);
    Regroup(Kept(fs, args), kept, Kept(fs, args[i..]), keptNow, Kept(fs, args[i + Span(fs, args[i..])..]));
  }

  lemma {:induction false} DroppedSofarStep(fs: FlagSet, args: seq<string>, i: nat, dropped: seq<string>,
                                            droppedNow: seq<string>)
    requires i < |args| && IsFlagArg(args[i]) && dropped + Dropped(fs, args[i..]) == Dropped(fs, args)
    requires droppedNow == if Keeps(fs, args[i]) then [] else ["--" + SplitFlagArg(args[i]).0]
    ensures (dropped + droppedNow) + Dropped(fs, args[i + Span(fs, args[i..])..]) == Dropped(fs, args)
  {
    DroppedStep(fs, args, i);
    Regroup(Dropped(fs, args), dropped, Dropped(fs, args[i..]), droppedNow,
            Dropped(fs, args[i + Span(fs, args[i..])..]));
  }

  method DropUnknownFlags(fs: FlagSet, args: seq<string>) returns (kept: seq<string>, dropped: seq<string>)
    ensures kept == Kept(fs, args) && dropped == Dropped(fs, args)
  {
    kept, dropped := [], [];
    var i := 0;
    SofarStarts(fs, args);
    while i < |args|
      invariant 0 <= i <= |args|
      invariant Sofar(fs, args, i, kept, dropped)
    {
      if !IsFlagArg(args[i]) {
        SofarEnds(fs, args, i, kept, dropped);
        kept := kept + args[i..];
        return;
      }
      var keptNow, droppedNow, next := TakeFlag(fs, args, i);
      SofarStep(fs, args, i, kept, dropped, keptNow, droppedNow);
      kept, dropped, i := kept + keptNow, dropped + droppedNow, next;
    }
    SofarEnds(fs, args, i, kept, dropped);
    assert kept + args[i..] == kept;
  }

  // ----- a lenient parser -----

  // Parsing that skips an undefined or ill-formed flag, together with a bare
  // token after it unless a value is attached, and otherwise behaves as Go's.
  function Lenient(fs: FlagSet, accepts: (string, string) -> bool, args: seq<string>): Parsed
    decreases |args|
  {
    if args == [] || !IsFlagArg(args[0]) then
      Parsed([], Done(if args != [] && args[0] == "--" then args[1..] else args))
    else
      var (name, value) := Cut(FlagText(args[0]));
      if name in fs then
        if value.Some? then Set(accepts, name, value.value, Lenient(fs, accepts, args[1..]))
        else if fs[name] then Set(accepts, name, "true", Lenient(fs, accepts, args[1..]))
        else if |args| > 1 then Set(accepts, name, args[1], Lenient(fs, accepts, args[2..]))
        else Parsed([], MissingValue(name))
      else if name in HELP_FLAG_NAMES then Parsed([], Help)
      else if value.None? && |args| > 1 && (args[1] == "" || args[1][0] != '-') then Lenient(fs, accepts, args[2..])
      else Lenient(fs, accepts, args[1..])
  }

  lemma {:induction false} LenientNeverRefuses(fs: FlagSet, accepts: (string, string) -> bool, args: seq<string>)
    ensures !Lenient(fs, accepts, args).ending.Undefined? && !Lenient(fs, accepts, args).ending.BadSyntax?
    decreases |args|
  {
    if args != [] && IsFlagArg(args[0]) {
      LenientNeverRefuses(fs, accepts, args[1..]);
      if |args| > 1 { LenientNeverRefuses(fs, accepts, args[2..]); }
    }
  }

  lemma {:induction false} KnownIsWellFormed(fs: FlagSet, arg: string)
    requires Registrable(fs) && IsFlagArg(arg) && Keeps(fs, arg)
    ensures var text := FlagText(arg); text != "" && text[0] != '-' && text[0] != '='
  {
    var text := FlagText(arg);
    var (name, _) := Cut(text);
    assert name != "" && name[0] != '-' && '=' !in name;
    assert name[0] == text[0];
    assert name[0] in name;
  }

  // What a kept flag, with its value when it takes the next argument, does to
  // the parse of what follows it.
  function Effect(fs: FlagSet, accepts: (string, string) -> bool, flag: seq<string>, rest: Parsed): Parsed
    requires flag != [] && IsFlagArg(flag[0])
  {
    var (name, value) := Cut(FlagText(flag[0]));
    if name !in fs then Parsed([], Help)
    else if value.Some? then Set(accepts, name, value.value, rest)
    else if fs[name] then Set(accepts, name, "true", rest)
    else if |flag| > 1 then Set(accepts, name, flag[1], rest)
    else Parsed([], MissingValue(name))
  }

  lemma {:induction false} ParseKeptFlag(fs: FlagSet, accepts: (string, string) -> bool, args: seq<string>,
                                         rest: seq<string>)
    requires Registrable(fs) && args != [] && IsFlagArg(args[0]) && Keeps(fs, args[0])
    requires |args| == 1 ==> rest == []
    ensures var n := Span(fs, args);
      Parse(fs, accepts, args[..n] + rest) == Effect(fs, accepts, args[..n], Parse(fs, accepts, rest))
  {
    KnownIsWellFormed(fs, args[0]);
    var n := Span(fs, args);
    var kept := args[..n] + rest;
    assert kept[0] == args[0] && kept[n..] == rest;
    if n == 2 { assert kept[1] == args[1]; }
  }

  lemma {:induction false} LenientKeptFlag(fs: FlagSet, accepts: (string, string) -> bool, args: seq<string>)
    requires args != [] && IsFlagArg(args[0]) && Keeps(fs, args[0])
    ensures var n := Span(fs, args);
      Lenient(fs, accepts, args) == Effect(fs, accepts, args[..n], Lenient(fs, accepts, args[n..]))
  {
  }

  lemma {:induction false} LenientSkips(fs: FlagSet, accepts: (string, string) -> bool, args: seq<string>)
    requires args != [] && IsFlagArg(args[0]) && !Keeps(fs, args[0])
    ensures Lenient(fs, accepts, args) == Lenient(fs, accepts, args[Span(fs, args)..])
  {
  }

  // Parsing what the filter keeps meets no undefined and no ill-formed flag
  // and gives what the lenient parser gives on all the arguments.
  lemma {:induction false} KeptParsesLeniently(fs: FlagSet, accepts: (string, string) -> bool, args: seq<string>)
    requires Registrable(fs)
    ensures Parse(fs, accepts, Kept(fs, args)) == Lenient(fs, accepts, args)
    ensures !Parse(fs, accepts, Kept(fs, args)).ending.Undefined?
    ensures !Parse(fs, accepts, Kept(fs, args)).ending.BadSyntax?
    decreases |args|
  {
    LenientNeverRefuses(fs, accepts, args);
    if args != [] && IsFlagArg(args[0]) {
      var n := Span(fs, args);
      KeptParsesLeniently(fs, accepts, args[n..]);
      if Keeps(fs, args[0]) {
        ParseKeptFlag(fs, accepts, args, Kept(fs, args[n..]));
        LenientKeptFlag(fs, accepts, args);
      } else {
        LenientSkips(fs, accepts, args);
        assert [] + Kept(fs, args[n..]) == Kept(fs, args[n..]);
      }
    }
  }

  // The argument is the flag of this name, on its own or with a value attached.
  predicate Spells(arg: string, name: string) {
    || arg == "-" + name || arg == "--" + name
    || "-" + name + "=" <= arg || "--" + name + "=" <= arg
  }

  ghost predicate Undefines(fs: FlagSet, args: seq<string>, name: string) {
    && name !in fs && name != "h" && name != "help" && '=' !in name
    && exists arg :: arg in args && Spells(arg, name)
  }

  lemma {:induction false} NameIsSpelled(arg: string)
    requires IsFlagArg(arg)
    ensures Spells(arg, SplitFlagArg(arg).0) && '=' !in SplitFlagArg(arg).0
  {
    var text := FlagText(arg);
    var (name, value) := Cut(text);
    var dashes := if arg[1] == '-' then "--" else "-";
    DashesInFront(arg, dashes);
    if value.Some? {
      AttachedInFront(text, name, value.value);
      assert arg[..|dashes + name + "="|] == dashes + name + "=";
    }
  }

  lemma {:induction false} DashesInFront(arg: string, dashes: string)
    requires IsFlagArg(arg) && dashes == if arg[1] == '-' then "--" else "-"
    ensures arg == dashes + FlagText(arg)
  {
  }

  lemma {:induction false} AttachedInFront(text: string, name: string, value: string)
    requires Cut(text) == (name, Some(value))
    ensures text[..|name| + 1] == name + "="
  {
  }

  // What is dropped is reported: each undefined flag by its name, spelled with
  // two dashes, and it takes one or two of the arguments with it.
  lemma {:induction false} DroppedIsReported(fs: FlagSet, args: seq<string>)
    ensures forall d | d in Dropped(fs, args) :: |d| >= 2 && d == "--" + d[2..] && Undefines(fs, args, d[2..])
    ensures |Kept(fs, args)| + |Dropped(fs, args)| <= |args| <= |Kept(fs, args)| + 2 * |Dropped(fs, args)|
    decreases |args|
  {
    if args != [] && IsFlagArg(args[0]) {
      var n, name := Span(fs, args), SplitFlagArg(args[0]).0;
      var rest := Dropped(fs, args[n..]);
      DroppedIsReported(fs, args[n..]);
      NameIsSpelled(args[0]);
      forall d | d in Dropped(fs, args) ensures |d| >= 2 && d == "--" + d[2..] && Undefines(fs, args, d[2..]) {
        if d in rest {
          assert forall arg :: arg in args[n..] ==> arg in args;
        } else {
          assert d == "--" + name && d[2..] == name && args[0] in args;
        }
      }
    }
  }

  // Filtering what was kept changes nothing and drops nothing.
  lemma {:induction false} FilteringIsIdempotent(fs: FlagSet, args: seq<string>)
    ensures Kept(fs, Kept(fs, args)) == Kept(fs, args) && Dropped(fs, Kept(fs, args)) == []
    decreases |args|
  {
    if args != [] && IsFlagArg(args[0]) {
      var n := Span(fs, args);
      var rest := Kept(fs, args[n..]);
      FilteringIsIdempotent(fs, args[n..]);
      if Keeps(fs, args[0]) {
        var kept := args[..n] + rest;
        assert kept[0] == args[0] && kept[..n] == args[..n] && kept[n..] == rest;
        if n == 2 { assert kept[1] == args[1]; }
        if |args| == 1 { assert rest == [] && kept == args; }
        assert Span(fs, kept) == n;
      } else {
        assert [] + rest == rest;
      }
    }
  }

  // The filter is the identity exactly when it drops nothing.
  lemma {:induction false} IdentityIffNothingDropped(fs: FlagSet, args: seq<string>)
    ensures Kept(fs, args) == args <==> Dropped(fs, args) == []
    ensures |Kept(fs, args)| <= |args|
    decreases |args|
  {
    if args != [] && IsFlagArg(args[0]) {
      var n := Span(fs, args);
      IdentityIffNothingDropped(fs, args[n..]);
      assert args == args[..n] + args[n..];
      if Keeps(fs, args[0]) {
        var kept := args[..n] + Kept(fs, args[n..]);
        if kept == args { assert kept[n..] == Kept(fs, args[n..]) && args[n..] == kept[n..]; }
      }
    }
  }

  // A command line Go parses to the end is left alone.
  lemma {:induction false} AcceptedIsUntouched(fs: FlagSet, accepts: (string, string) -> bool, args: seq<string>)
    requires Parse(fs, accepts, args).ending.Done?
    ensures Kept(fs, args) == args && Dropped(fs, args) == []
    decreases |args|
  {
    if args != [] && IsFlagArg(args[0]) {
      var n := Span(fs, args);
      AcceptedIsUntouched(fs, accepts, args[n..]);
      assert args == args[..n] + args[n..];
    }
  }
}
