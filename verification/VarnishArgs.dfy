/** The two parsers of the varnishd arguments: the webhook's validator and the operator's
    sanitizer, which overrides the arguments it must own and puts the rest in a
    canonical order. */
module VarnishArgs {
  import opened Text
  import opened Ordering

  /** A key, or a key and its value. */
  type Group = seq<string>

  function Flatten(gs: seq<Group>): seq<string> {
    if gs == [] then [] else gs[0] + Flatten(gs[1..])
  }

  lemma {:induction false} FlattenConcat(a: seq<Group>, b: seq<Group>)
    ensures Flatten(a + b) == Flatten(a) + Flatten(b)
  {
    if a == [] {
      assert a + b == b;
    } else {
      assert (a + b)[1..] == a[1..] + b;
      FlattenConcat(a[1..], b);
    }
  }

  // ---- The validating webhook ----

  const WEBHOOK_DISALLOWED := {"-f", "-F", "-n", "-S", "-b"}

  predicate IsWordChar(c: char) {
    'a' <= c <= 'z' || 'A' <= c <= 'Z' || '0' <= c <= '9' || c == '_'
  }

  /** The regular expression `^-\w$`. */
  predicate IsKey(arg: string) {
    |arg| == 2 && arg[0] == '-' && IsWordChar(arg[1])
  }

  predicate IsGroup(g: Group) {
    (|g| == 1 || (|g| == 2 && !IsKey(g[1]))) && IsKey(g[0])
  }

  /** `args` reads as the groups `gs`. */
  ghost predicate SplitsInto(args: seq<string>, gs: seq<Group>) {
    Flatten(gs) == args && forall g <- gs :: IsGroup(g)
  }

  ghost predicate Allowed(gs: seq<Group>) {
    forall g <- gs :: g != [] ==> g[0] !in WEBHOOK_DISALLOWED
  }

  ghost predicate Acceptable(args: seq<string>) {
    exists gs :: SplitsInto(args, gs) && Allowed(gs)
  }

  /** The length of the first group of arguments that start with a key. */
  function HeadLength(args: seq<string>): nat
    requires args != []
  {
    if |args| > 1 && !IsKey(args[1]) then 2 else 1
  }

  lemma {:induction false} HeadOfSplit(args: seq<string>, gs: seq<Group>)
    requires SplitsInto(args, gs) && args != []
    ensures gs != [] && IsKey(args[0]) && gs[0] == args[..HeadLength(args)]
    ensures SplitsInto(args[HeadLength(args)..], gs[1..])
  {
    var rest := Flatten(gs[1..]);
    assert args == gs[0] + rest && gs[0] in gs && IsGroup(gs[0]);
    if rest != [] {
      assert gs[1..] != [] && gs[1] in gs && IsGroup(gs[1]);
      assert gs[1..][0] == gs[1] && rest == gs[1] + Flatten(gs[1..][1..]);
      assert rest[0] == gs[1][0];
    }
  }

  /** The split is unique. */
  lemma {:induction false} SplitIsUnique(args: seq<string>, gs: seq<Group>, hs: seq<Group>)
    requires SplitsInto(args, gs) && SplitsInto(args, hs)
    ensures gs == hs
    decreases |gs|
  {
    if args == [] {
      assert gs != [] ==> IsGroup(gs[0]) && Flatten(gs) != [];
      assert hs != [] ==> IsGroup(hs[0]) && Flatten(hs) != [];
    } else {
      HeadOfSplit(args, gs);
      HeadOfSplit(args, hs);
      SplitIsUnique(args[HeadLength(args)..], gs[1..], hs[1..]);
      assert gs == [gs[0]] + gs[1..] && hs == [hs[0]] + hs[1..];
    }
  }

  /** One turn of the validator's loop. */
  lemma {:induction false} AcceptableStep(args: seq<string>)
    requires args != []
    ensures Acceptable(args) <==>
            IsKey(args[0]) && args[0] !in WEBHOOK_DISALLOWED && Acceptable(args[HeadLength(args)..])
  {
    var n := HeadLength(args);
    if Acceptable(args) {
      var gs :| SplitsInto(args, gs) && Allowed(gs);
      HeadOfSplit(args, gs);
      assert gs[0] in gs;
      assert Allowed(gs[1..]);
    }
    if IsKey(args[0]) && args[0] !in WEBHOOK_DISALLOWED && Acceptable(args[n..]) {
      var gs :| SplitsInto(args[n..], gs) && Allowed(gs);
      var hs := [args[..n]] + gs;
      assert hs[1..] == gs;
      assert SplitsInto(args, hs) && Allowed(hs);
    }
  }

  /** What the key pattern and the disallowed keys let through as a list of one. */
  lemma {:induction false} OneArgument(arg: string)
    ensures Acceptable([arg]) <==>
            && |arg| == 2 && arg[0] == '-'
            && ('a' <= arg[1] <= 'z' || 'A' <= arg[1] <= 'Z' || '0' <= arg[1] <= '9' || arg[1] == '_')
            && arg[1] !in {'f', 'F', 'n', 'S', 'b'}
  {
    AcceptableStep([arg]);
    assert [arg][1..] == [];
    assert SplitsInto([], []) && Allowed([]);
    if |arg| == 2 && arg[0] == '-' {
      assert arg == "-" + [arg[1]];
      forall d | d in WEBHOOK_DISALLOWED
        ensures |d| == 2 && d[0] == '-' && d == "-" + [d[1]]
      {
      }
    }
  }

  /** Accepts exactly the lists that split into groups of a key and an optional value
      with no disallowed key. */
  method ValidVarnishArgs(args: seq<string>) returns (ok: bool)
    ensures ok <==> Acceptable(args)
  {
    var i := 0;
    while i < |args|
      invariant 0 <= i <= |args|
      invariant Acceptable(args) <==> Acceptable(args[i..])
    {
      AcceptableStep(args[i..]);
      assert args[i..][HeadLength(args[i..])..] == args[i + HeadLength(args[i..])..];
      if !IsKey(args[i]) {
        return false;
      }
      if args[i] in WEBHOOK_DISALLOWED {
        return false;
      }
      i := i + 1;
      if i < |args| && !IsKey(args[i]) {
        i := i + 1;
      }
    }
    assert args[i..] == [];
    assert SplitsInto([], []) && Allowed([]);
    return true;
  }

  // ---- The sanitizer ----

  /** The sanitizer's key pattern is written with a doubled backslash in a raw string, so
      it matches a dash, a backslash and a `w`. */
  const LITERAL := "-\\w"

  const OVERRIDES: seq<Group> := [["-F"], ["-S", "/etc/varnish-secret/secret"], ["-b", "127.0.0.1:0"],
        ["-T", "0.0.0.0:6082"]]
  const NOT_ALLOWED: seq<Group> := [["-n"], ["-f"]]
  const LISTEN: Group := ["-a", "0.0.0.0:6081"]
  const FIXED: seq<Group> := OVERRIDES + [LISTEN]

  /** How the sanitizer groups the arguments: whatever follows is taken as the value. */
  function Groups(args: seq<string>): seq<Group> {
    if args == [] then []
    else if |args| > 1 && !HasPrefix(args[1], LITERAL) then [args[..2]] + Groups(args[2..])
    else [args[..1]] + Groups(args[1..])
  }

  lemma {:induction false} GroupsAreNonempty(args: seq<string>)
    ensures forall g <- Groups(args) :: 1 <= |g| <= 2
  {
    if args != [] {
      GroupsAreNonempty(args[HeadSize(args)..]);
    }
  }

  function HeadSize(args: seq<string>): nat
    requires args != []
  {
    if |args| > 1 && !HasPrefix(args[1], LITERAL) then 2 else 1
  }

  predicate Specified(args: seq<Group>, arg: string) {
    exists g <- args :: g != [] && g[0] == arg
  }

  predicate IsKept(g: Group) {
    g != [] && !Specified(OVERRIDES, g[0]) && !Specified(NOT_ALLOWED, g[0])
  }

  function Kept(gs: seq<Group>): seq<Group> {
    if gs == [] then [] else (if IsKept(gs[0]) then [gs[0]] else []) + Kept(gs[1..])
  }

  /** `strings.Join` with a space, for a group of one or two. */
  function Joined(g: Group): string {
    if |g| == 0 then "" else if |g| == 1 then g[0] else g[0] + " " + g[1]
  }

  /** The groups that are sorted in the end. */
  function Unsorted(args: seq<string>): seq<Group> {
    Kept(Groups(args)) + FIXED
  }

  /** `r` is the final argument list for `args`. */
  ghost predicate IsSanitized(args: seq<string>, r: seq<string>) {
    exists sorted :: IsStableSort(Unsorted(args), sorted, Joined) && r == Flatten(sorted)
  }

  /** An argument counts as the value of the one before unless it begins with a dash, a
      backslash and a `w`. */
  lemma {:induction false} TakenApart(key: string, value: string)
    ensures Groups([key, value]) ==
            if |value| >= 3 && value[0] == '-' && value[1] == '\\' && value[2] == 'w' then [[key], [value]]
            else [[key, value]]
  {
    assert |LITERAL| == 3 && LITERAL[0] == '-' && LITERAL[1] == '\\' && LITERAL[2] == 'w';
    assert [key, value][..1] == [key] && [key, value][1..] == [value] && [value][..1] == [value];
    assert [key, value][..2] == [key, value] && [key, value][2..] == [];
    assert Groups([value]) == [[value]];
    PrefixOfThree(value, LITERAL);
  }

  lemma PrefixOfThree(s: string, p: string)
    requires |p| == 3
    ensures HasPrefix(s, p) <==> |s| >= 3 && s[0] == p[0] && s[1] == p[1] && s[2] == p[2]
  {
    assert p == [p[0], p[1], p[2]];
    if |s| >= 3 {
      assert s[..3] == [s[0], s[1], s[2]];
    }
  }

  lemma {:induction false} FixedTellsApart(f: Group, h: Group)
    requires f in FIXED && h in FIXED && Joined(f) == Joined(h)
    ensures f == h
  {
    assert Joined(f)[1] == Joined(h)[1];
    assert f[0][1] == Joined(f)[1] && h[0][1] == Joined(h)[1];
  }

  lemma LexBySecond(s: string, t: string)
    requires |s| >= 2 && |t| >= 2 && s[0] == t[0] && s[1] < t[1]
    ensures LexLeq(s, t)
  {
    assert s[1..][0] == s[1] && t[1..][0] == t[1];
  }

  /** The fixed groups in their final order. */
  function FixedSorted(): seq<Group> {
    [["-F"], ["-S", "/etc/varnish-secret/secret"], ["-T", "0.0.0.0:6082"],
     ["-a", "0.0.0.0:6081"], ["-b", "127.0.0.1:0"]]
  }

  lemma FixedSortedIsSorted()
    ensures Sorted(FixedSorted(), Joined)
  {
    var s := FixedSorted();
    forall i, j | 0 <= i < j < |s|
      ensures LexLeq(Joined(s[i]), Joined(s[j]))
    {
      assert Joined(s[i])[0] == '-' == Joined(s[j])[0];
      assert Joined(s[i])[1] == s[i][0][1] && Joined(s[j])[1] == s[j][0][1];
      LexBySecond(Joined(s[i]), Joined(s[j]));
    }
  }

  lemma FixedSortedIsFixed()
    ensures multiset(FixedSorted()) == multiset(FIXED)
  {
    var s := FixedSorted();
    assert FIXED == [s[0], s[1], s[4], s[2], s[3]];
    assert s == [s[0], s[1], s[2], s[3], s[4]];
  }

  lemma FlattenFixed()
    ensures Flatten(FixedSorted()) == ["-F", "-S", "/etc/varnish-secret/secret", "-T", "0.0.0.0:6082",
                                       "-a", "0.0.0.0:6081", "-b", "127.0.0.1:0"]
  {
    var s := FixedSorted();
    assert s[1..][1..][1..][1..][1..] == [];
    assert s[1..][1..][1..][1..] == [s[4]];
    assert s[1..][1..][1..] == [s[3], s[4]];
    assert s[1..][1..] == [s[2], s[3], s[4]];
    assert Flatten([s[4]]) == s[4] + [];
    assert Flatten([s[3], s[4]]) == s[3] + s[4];
    assert Flatten([s[2], s[3], s[4]]) == s[2] + (s[3] + s[4]);
    assert Flatten(s[1..]) == s[1] + (s[2] + (s[3] + s[4]));
    assert Flatten(s) == s[0] + (s[1] + (s[2] + (s[3] + s[4])));
  }

  lemma {:induction false} FixedIsIdentified()
    ensures KeyIdentifies(multiset(FIXED), Joined)
  {
    forall x, y | x in multiset(FIXED) && y in multiset(FIXED) && Joined(x) == Joined(y)
      ensures x == y
    {
      FixedTellsApart(x, y);
    }
  }

  /** Without arguments of the user the final list is the fixed one, in Go's order. */
  lemma {:induction false} NoArguments(r: seq<string>)
    requires IsSanitized([], r)
    ensures r == ["-F", "-S", "/etc/varnish-secret/secret", "-T", "0.0.0.0:6082",
                  "-a", "0.0.0.0:6081", "-b", "127.0.0.1:0"]
  {
    var sorted :| IsStableSort(Unsorted([]), sorted, Joined) && r == Flatten(sorted);
    assert Unsorted([]) == FIXED;
    FixedSortedIsSorted();
    FixedSortedIsFixed();
    FixedIsIdentified();
    SortedIsUnique(sorted, FixedSorted(), Joined);
    FlattenFixed();
  }

  method ArgSpecified(args: seq<Group>, arg: string) returns (found: bool)
    requires forall g <- args :: g != []
    ensures found <==> Specified(args, arg)
  {
    for i := 0 to |args|
      invariant !Specified(args[..i], arg)
    {
      assert args[i] in args;
      if args[i][0] == arg {
        return true;
      }
      assert args[..i + 1] == args[..i] + [args[i]];
    }
    assert args[..|args|] == args;
    return false;
  }

  lemma {:induction false} KeptStep(args: seq<string>)
    requires args != []
    ensures var head := args[..HeadSize(args)];
            Kept(Groups(args)) == (if IsKept(head) then [head] else []) + Kept(Groups(args[HeadSize(args)..]))
  {
    var groups, head := Groups(args), args[..HeadSize(args)];
    assert groups[0] == head && groups[1..] == Groups(args[HeadSize(args)..]);
  }

  lemma {:induction false} FlattenStep(gs: seq<Group>, k: nat)
    requires k < |gs|
    ensures Flatten(gs[..k + 1]) == Flatten(gs[..k]) + gs[k]
  {
    assert gs[..k + 1] == gs[..k] + [gs[k]];
    FlattenConcat(gs[..k], [gs[k]]);
    assert Flatten([gs[k]]) == gs[k] + Flatten([]);
  }

  /** The first half of the sanitizer: the groups that the user may keep. */
  method ParseArgs(rawArgs: seq<string>) returns (parsed: seq<Group>)
    ensures parsed == Kept(Groups(rawArgs))
  {
    parsed := [];
    var i := 0;
    while i < |rawArgs|
      invariant 0 <= i <= |rawArgs|
      invariant parsed + Kept(Groups(rawArgs[i..])) == Kept(Groups(rawArgs))
    {
      ghost var rest, before := rawArgs[i..], parsed;
      KeptStep(rest);
      var nextArg := [rawArgs[i]];
      i := i + 1;
      if i < |rawArgs| && !HasPrefix(rawArgs[i], LITERAL) {
        nextArg := nextArg + [rawArgs[i]];
        i := i + 1;
      }
      assert rest[..HeadSize(rest)] == nextArg && rest[HeadSize(rest)..] == rawArgs[i..];
      var overridden := ArgSpecified(OVERRIDES, nextArg[0]);
      var forbidden := ArgSpecified(NOT_ALLOWED, nextArg[0]);
      if !overridden && !forbidden {
        parsed := parsed + [nextArg];
      }
      assert parsed == before + if IsKept(nextArg) then [nextArg] else [];
      AppendAssoc(before, if IsKept(nextArg) then [nextArg] else [], Kept(Groups(rawArgs[i..])));
    }
    assert rawArgs[i..] == [];
  }

  method GetSanitizedVarnishArgs(rawArgs: seq<string>) returns (r: seq<string>)
    ensures IsSanitized(rawArgs, r)
    ensures rawArgs == [] ==> r == ["-F", "-S", "/etc/varnish-secret/secret", "-T", "0.0.0.0:6082",
                                    "-a", "0.0.0.0:6081", "-b", "127.0.0.1:0"]
  {
    var parsedArgs := ParseArgs(rawArgs);
    var varnishArgs := parsedArgs + OVERRIDES;
    varnishArgs := varnishArgs + [LISTEN];
    assert varnishArgs == Unsorted(rawArgs);
    var sorted := SortStable(varnishArgs, Joined);
    r := [];
    for k := 0 to |sorted|
      invariant r == Flatten(sorted[..k])
    {
      FlattenStep(sorted, k);
      r := r + sorted[k];
    }
    assert sorted[..|sorted|] == sorted;
    if rawArgs == [] {
      NoArguments(r);
    }
  }
}
