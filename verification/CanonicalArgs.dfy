/** What the argument parsers promise: a canonical order of the arguments, nothing lost or
    torn apart, and exactly when the two parsers agree. */
module CanonicalArgs {
  import opened Text
  import opened Ordering
  import opened VarnishArgs

  /** A list of keys with a value each, as the sanitizer reads values. */
  ghost predicate AllPairs(gs: seq<Group>) {
    forall g <- gs :: |g| == 2 && !HasPrefix(g[1], LITERAL)
  }

  lemma {:induction false} GroupsOfPairs(gs: seq<Group>)
    requires AllPairs(gs)
    ensures Groups(Flatten(gs)) == gs
  {
    if gs != [] {
      var args := Flatten(gs);
      assert gs[0] in gs;
      assert args[..2] == gs[0] && args[2..] == Flatten(gs[1..]);
      GroupsOfPairs(gs[1..]);
    }
  }

  // ---- Nothing lost, nothing torn apart ----

  /** Where the groups `sorted` have been laid out, each is found in one piece. */
  lemma {:induction false} FlattenKeepsTogether(gs: seq<Group>, k: nat)
    requires k < |gs|
    ensures |Flatten(gs[..k])| + |gs[k]| <= |Flatten(gs)|
    ensures Flatten(gs)[|Flatten(gs[..k])|..|Flatten(gs[..k])| + |gs[k]|] == gs[k]
  {
    assert gs == gs[..k] + gs[k..];
    FlattenConcat(gs[..k], gs[k..]);
    assert Flatten(gs[k..]) == gs[k] + Flatten(gs[k..][1..]);
  }

  predicate StandsAt(r: seq<string>, g: Group, p: nat) {
    p + |g| <= |r| && r[p..p + |g|] == g
  }

  /** The final list holds, for every group the user may keep and every fixed group, that
      group in one piece: each value still stands directly after its key. */
  lemma {:induction false} EveryGroupSurvives(args: seq<string>, r: seq<string>, g: Group)
    requires IsSanitized(args, r) && g in Unsorted(args)
    ensures exists p :: StandsAt(r, g, p)
  {
    var sorted :| IsStableSort(Unsorted(args), sorted, Joined) && r == Flatten(sorted);
    assert g in multiset(sorted);
    var k :| 0 <= k < |sorted| && sorted[k] == g;
    FlattenKeepsTogether(sorted, k);
    var p := |Flatten(sorted[..k])|;
    assert StandsAt(r, g, p);
  }

  lemma {:induction false} KeptConcat(a: seq<Group>, b: seq<Group>)
    ensures Kept(a + b) == Kept(a) + Kept(b)
  {
    if a == [] {
      assert a + b == b;
    } else {
      assert (a + b)[1..] == a[1..] + b;
      KeptConcat(a[1..], b);
    }
  }

  lemma {:induction false} KeptMultiset(gs: seq<Group>)
    ensures forall g :: multiset(Kept(gs))[g] == if IsKept(g) then multiset(gs)[g] else 0
  {
    if gs != [] {
      KeptMultiset(gs[1..]);
      assert gs == [gs[0]] + gs[1..];
    }
  }

  /** Conservation: for a list of pairs the final list is laid out from exactly the pairs
      whose key is none of -F, -S, -b, -T, -n, -f, as often as they were given, and the
      five fixed groups. */
  lemma {:induction false} PairsAreConserved(gs: seq<Group>, r: seq<string>)
    requires AllPairs(gs) && IsSanitized(Flatten(gs), r)
    ensures exists sorted :: r == Flatten(sorted) && Sorted(sorted, Joined)
              && forall g :: multiset(sorted)[g] == multiset(FIXED)[g] +
                   if g != [] && g[0] !in {"-F", "-S", "-b", "-T", "-n", "-f"} then multiset(gs)[g] else 0
  {
    GroupsOfPairs(gs);
    KeptMultiset(gs);
    var sorted :| IsStableSort(Unsorted(Flatten(gs)), sorted, Joined) && r == Flatten(sorted);
    forall g
      ensures multiset(sorted)[g] == multiset(FIXED)[g] +
          if g != [] && g[0] !in {"-F", "-S", "-b", "-T", "-n", "-f"} then multiset(gs)[g] else 0
    {
      assert multiset(gs)[g] > 0 ==> g in gs;
      OverriddenKeys(g);
    }
  }

  lemma {:induction false} OverriddenKeys(g: Group)
    ensures IsKept(g) <==> g != [] && g[0] !in {"-F", "-S", "-b", "-T", "-n", "-f"}
  {
    if g != [] {
      assert Specified(OVERRIDES, g[0]) <==> g[0] in {"-F", "-S", "-b", "-T"} by {
        assert OVERRIDES[0] in OVERRIDES && OVERRIDES[1] in OVERRIDES;
        assert OVERRIDES[2] in OVERRIDES && OVERRIDES[3] in OVERRIDES;
      }
      assert Specified(NOT_ALLOWED, g[0]) <==> g[0] in {"-n", "-f"} by {
        assert NOT_ALLOWED[0] in NOT_ALLOWED && NOT_ALLOWED[1] in NOT_ALLOWED;
      }
    }
  }

  // ---- The canonical order ----

  /** Equal joined forms come from equal groups only. */
  ghost predicate JoinTellsApart(gs: seq<Group>) {
    forall g, h :: g in gs && h in gs && Joined(g) == Joined(h) ==> g == h
  }

  /** A text with one space splits at it in one way. */
  lemma {:induction false} OneSpace(k: string, v: string, a: string, b: string)
    requires k + " " + v == a + " " + b
    requires ' ' !in a && ' ' !in b
    ensures k == a && v == b
  {
    var s := a + " " + b;
    assert s == k + " " + v && s[|k|] == ' ';
    assert forall i :: 0 <= i < |s| && i != |a| ==> s[i] == if i < |a| then a[i] else b[i - |a| - 1];
    assert |k| == |a|;
    assert k == s[..|k|] && a == s[..|a|] && v == s[|k| + 1..] && b == s[|a| + 1..];
  }

  /** No pair of the user is mistaken for a fixed group. */
  lemma {:induction false} FixedApart(g: Group, f: Group)
    requires |g| == 2 && IsKept(g) && f in FIXED && Joined(g) == Joined(f)
    ensures g == f
  {
    assert Joined(g)[|g[0]|] == ' ';
    if |f| == 2 {
      assert ' ' !in f[0] && ' ' !in f[1];
      OneSpace(g[0], g[1], f[0], f[1]);
      assert g == [g[0], g[1]] && f == [f[0], f[1]];
    }
  }

  lemma {:induction false} KeptAreGiven(gs: seq<Group>)
    ensures forall g <- Kept(gs) :: g in gs && IsKept(g)
  {
    if gs != [] {
      KeptAreGiven(gs[1..]);
    }
  }

  lemma {:induction false} UnsortedTellsApart(gs: seq<Group>)
    requires AllPairs(gs) && JoinTellsApart(Kept(gs))
    ensures KeyIdentifies(multiset(Kept(gs) + FIXED), Joined)
  {
    forall x, y | x in multiset(Kept(gs) + FIXED) && y in multiset(Kept(gs) + FIXED) && Joined(x) == Joined(y)
      ensures x == y
    {
      EitherTellsApart(gs, FIXED, x, y);
    }
  }

  /** With any fixed groups that are told apart. */
  lemma {:induction false} EitherTellsApart(gs: seq<Group>, fixed: seq<Group>, x: Group, y: Group)
    requires AllPairs(gs) && JoinTellsApart(Kept(gs)) && fixed == FIXED
    requires x in Kept(gs) + fixed && y in Kept(gs) + fixed && Joined(x) == Joined(y)
    ensures x == y
  {
    KeptAreGiven(gs);
    if x in fixed && y in fixed {
      FixedTellsApart(x, y);
    } else if x in fixed {
      FixedApart(y, x);
    } else if y in fixed {
      FixedApart(x, y);
    }
  }

  lemma SameCounts<T>(a: multiset<T>, b: multiset<T>)
    requires forall x :: a[x] == b[x]
    ensures a == b
  {
  }

  lemma SameSuffix<T>(a: seq<T>, b: seq<T>, c: seq<T>)
    requires multiset(a) == multiset(b)
    ensures multiset(a + c) == multiset(b + c)
  {
  }

  lemma {:induction false} KeptPermutation(gs: seq<Group>, hs: seq<Group>)
    requires multiset(gs) == multiset(hs)
    ensures multiset(Kept(gs) + FIXED) == multiset(Kept(hs) + FIXED)
  {
    KeptMultiset(gs);
    KeptMultiset(hs);
    forall g
      ensures multiset(Kept(gs))[g] == multiset(Kept(hs))[g]
    {
    }
    SameCounts(multiset(Kept(gs)), multiset(Kept(hs)));
    SameSuffix(Kept(gs), Kept(hs), FIXED);
  }

  lemma {:induction false} StableSortsAgree(s: seq<Group>, t: seq<Group>, a: seq<Group>, b: seq<Group>)
    requires IsStableSort(s, a, Joined) && IsStableSort(t, b, Joined)
    requires multiset(s) == multiset(t) && KeyIdentifies(multiset(s), Joined)
    ensures a == b
  {
    SortedIsUnique(a, b, Joined);
  }

  /** Canonical arguments: every reordering of the pairs yields the identical final list. */
  lemma {:induction false} ReorderingChangesNothing(gs: seq<Group>, hs: seq<Group>, r: seq<string>, t: seq<string>)
    requires AllPairs(gs) && AllPairs(hs) && multiset(gs) == multiset(hs)
    requires JoinTellsApart(Kept(gs))
    requires IsSanitized(Flatten(gs), r) && IsSanitized(Flatten(hs), t)
    ensures r == t
  {
    GroupsOfPairs(gs);
    GroupsOfPairs(hs);
    var a :| IsStableSort(Unsorted(Flatten(gs)), a, Joined) && r == Flatten(a);
    var b :| IsStableSort(Unsorted(Flatten(hs)), b, Joined) && t == Flatten(b);
    KeptPermutation(gs, hs);
    UnsortedTellsApart(gs);
    StableSortsAgree(Unsorted(Flatten(gs)), Unsorted(Flatten(hs)), a, b);
  }

  lemma {:induction false} ShortKeysTellApart(g: Group, h: Group)
    requires |g| == |h| == 2 && |g[0]| == |h[0]| == 2 && Joined(g) == Joined(h)
    ensures g == h
  {
    var s := Joined(g);
    assert g[0] == s[..2] && h[0] == s[..2];
    assert g[1] == s[3..] && h[1] == s[3..];
    assert g == [g[0], g[1]] && h == [h[0], h[1]];
  }

  /** For lists that the webhook accepts the premise holds: keys have two characters. */
  lemma {:induction false} AcceptedPairsTellApart(gs: seq<Group>)
    requires AllPairs(gs) && forall g <- gs :: IsGroup(g)
    ensures JoinTellsApart(Kept(gs))
  {
    KeptAreGiven(gs);
    forall g, h | g in Kept(gs) && h in Kept(gs) && Joined(g) == Joined(h)
      ensures g == h
    {
      assert IsGroup(g) && IsGroup(h);
      ShortKeysTellApart(g, h);
    }
  }

  // ---- Exactly when the order is canonical ----

  function Keys(gs: seq<Group>): seq<string> {
    if gs == [] then [] else [Joined(gs[0])] + Keys(gs[1..])
  }

  lemma {:induction false} KeysConcat(a: seq<Group>, b: seq<Group>)
    ensures Keys(a + b) == Keys(a) + Keys(b)
  {
    if a == [] {
      assert a + b == b;
    } else {
      assert (a + b)[1..] == a[1..] + b;
      KeysConcat(a[1..], b);
    }
  }

  lemma {:induction false} KeysAt(gs: seq<Group>)
    ensures |Keys(gs)| == |gs|
    ensures forall i :: 0 <= i < |gs| ==> Keys(gs)[i] == Joined(gs[i])
  {
    if gs != [] {
      KeysAt(gs[1..]);
    }
  }

  lemma {:induction false} KeysRemoveAt(b: seq<Group>, i: nat)
    requires i < |b|
    ensures multiset(Keys(b[..i] + b[i + 1..])) == multiset(Keys(b)) - multiset{Joined(b[i])}
  {
    var front, back := b[..i], b[i + 1..];
    assert b == front + [b[i]] + back;
    KeysConcat(front, back);
    KeysConcat(front + [b[i]], back);
    KeysConcat(front, [b[i]]);
    assert Keys([b[i]]) == [Joined(b[i])] + Keys([]);
  }

  lemma {:induction false} KeysOfPermutation(a: seq<Group>, b: seq<Group>)
    requires multiset(a) == multiset(b)
    ensures multiset(Keys(a)) == multiset(Keys(b))
  {
    SameLength(a, b);
    if a != [] {
      assert a[0] in multiset(b);
      var i :| 0 <= i < |b| && b[i] == a[0];
      RemoveAt(b, i);
      TailMultiset(a);
      KeysOfPermutation(a[1..], b[..i] + b[i + 1..]);
      KeysRemoveAt(b, i);
      KeysOfTail(a);
      assert Joined(b[i]) in Keys(b) by { KeysAt(b); }
      PutBack(multiset(Keys(a)), multiset(Keys(b)), Joined(b[i]));
    }
  }

  lemma {:induction false} KeysOfTail(a: seq<Group>)
    requires a != []
    ensures Joined(a[0]) in multiset(Keys(a))
    ensures multiset(Keys(a[1..])) == multiset(Keys(a)) - multiset{Joined(a[0])}
  {
    assert Keys(a)[0] == Joined(a[0]) && Keys(a)[1..] == Keys(a[1..]);
    TailMultiset(Keys(a));
  }

  lemma PutBack<T>(a: multiset<T>, b: multiset<T>, x: T)
    requires x in a && x in b && a - multiset{x} == b - multiset{x}
    ensures a == b
  {
    assert a == a - multiset{x} + multiset{x} && b == b - multiset{x} + multiset{x};
  }

  /** Sorted by the same keys, permutations agree in the keys at every position. */
  lemma {:induction false} SameKeysInPlace(a: seq<Group>, b: seq<Group>)
    requires Sorted(a, Joined) && Sorted(b, Joined) && multiset(a) == multiset(b)
    ensures |a| == |b| && forall i :: 0 <= i < |a| ==> Joined(a[i]) == Joined(b[i])
  {
    KeysOfPermutation(a, b);
    KeysAt(a);
    KeysAt(b);
    SortedIsUnique(Keys(a), Keys(b), s => s);
  }

  /** Groups of one and of two are told apart by a space in the joined form. */
  ghost predicate Spaced(g: Group) {
    (|g| == 1 && ' ' !in g[0]) || |g| == 2
  }

  lemma {:induction false} SpacedSize(g: Group, h: Group)
    requires Spaced(g) && Spaced(h) && Joined(g) == Joined(h)
    ensures |g| == |h|
  {
    if |g| == 2 { assert Joined(g)[|g[0]|] == ' '; }
    if |h| == 2 { assert Joined(h)[|h[0]|] == ' '; }
  }

  lemma {:induction false} FlattenInjective(a: seq<Group>, b: seq<Group>)
    requires |a| == |b| && Flatten(a) == Flatten(b)
    requires forall i :: 0 <= i < |a| ==> |a[i]| == |b[i]|
    ensures a == b
  {
    if a != [] {
      assert Flatten(a)[..|a[0]|] == a[0] && Flatten(b)[..|b[0]|] == b[0];
      assert Flatten(a)[|a[0]|..] == Flatten(a[1..]) && Flatten(b)[|b[0]|..] == Flatten(b[1..]);
      FlattenInjective(a[1..], b[1..]);
      assert a == [a[0]] + a[1..] && b == [b[0]] + b[1..];
    }
  }

  lemma {:induction false} FixedIsSpaced(g: Group)
    requires g in FIXED
    ensures Spaced(g)
  {
    assert forall i :: 0 <= i < 2 ==> "-F"[i] != ' ';
  }

  lemma {:induction false} UnsortedIsSpaced(gs: seq<Group>, g: Group)
    requires AllPairs(gs) && g in Kept(gs) + FIXED
    ensures Spaced(g)
  {
    KeptAreGiven(gs);
    if g in FIXED {
      FixedIsSpaced(g);
    }
  }

  /** Two stable sorts laid out alike are alike. */
  lemma {:induction false} SameLayout(s: seq<Group>, t: seq<Group>, a: seq<Group>, b: seq<Group>)
    requires IsStableSort(s, a, Joined) && IsStableSort(t, b, Joined)
    requires multiset(s) == multiset(t) && (forall g <- s :: Spaced(g)) && Flatten(a) == Flatten(b)
    ensures a == b
  {
    SameKeysInPlace(a, b);
    forall i | 0 <= i < |a|
      ensures |a[i]| == |b[i]|
    {
      assert a[i] in multiset(s) && b[i] in multiset(t);
      SpacedSize(a[i], b[i]);
    }
    FlattenInjective(a, b);
  }

  /** The order of groups with equal joined form shows in the final list. */
  lemma {:induction false} SameResultSameOrder(gs: seq<Group>, hs: seq<Group>, r: seq<string>, k: string)
    requires AllPairs(gs) && AllPairs(hs) && multiset(gs) == multiset(hs)
    requires IsSanitized(Flatten(gs), r) && IsSanitized(Flatten(hs), r)
    ensures WithKey(Kept(gs) + FIXED, Joined, k) == WithKey(Kept(hs) + FIXED, Joined, k)
  {
    GroupsOfPairs(gs);
    GroupsOfPairs(hs);
    var s, t := Unsorted(Flatten(gs)), Unsorted(Flatten(hs));
    var a :| IsStableSort(s, a, Joined) && r == Flatten(a);
    var b :| IsStableSort(t, b, Joined) && r == Flatten(b);
    KeptPermutation(gs, hs);
    forall g | g in s
      ensures Spaced(g)
    {
      UnsortedIsSpaced(gs, g);
    }
    SameLayout(s, t, a, b);
  }

  lemma {:induction false} Swapped(x: Group, y: Group, rest: seq<Group>)
    ensures multiset([x, y] + rest) == multiset([y, x] + rest)
    ensures AllPairs([x, y] + rest) ==> AllPairs([y, x] + rest)
  {
    if AllPairs([x, y] + rest) {
      forall g | g in [y, x] + rest
        ensures |g| == 2 && !HasPrefix(g[1], LITERAL)
      {
        assert g in [x, y] + rest;
      }
    }
  }

  /** Two kept pairs with one joined form, put in the two orders, give two final lists. */
  lemma {:induction false} CollisionShows(x: Group, y: Group, rest: seq<Group>, r: seq<string>, t: seq<string>)
    requires AllPairs([x, y] + rest) && IsKept(x) && IsKept(y)
    requires x != y && Joined(x) == Joined(y)
    requires IsSanitized(Flatten([x, y] + rest), r) && IsSanitized(Flatten([y, x] + rest), t)
    ensures r != t
  {
    if r == t {
      var k := Joined(x);
      Swapped(x, y, rest);
      SameResultSameOrder([x, y] + rest, [y, x] + rest, r, k);
      HeadWithKey(x, y, rest, k);
      HeadWithKey(y, x, rest, k);
      assert false;
    }
  }

  lemma {:induction false} HeadWithKey(x: Group, y: Group, rest: seq<Group>, k: string)
    requires IsKept(x) && IsKept(y) && Joined(x) == k
    ensures WithKey(Kept([x, y] + rest) + FIXED, Joined, k) != []
    ensures WithKey(Kept([x, y] + rest) + FIXED, Joined, k)[0] == x
  {
    assert ([x, y] + rest)[1..] == [y] + rest;
    var s := Kept([x, y] + rest) + FIXED;
    assert s[0] == x;
    assert WithKey(s, Joined, k) == [x] + WithKey(s[1..], Joined, k);
  }

  /** All reorderings of `gs` end in one and the same list. */
  ghost predicate OrderIrrelevant(gs: seq<Group>) {
    forall hs, r, t ::
      && AllPairs(hs) && multiset(hs) == multiset(gs)
      && IsSanitized(Flatten(gs), r) && IsSanitized(Flatten(hs), t)
      ==> r == t
  }

  lemma {:induction false} ReorderingShows(gs: seq<Group>, x: Group, y: Group)
    requires AllPairs(gs) && x in Kept(gs) && y in Kept(gs) && Joined(x) == Joined(y) && x != y
    ensures !OrderIrrelevant(gs)
  {
    KeptAreGiven(gs);
    var rest := SetApart(gs, x, y);
    Swapped(x, y, rest);
    var hs, js := [x, y] + rest, [y, x] + rest;
    PairsOfPermutation(gs, hs);
    PairsOfPermutation(gs, js);
    var q := SanitizedExists(Flatten(gs));
    var r := SanitizedExists(Flatten(hs));
    var t := SanitizedExists(Flatten(js));
    CollisionShows(x, y, rest, r, t);
    TwoResults(gs, hs, js, q, r, t);
  }

  lemma {:induction false} TwoResults(gs: seq<Group>, hs: seq<Group>, js: seq<Group>,
                                      q: seq<string>, r: seq<string>, t: seq<string>)
    requires AllPairs(hs) && AllPairs(js) && multiset(hs) == multiset(gs) && multiset(js) == multiset(gs)
    requires IsSanitized(Flatten(gs), q) && IsSanitized(Flatten(hs), r) && IsSanitized(Flatten(js), t)
    requires r != t
    ensures !OrderIrrelevant(gs)
  {
  }

  /** The order of the pairs is irrelevant exactly when no two different pairs that are
      kept join to the same text. */
  lemma {:induction false} OrderIrrelevantIff(gs: seq<Group>)
    requires AllPairs(gs)
    ensures OrderIrrelevant(gs) <==> JoinTellsApart(Kept(gs))
  {
    if JoinTellsApart(Kept(gs)) {
      forall hs, r, t |
        && AllPairs(hs) && multiset(hs) == multiset(gs)
        && IsSanitized(Flatten(gs), r) && IsSanitized(Flatten(hs), t)
        ensures r == t
      {
        ReorderingChangesNothing(gs, hs, r, t);
      }
    } else {
      var x, y :| x in Kept(gs) && y in Kept(gs) && Joined(x) == Joined(y) && x != y;
      ReorderingShows(gs, x, y);
    }
  }

  lemma {:induction false} PairsOfPermutation(gs: seq<Group>, hs: seq<Group>)
    requires AllPairs(gs) && multiset(gs) == multiset(hs)
    ensures AllPairs(hs)
  {
    forall g | g in hs
      ensures |g| == 2 && !HasPrefix(g[1], LITERAL)
    {
      assert g in multiset(hs);
      assert g in gs;
    }
  }

  lemma {:induction false} SanitizedExists(args: seq<string>) returns (r: seq<string>)
    ensures IsSanitized(args, r)
  {
    var sorted := StableSortExists(Unsorted(args), Joined);
    r := Flatten(sorted);
  }

  /** Pairs that the webhook has not seen can collide: a space may stand in the key or in
      the value. */
  lemma {:induction false} SpaceInKeyShows(key: string, word: string, value: string)
    requires IsKept([key + " " + word, value]) && IsKept([key, word + " " + value])
    requires !HasPrefix(value, LITERAL) && !HasPrefix(word + " " + value, LITERAL)
    ensures !OrderIrrelevant([[key + " " + word, value], [key, word + " " + value]])
  {
    var x, y := [key + " " + word, value], [key, word + " " + value];
    assert Joined(x) == Joined(y) by {
      assert key + " " + word + " " + value == key + " " + (word + " " + value);
    }
    assert |x[0]| > |y[0]|;
    assert [x, y][1..] == [y] && [y][1..] == [];
    assert Kept([x, y]) == [x] + Kept([y]) && Kept([y]) == [y] + Kept([]);
    ReorderingShows([x, y], x, y);
  }

  // ---- Where the two parsers part ----

  /** On a list that the webhook accepts, the sanitizer sees the same groups exactly when
      every key but the last has a value and no value begins with the literal pattern. */
  lemma {:induction false} ParsersAgreeIff(args: seq<string>, gs: seq<Group>)
    requires SplitsInto(args, gs)
    ensures Groups(args) == gs <==>
            forall i :: 0 <= i < |gs| ==>
                  (|gs[i]| == 2 && !HasPrefix(gs[i][1], LITERAL)) || (|gs[i]| == 1 && i == |gs| - 1)
    decreases |gs|
  {
    if args == [] {
      SplitIsUnique(args, gs, []);
    } else {
      HeadOfSplit(args, gs);
      var n := HeadLength(args);
      assert gs == [gs[0]] + gs[1..] && gs[0] in gs;
      ParsersAgreeIff(args[n..], gs[1..]);
      assert forall i :: 0 <= i < |gs| - 1 ==> gs[1..][i] == gs[i + 1];
      if |gs| > 1 {
        assert gs[1] in gs && gs[1..][0] == gs[1];
        assert args[n..][0] == gs[1][0] && IsKey(args[n]);
      }
      assert Groups(args)[0] == args[..HeadSize(args)] && Groups(args)[1..] == Groups(args[HeadSize(args)..]);
    }
  }

  // ---- Overridden keys of the user ----

  lemma {:induction false} FlattenPermutes(a: seq<Group>, b: seq<Group>)
    requires multiset(a) == multiset(b)
    ensures multiset(Flatten(a)) == multiset(Flatten(b))
  {
    SameLength(a, b);
    if a != [] {
      assert a[0] in multiset(b);
      var i :| 0 <= i < |b| && b[i] == a[0];
      RemoveAt(b, i);
      TailMultiset(a);
      FlattenPermutes(a[1..], b[..i] + b[i + 1..]);
      FlattenRemoveAt(b, i);
    }
  }

  lemma {:induction false} FlattenRemoveAt(b: seq<Group>, i: nat)
    requires i < |b|
    ensures multiset(Flatten(b)) == multiset(b[i]) + multiset(Flatten(b[..i] + b[i + 1..]))
  {
    var front, back := b[..i], b[i + 1..];
    assert b == front + ([b[i]] + back);
    FlattenConcat(front, back);
    FlattenConcat(front, [b[i]] + back);
    assert ([b[i]] + back)[1..] == back;
  }

  /** A text occurs in the layout as often as in all groups together. */
  lemma {:induction false} OccursIff(gs: seq<Group>, t: string)
    ensures multiset(Flatten(gs))[t] > 0 <==> exists g <- gs :: t in g
  {
    if gs != [] {
      OccursIff(gs[1..], t);
      assert gs == [gs[0]] + gs[1..];
      assert t in multiset(gs[0]) <==> t in gs[0];
      assert multiset(Flatten(gs)) == multiset(gs[0]) + multiset(Flatten(gs[1..]));
    }
  }

  lemma {:induction false} KeptIff(gs: seq<Group>, g: Group)
    ensures g in Kept(gs) <==> g in gs && IsKept(g)
  {
    if gs != [] {
      KeptIff(gs[1..], g);
      assert gs == [gs[0]] + gs[1..];
    }
  }

  /** Apart from the fixed groups, a text is in the final list exactly if it is in a kept
      group. */
  lemma {:induction false} FinalOccurrences(args: seq<string>, r: seq<string>, t: string)
    requires IsSanitized(args, r)
    ensures multiset(r)[t] >= multiset(Flatten(FIXED))[t]
    ensures multiset(r)[t] == multiset(Flatten(FIXED))[t] <==> forall g <- Groups(args) :: IsKept(g) ==> t !in g
  {
    var sorted :| IsStableSort(Unsorted(args), sorted, Joined) && r == Flatten(sorted);
    FlattenPermutes(sorted, Unsorted(args));
    CountApart(Kept(Groups(args)), FIXED, t);
    OccursIff(Kept(Groups(args)), t);
    forall g
      ensures g in Kept(Groups(args)) <==> g in Groups(args) && IsKept(g)
    {
      KeptIff(Groups(args), g);
    }
  }

  lemma {:induction false} CountApart(a: seq<Group>, b: seq<Group>, t: string)
    ensures multiset(Flatten(a + b))[t] == multiset(Flatten(a))[t] + multiset(Flatten(b))[t]
  {
    FlattenConcat(a, b);
  }

  /** A key that is overridden or forbidden is left of the user's arguments exactly if the
      sanitizer took it for the value of a key that the user may keep. */
  lemma {:induction false} OverriddenStaysIff(args: seq<string>, r: seq<string>, t: string)
    requires IsSanitized(args, r) && !IsKept([t])
    ensures multiset(r)[t] == multiset(Flatten(FIXED))[t]
       <==> forall g <- Groups(args) :: |g| == 2 && g[1] == t ==> !IsKept(g)
  {
    FinalOccurrences(args, r, t);
    GroupsAreNonempty(args);
    forall g | g in Groups(args) && IsKept(g)
      ensures t in g <==> |g| == 2 && g[1] == t
    {
      OnlyAsValue(g, t);
    }
  }

  lemma OnlyAsValue(g: Group, t: string)
    requires 1 <= |g| <= 2 && IsKept(g) && !IsKept([t])
    ensures t in g <==> |g| == 2 && g[1] == t
  {
    if g[0] == t {
      KeptByKey(g, [t]);
      assert false;
    }
  }

  lemma KeptByKey(g: Group, h: Group)
    requires g != [] && h != [] && g[0] == h[0]
    ensures IsKept(g) <==> IsKept(h)
  {
  }

  lemma {:induction false} FlattenMember(gs: seq<Group>, x: string)
    requires x in Flatten(gs)
    ensures exists g <- gs :: x in g
  {
    if x !in gs[0] {
      FlattenMember(gs[1..], x);
      var g :| g in gs[1..] && x in g;
      assert g in gs;
    } else {
      assert gs[0] in gs;
    }
  }

  /** An accepted list has none of the keys that the webhook disallows anywhere. */
  lemma {:induction false} AcceptedHasNone(args: seq<string>, t: string)
    requires Acceptable(args) && t in WEBHOOK_DISALLOWED
    ensures t !in args
  {
    var gs :| SplitsInto(args, gs) && Allowed(gs);
    if t in args {
      FlattenMember(gs, t);
    }
  }

  predicate NoLiteral(args: seq<string>) {
    forall a <- args :: !HasPrefix(a, LITERAL)
  }

  /** Without the literal pattern the sanitizer takes the arguments two by two. */
  lemma {:induction false} GroupsByTwo(args: seq<string>, g: Group)
    requires NoLiteral(args)
    ensures |g| == 2 && g in Groups(args) <==>
            exists i :: 0 <= i < |args| - 1 && i % 2 == 0 && g == [args[i], args[i + 1]]
  {
    if |args| >= 2 {
      GroupsByTwo(args[2..], g);
      assert args[1] in args && args[..2] == [args[0], args[1]];
      assert Groups(args) == [args[..2]] + Groups(args[2..]);
      if i: int :| 0 <= i < |args[2..]| - 1 && i % 2 == 0 && g == [args[2..][i], args[2..][i + 1]] {
        assert g == [args[i + 2], args[i + 2 + 1]] && (i + 2) % 2 == 0;
      }
      if i: int :| 0 < i < |args| - 1 && i % 2 == 0 && g == [args[i], args[i + 1]] {
        assert i >= 2 && g == [args[2..][i - 2], args[2..][i - 2 + 1]] && (i - 2) % 2 == 0;
      }
    } else if |args| == 1 {
      assert Groups(args) == [args[..1]] + Groups(args[1..]);
    }
  }

  const ADMIN := "-T"

  /** The one overridden key that the webhook lets through. In an accepted list it is left of
      the user's arguments exactly if it stands in an odd place, where the sanitizer takes
      it for a value, and not after itself. */
  lemma {:induction false} AdminStaysIff(args: seq<string>, r: seq<string>)
    requires Acceptable(args) && NoLiteral(args) && IsSanitized(args, r)
    ensures multiset(r)[ADMIN] > multiset(Flatten(FIXED))[ADMIN] <==>
            exists i :: 0 <= i < |args| - 1 && i % 2 == 0 && args[i + 1] == ADMIN && args[i] != ADMIN
  {
    OverriddenKeys([ADMIN]);
    OverriddenStaysIff(args, r, ADMIN);
    FinalOccurrences(args, r, ADMIN);
    forall i | 0 <= i < |args| - 1 && i % 2 == 0
      ensures IsKept([args[i], args[i + 1]]) <==> args[i] != ADMIN
      ensures [args[i], args[i + 1]] in Groups(args)
    {
      var g := [args[i], args[i + 1]];
      GroupsByTwo(args, g);
      OverriddenKeys(g);
      AdminAlone(args, args[i]);
    }
    forall g | g in Groups(args) && |g| == 2
      ensures exists i :: 0 <= i < |args| - 1 && i % 2 == 0 && g == [args[i], args[i + 1]]
    {
      GroupsByTwo(args, g);
    }
  }

  lemma {:induction false} AdminAlone(args: seq<string>, a: string)
    requires Acceptable(args) && a in args
    ensures a in {"-F", "-S", "-b", "-T", "-n", "-f"} <==> a == ADMIN
  {
    if a in WEBHOOK_DISALLOWED {
      AcceptedHasNone(args, a);
    }
  }

  /** So an accepted list can keep an address of its own for the administration port. */
  lemma {:induction false} AdminCanStay(key: string, address: string, r: seq<string>)
    requires IsKey(key) && key != ADMIN && key !in WEBHOOK_DISALLOWED
    requires !IsKey(address) && !HasPrefix(address, LITERAL)
    requires IsSanitized([key, ADMIN, address], r)
    ensures Acceptable([key, ADMIN, address])
    ensures multiset(r)[ADMIN] > multiset(Flatten(FIXED))[ADMIN]
  {
    var args := [key, ADMIN, address];
    AdminIsAccepted(key, address);
    assert args[0 + 1] == ADMIN && args[0] != ADMIN;
    assert |LITERAL| == 3 && |ADMIN| == 2;
    AdminStaysIff(args, r);
  }

  lemma {:induction false} AdminIsAccepted(key: string, address: string)
    requires IsKey(key) && key !in WEBHOOK_DISALLOWED && !IsKey(address)
    ensures Acceptable([key, ADMIN, address])
  {
    var one: Group := [key];
    var two: Group := [ADMIN, address];
    var gs := [one, two];
    assert gs[1..] == [two] && [two][1..] == [];
    assert Flatten([two]) == two + Flatten([]);
    assert Flatten(gs) == one + Flatten([two]);
    assert one + two == [key, ADMIN, address];
    assert SplitsInto([key, ADMIN, address], gs) && Allowed(gs);
  }
}
