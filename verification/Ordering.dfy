/** Sorting by a string key: a sorted permutation is determined by its elements as soon
    as equal keys mean equal elements. */
module Ordering {
  import opened Text

  ghost predicate Sorted<T>(s: seq<T>, key: T -> string) {
    forall i, j :: 0 <= i < j < |s| ==> LexLeq(key(s[i]), key(s[j]))
  }

  /** Within the elements `s`, the key tells elements apart. */
  ghost predicate KeyIdentifies<T(!new)>(s: multiset<T>, key: T -> string) {
    forall x, y :: x in s && y in s && key(x) == key(y) ==> x == y
  }

  /** The elements with the key `k`, in order. */
  function WithKey<T>(s: seq<T>, key: T -> string, k: string): seq<T> {
    if s == [] then [] else (if key(s[0]) == k then [s[0]] else []) + WithKey(s[1..], key, k)
  }

  lemma {:induction false} WithKeyConcat<T>(a: seq<T>, b: seq<T>, key: T -> string, k: string)
    ensures WithKey(a + b, key, k) == WithKey(a, key, k) + WithKey(b, key, k)
  {
    if a == [] {
      assert a + b == b;
    } else {
      assert (a + b)[0] == a[0] && (a + b)[1..] == a[1..] + b;
      WithKeyConcat(a[1..], b, key, k);
      AppendAssoc(if key(a[0]) == k then [a[0]] else [], WithKey(a[1..], key, k), WithKey(b, key, k));
    }
  }

  /** `r` is `s` sorted stably: ascending keys, and for each key the same elements in the
      same order. */
  ghost predicate IsStableSort<T(!new)>(s: seq<T>, r: seq<T>, key: T -> string) {
    && Sorted(r, key)
    && multiset(r) == multiset(s)
    && forall k :: WithKey(r, key, k) == WithKey(s, key, k)
  }

  /** Each key is a prefix of the next, or the smaller one where they first differ. */
  ghost predicate Ascending<T>(r: seq<T>, key: T -> string) {
    forall i :: 0 < i < |r| ==> NotAfter(key(r[i - 1]), key(r[i]))
  }

  lemma SortedAscends<T>(r: seq<T>, key: T -> string)
    requires Sorted(r, key)
    ensures Ascending(r, key)
  {
    forall i | 0 < i < |r|
      ensures NotAfter(key(r[i - 1]), key(r[i]))
    {
      LexLeqIff(key(r[i - 1]), key(r[i]));
    }
  }

  /** `sort.SliceStable`, as an insertion sort. */
  method SortStable<T(!new)>(s: seq<T>, key: T -> string) returns (r: seq<T>)
    ensures IsStableSort(s, r, key) && Ascending(r, key)
  {
    r := [];
    for i := 0 to |s|
      invariant IsStableSort(s[..i], r, key)
    {
      var j := |r|;
      while j > 0 && !LexLeq(key(r[j - 1]), key(s[i]))
        invariant 0 <= j <= |r|
        invariant forall x :: j <= x < |r| ==> key(r[x]) != key(s[i]) && LexLeq(key(s[i]), key(r[x]))
      {
        LexTotal(key(r[j - 1]), key(s[i]));
        j := j - 1;
      }
      assert r == r[..j] + r[j..];
      InsertStable(s[..i], s[i], r[..j], r[j..], key);
      assert s[..i + 1] == s[..i] + [s[i]];
      r := r[..j] + [s[i]] + r[j..];
    }
    assert s[..|s|] == s;
    SortedAscends(r, key);
  }

  lemma {:induction false} StableSortExists<T(!new)>(s: seq<T>, key: T -> string) returns (r: seq<T>)
    ensures IsStableSort(s, r, key)
  {
    if s == [] {
      r := [];
    } else {
      var last := |s| - 1;
      var t := StableSortExists(s[..last], key);
      var j := |t|;
      while j > 0 && !LexLeq(key(t[j - 1]), key(s[last]))
        invariant 0 <= j <= |t|
        invariant forall x :: j <= x < |t| ==> key(t[x]) != key(s[last]) && LexLeq(key(s[last]), key(t[x]))
      {
        LexTotal(key(t[j - 1]), key(s[last]));
        j := j - 1;
      }
      assert t == t[..j] + t[j..] && s == s[..last] + [s[last]];
      InsertStable(s[..last], s[last], t[..j], t[j..], key);
      r := t[..j] + [s[last]] + t[j..];
    }
  }

  lemma {:induction false} InsertSorted<T(!new)>(a: seq<T>, x: T, b: seq<T>, key: T -> string)
    requires Sorted(a + b, key)
    requires a != [] ==> LexLeq(key(a[|a| - 1]), key(x))
    requires forall m :: 0 <= m < |b| ==> LexLeq(key(x), key(b[m]))
    ensures Sorted(a + [x] + b, key)
  {
    var r, t := a + b, a + [x] + b;
    forall m | 0 <= m < |a|
      ensures LexLeq(key(a[m]), key(x))
    {
      if m < |a| - 1 {
        assert r[m] == a[m] && r[|a| - 1] == a[|a| - 1];
        LexTransitive(key(a[m]), key(a[|a| - 1]), key(x));
      }
    }
    forall i, j | 0 <= i < j < |t|
      ensures LexLeq(key(t[i]), key(t[j]))
    {
      if i != |a| && j != |a| {
        assert t[i] == r[if i < |a| then i else i - 1] && t[j] == r[if j < |a| then j else j - 1];
      }
    }
  }

  lemma {:induction false} InsertWithKey<T>(a: seq<T>, x: T, b: seq<T>, key: T -> string, k: string)
    requires forall m :: 0 <= m < |b| ==> key(b[m]) != key(x)
    ensures WithKey(a + [x] + b, key, k) == WithKey(a + b, key, k) + WithKey([x], key, k)
  {
    WithKeyConcat(a, b, key, k);
    WithKeyConcat(a + [x], b, key, k);
    WithKeyConcat(a, [x], key, k);
    var before, after, one := WithKey(a, key, k), WithKey(b, key, k), WithKey([x], key, k);
    if k == key(x) {
      NoneWithKey(b, key, k);
      assert before + one + [] == before + [] + one;
    } else {
      NoneWithKey([x], key, k);
      assert before + [] + after == before + after + [];
    }
  }

  lemma {:induction false} InsertStable<T(!new)>(s: seq<T>, x: T, a: seq<T>, b: seq<T>, key: T -> string)
    requires IsStableSort(s, a + b, key)
    requires a != [] ==> LexLeq(key(a[|a| - 1]), key(x))
    requires forall m :: 0 <= m < |b| ==> key(b[m]) != key(x) && LexLeq(key(x), key(b[m]))
    ensures IsStableSort(s + [x], a + [x] + b, key)
  {
    InsertSorted(a, x, b, key);
    forall k
      ensures WithKey(a + [x] + b, key, k) == WithKey(s + [x], key, k)
    {
      WithKeyConcat(s, [x], key, k);
      InsertWithKey(a, x, b, key, k);
    }
  }

  lemma {:induction false} NoneWithKey<T>(s: seq<T>, key: T -> string, k: string)
    requires forall x :: 0 <= x < |s| ==> key(s[x]) != k
    ensures WithKey(s, key, k) == []
  {
    if s != [] {
      NoneWithKey(s[1..], key, k);
    }
  }

  lemma SameHead<T(!new)>(a: seq<T>, b: seq<T>, key: T -> string)
    requires Sorted(a, key) && Sorted(b, key) && a != [] && b != []
    requires multiset(a) == multiset(b)
    ensures key(a[0]) == key(b[0])
  {
    assert a[0] in multiset(b) && b[0] in multiset(a);
    var i :| 0 <= i < |b| && b[i] == a[0];
    var j :| 0 <= j < |a| && a[j] == b[0];
    LexReflexive(key(a[0]));
    LexAntisymmetric(key(a[0]), key(b[0]));
  }

  lemma TailMultiset<T>(a: seq<T>)
    requires a != []
    ensures multiset(a[1..]) == multiset(a) - multiset{a[0]}
  {
    assert a == [a[0]] + a[1..];
  }

  lemma {:induction false} SameTails<T(!new)>(a: seq<T>, b: seq<T>, key: T -> string)
    requires Sorted(a, key) && Sorted(b, key) && a != [] && b != []
    requires multiset(a) == multiset(b) && KeyIdentifies(multiset(a), key)
    ensures a[0] == b[0]
    ensures Sorted(a[1..], key) && Sorted(b[1..], key)
    ensures multiset(a[1..]) == multiset(b[1..]) && KeyIdentifies(multiset(a[1..]), key)
  {
    SameHead(a, b, key);
    assert a[0] in multiset(a) && b[0] in multiset(a);
    TailMultiset(a);
    TailMultiset(b);
  }

  /** Two sorted sequences with the same elements are equal if the key identifies them. */
  lemma {:induction false} SortedIsUnique<T(!new)>(a: seq<T>, b: seq<T>, key: T -> string)
    requires Sorted(a, key) && Sorted(b, key)
    requires multiset(a) == multiset(b) && KeyIdentifies(multiset(a), key)
    ensures a == b
  {
    SameLength(a, b);
    if a != [] {
      SameTails(a, b, key);
      SortedIsUnique(a[1..], b[1..], key);
      assert a == [a[0]] + a[1..] && b == [b[0]] + b[1..];
    }
  }

  lemma {:induction false} LexReflexive(s: string)
    ensures LexLeq(s, s)
  {
    if s != "" {
      LexReflexive(s[1..]);
    }
  }

  lemma SameLength<T>(a: seq<T>, b: seq<T>)
    requires multiset(a) == multiset(b)
    ensures |a| == |b|
  {
    assert |multiset(a)| == |a| && |multiset(b)| == |b|;
  }

  // ---- Permutations ----

  lemma SameMembers<T>(a: seq<T>, b: seq<T>)
    requires multiset(a) == multiset(b)
    ensures |a| == |b|
    ensures forall x :: x in a <==> x in b
  {
    SameLength(a, b);
    assert forall x :: (x in a <==> x in multiset(a)) && (x in b <==> x in multiset(b));
  }

  lemma {:induction false} RemoveAt<T>(s: seq<T>, i: nat)
    requires i < |s|
    ensures multiset(s[..i] + s[i + 1..]) == multiset(s) - multiset{s[i]}
  {
    assert s == s[..i] + [s[i]] + s[i + 1..];
  }

  lemma Removed<T>(s: seq<T>, x: T) returns (r: seq<T>)
    requires x in multiset(s)
    ensures multiset(r) == multiset(s) - multiset{x}
  {
    var i :| 0 <= i < |s| && s[i] == x;
    RemoveAt(s, i);
    r := s[..i] + s[i + 1..];
  }

  lemma PairAdded<T>(x: T, y: T, rest: seq<T>)
    ensures multiset([x, y] + rest) == multiset{x, y} + multiset(rest) == multiset(rest + [x, y])
    ensures multiset([y, x] + rest) == multiset{x, y} + multiset(rest) == multiset(rest + [y, x])
  {
    assert multiset([x, y]) == multiset{x, y} == multiset([y, x]);
  }

  lemma TakeTwo<T>(m: multiset<T>, x: T, y: T)
    requires x in m && y in m && x != y
    ensures y in m - multiset{x}
    ensures multiset{x, y} + (m - multiset{x} - multiset{y}) == m
  {
  }

  /** Two members set apart from the others. */
  lemma {:induction false} SetApart<T>(s: seq<T>, x: T, y: T) returns (rest: seq<T>)
    requires x in s && y in s && x != y
    ensures multiset([x, y] + rest) == multiset(s) == multiset([y, x] + rest)
    ensures multiset(rest + [x, y]) == multiset(s) == multiset(rest + [y, x])
  {
    assert x in multiset(s) && y in multiset(s);
    TakeTwo(multiset(s), x, y);
    var one := Removed(s, x);
    rest := Removed(one, y);
    PairAdded(x, y, rest);
  }
}
