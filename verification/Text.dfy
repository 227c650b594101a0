/** Strings as the controllers use them: prefixes, suffixes, splitting at one
    character, decimal numerals and Go's order on strings. */
module Text {

  datatype Option<+T> = None | Some(value: T)

  lemma AppendAssoc<T>(a: seq<T>, b: seq<T>, c: seq<T>)
    ensures a + (b + c) == a + b + c
  {
  }

  predicate HasPrefix(s: string, p: string) {
    |p| <= |s| && s[..|p|] == p
  }

  predicate HasSuffix(s: string, p: string) {
    |p| <= |s| && s[|s| - |p|..] == p
  }

  /** `strings.TrimSuffix`: a string without the suffix is returned as it is. */
  function TrimSuffix(s: string, p: string): (r: string)
    ensures HasSuffix(s, p) ==> r + p == s
  {
    if HasSuffix(s, p) then s[..|s| - |p|] else s
  }

  /** `strings.Split` at a one-character separator: never empty. */
  function Split(s: string, sep: char): (parts: seq<string>)
    ensures |parts| >= 1
  {
    if s == "" then [""]
    else if s[0] == sep then [""] + Split(s[1..], sep)
    else
      var rest := Split(s[1..], sep);
      [[s[0]] + rest[0]] + rest[1..]
  }

  lemma {:induction false} SplitWithoutSeparator(s: string, sep: char)
    requires sep !in s
    ensures Split(s, sep) == [s]
  {
    if s != "" {
      SplitWithoutSeparator(s[1..], sep);
      assert s == [s[0]] + s[1..];
    }
  }

  /** Splitting undoes joining at the separator. */
  lemma {:induction false} SplitConcat(a: string, b: string, sep: char)
    ensures Split(a + [sep] + b, sep) == Split(a, sep) + Split(b, sep)
  {
    var s := a + [sep] + b;
    if a == "" {
      assert s[1..] == b;
    } else {
      assert s[1..] == a[1..] + [sep] + b;
      SplitConcat(a[1..], b, sep);
    }
  }

  lemma {:induction false} SplitPartsAreFreeOfSeparator(s: string, sep: char)
    ensures forall p <- Split(s, sep) :: sep !in p
  {
    if s != "" {
      SplitPartsAreFreeOfSeparator(s[1..], sep);
    }
  }

  /** The decimal numeral of a natural number, as `%d` prints it. */
  function Decimal(n: nat): (s: string)
    ensures s != ""
    ensures forall c <- s :: '0' <= c <= '9'
  {
    var digit := '0' + (n % 10) as char;
    if n < 10 then [digit] else Decimal(n / 10) + [digit]
  }

  /** The number that a text of digits stands for. */
  function Value(s: string): int {
    if s == "" then 0 else Value(s[..|s| - 1]) * 10 + (s[|s| - 1] as int - '0' as int)
  }

  /** Reading the numeral gives the number back, and it has no leading zero. */
  lemma {:induction false} DecimalReads(n: nat)
    ensures Value(Decimal(n)) == n
    ensures Decimal(n)[0] == '0' ==> n == 0
  {
    var s := Decimal(n);
    assert s[|s| - 1] as int - '0' as int == n % 10;
    if n >= 10 {
      DecimalReads(n / 10);
      assert s[..|s| - 1] == Decimal(n / 10);
    } else {
      assert s[..0] == "";
    }
  }

  lemma {:induction false} DecimalInjective(m: nat, n: nat)
    requires Decimal(m) == Decimal(n)
    ensures m == n
    decreases m
  {
    var s, t := Decimal(m), Decimal(n);
    assert s[|s| - 1] == '0' + (m % 10) as char;
    assert t[|t| - 1] == '0' + (n % 10) as char;
    if m >= 10 && n >= 10 {
      assert s[..|s| - 1] == Decimal(m / 10);
      assert t[..|t| - 1] == Decimal(n / 10);
      DecimalInjective(m / 10, n / 10);
    }
  }

  /** Go's `<=` on strings: lexicographic by code unit, a prefix first. */
  predicate LexLeq(s: string, t: string) {
    if s == "" then true
    else if t == "" then false
    else if s[0] != t[0] then s[0] < t[0]
    else LexLeq(s[1..], t[1..])
  }

  /** At the first place where they differ `s` is below. */
  ghost predicate DiffersBelow(s: string, t: string, i: int) {
    0 <= i < |s| && i < |t| && s[..i] == t[..i] && s[i] < t[i]
  }

  /** A prefix, or the smaller one where they first differ. */
  ghost predicate NotAfter(s: string, t: string) {
    s <= t || exists i :: DiffersBelow(s, t, i)
  }

  lemma {:induction false} LexLeqIff(s: string, t: string)
    ensures LexLeq(s, t) <==> NotAfter(s, t)
  {
    if s != "" && t != "" {
      assert s == [s[0]] + s[1..] && t == [t[0]] + t[1..];
      LexLeqIff(s[1..], t[1..]);
      if s[0] < t[0] {
        assert s[..0] == t[..0] && DiffersBelow(s, t, 0);
      }
      if i :| DiffersBelow(s[1..], t[1..], i) && s[0] == t[0] {
        assert s[..i + 1] == [s[0]] + s[1..][..i] && t[..i + 1] == [t[0]] + t[1..][..i];
        assert DiffersBelow(s, t, i + 1);
      }
      if i :| DiffersBelow(s, t, i) && i > 0 {
        assert s[0] == s[..i][0] == t[..i][0] == t[0];
        assert s[1..][..i - 1] == s[..i][1..] && t[1..][..i - 1] == t[..i][1..];
        assert DiffersBelow(s[1..], t[1..], i - 1);
      }
    }
  }

  lemma {:induction false} LexAntisymmetric(s: string, t: string)
    requires LexLeq(s, t) && LexLeq(t, s)
    ensures s == t
  {
    if s != "" && t != "" {
      LexAntisymmetric(s[1..], t[1..]);
      assert s == [s[0]] + s[1..] && t == [t[0]] + t[1..];
    }
  }

  lemma {:induction false} LexTotal(s: string, t: string)
    ensures LexLeq(s, t) || LexLeq(t, s)
  {
    if s != "" && t != "" {
      LexTotal(s[1..], t[1..]);
    }
  }

  lemma {:induction false} LexTransitive(s: string, t: string, u: string)
    requires LexLeq(s, t) && LexLeq(t, u)
    ensures LexLeq(s, u)
  {
    if s != "" && t != "" && u != "" && s[0] == t[0] == u[0] {
      LexTransitive(s[1..], t[1..], u[1..]);
    }
  }
}
