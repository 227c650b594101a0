/** Names of VCL configurations: `v-<config map version>-<unix seconds>`. */
module VclName {
  import opened Text

  const PREFIX := "v-"

  function Create(version: string, second: nat): string {
    PREFIX + version + "-" + Decimal(second)
  }

  /** The last dash-separated part but one, or nothing. */
  function ExtractVersion(name: string): string {
    var parts := Split(name, '-');
    if |parts| < 2 then "" else parts[|parts| - 2]
  }

  lemma SplitCreated(version: string, second: nat)
    ensures Split(Create(version, second), '-') == ["v"] + Split(version, '-') + [Decimal(second)]
  {
    var digits := Decimal(second);
    assert Create(version, second) == ("v" + ['-'] + version) + ['-'] + digits;
    SplitConcat("v" + ['-'] + version, digits, '-');
    SplitConcat("v", version, '-');
    SplitWithoutSeparator("v", '-');
    SplitWithoutSeparator(digits, '-');
  }

  /** Reading a name back yields the version it was made from, exactly for the
      versions without a dash. */
  lemma ExtractOfCreate(version: string, second: nat)
    ensures ExtractVersion(Create(version, second)) == version <==> '-' !in version
  {
    SplitCreated(version, second);
    var parts := Split(version, '-');
    SplitPartsAreFreeOfSeparator(version, '-');
    assert ExtractVersion(Create(version, second)) == parts[|parts| - 1];
    if '-' !in version {
      SplitWithoutSeparator(version, '-');
    }
  }

  lemma LastDash(a: string, b: string, x: string, y: string)
    requires a + "-" + x == b + "-" + y
    requires '-' !in x && '-' !in y
    ensures a == b && x == y
  {
    var s := a + "-" + x;
    assert s == b + "-" + y;
    assert s[|a|] == '-' && s[|b|] == '-';
    assert forall i :: |a| < i < |s| ==> s[i] == x[i - |a| - 1];
    assert forall i :: |b| < i < |s| ==> s[i] == y[i - |b| - 1];
    assert |a| == |b|;
    assert a == s[..|a|] && b == s[..|b|] && x == s[|a| + 1..] && y == s[|b| + 1..];
  }

  /** Two loads clash exactly when they carry the same version in the same second. */
  lemma CreateInjective(v: string, s: nat, w: string, t: nat)
    ensures Create(v, s) == Create(w, t) <==> v == w && s == t
  {
    if Create(v, s) == Create(w, t) {
      LastDash(PREFIX + v, PREFIX + w, Decimal(s), Decimal(t));
      assert v == (PREFIX + v)[|PREFIX|..] && w == (PREFIX + w)[|PREFIX|..];
      DecimalInjective(s, t);
    }
  }

  lemma CreatedHasPrefix(version: string, second: nat)
    ensures HasPrefix(Create(version, second), PREFIX)
    ensures Create(version, second) != "boot"
  {
    assert Create(version, second)[0] == 'v';
  }
}
