/** The local-to-remote ratio of the backends of a Varnish node's zone, and how it moves
    when a backend is added. */
module ZoneBalancing {
  import opened Text

  /** The labels are those of the backend's node; `zone` is the value of its zone label, if
      it has one. */
  datatype PodInfo = PodInfo(ip: string, name: string, labels: map<string, string>, zone: Option<string>, weight: real)

  predicate IsLocal(b: PodInfo, current: string) {
    b.zone == Some(current)
  }

  predicate IsRemote(b: PodInfo, current: string) {
    b.zone.Some? && b.zone.value != current
  }

  function Locals(bs: seq<PodInfo>, current: string): nat {
    if bs == [] then 0 else (if IsLocal(bs[0], current) then 1 else 0) + Locals(bs[1..], current)
  }

  function Remotes(bs: seq<PodInfo>, current: string): nat {
    if bs == [] then 0 else (if IsRemote(bs[0], current) then 1 else 0) + Remotes(bs[1..], current)
  }

  function Zones(bs: seq<PodInfo>): set<string> {
    set b <- bs | b.zone.Some? :: b.zone.value
  }

  function RemoteZones(bs: seq<PodInfo>, current: string): set<string> {
    Zones(bs) - {current}
  }

  predicate Multizone(bs: seq<PodInfo>, current: string) {
    exists b <- bs :: IsRemote(b, current)
  }

  method CheckMultizone(bs: seq<PodInfo>, current: string) returns (r: bool)
    ensures r <==> Multizone(bs, current)
  {
    for i := 0 to |bs|
      invariant forall k :: 0 <= k < i ==> !IsRemote(bs[k], current)
    {
      if bs[i].zone.Some? && bs[i].zone.value != current {
        assert bs[i] in bs;
        return true;
      }
    }
    return false;
  }

  // ---- Counting ----

  lemma {:induction false} CountsConcat(a: seq<PodInfo>, b: seq<PodInfo>, current: string)
    ensures Locals(a + b, current) == Locals(a, current) + Locals(b, current)
    ensures Remotes(a + b, current) == Remotes(a, current) + Remotes(b, current)
  {
    if a == [] {
      assert a + b == b;
    } else {
      assert (a + b)[1..] == a[1..] + b;
      CountsConcat(a[1..], b, current);
    }
  }

  lemma ZonesConcat(a: seq<PodInfo>, b: seq<PodInfo>)
    ensures Zones(a + b) == Zones(a) + Zones(b)
  {
  }

  lemma ZonesOfOne(b: PodInfo)
    ensures Zones([b]) == if b.zone.Some? then {b.zone.value} else {}
  {
    assert [b][0] == b;
  }

  /** What one backend, wherever it stands, adds to the counts and to the zones. */
  lemma {:induction false} Inserted(a: seq<PodInfo>, b: PodInfo, c: seq<PodInfo>, current: string)
    ensures Locals(a + [b] + c, current) == Locals(a + c, current) + if IsLocal(b, current) then 1 else 0
    ensures Remotes(a + [b] + c, current) == Remotes(a + c, current) + if IsRemote(b, current) then 1 else 0
    ensures Zones(a + [b] + c) == Zones(a + c) + if b.zone.Some? then {b.zone.value} else {}
  {
    CountsConcat(a, c, current);
    CountsConcat(a + [b], c, current);
    CountsConcat(a, [b], current);
    ZonesConcat(a, c);
    ZonesConcat(a + [b], c);
    ZonesConcat(a, [b]);
    ZonesOfOne(b);
  }

  lemma {:induction false} NextBackend(bs: seq<PodInfo>, i: nat, current: string)
    requires i < |bs|
    ensures Locals(bs[..i + 1], current) == Locals(bs[..i], current) + if IsLocal(bs[i], current) then 1 else 0
    ensures Remotes(bs[..i + 1], current) == Remotes(bs[..i], current) + if IsRemote(bs[i], current) then 1 else 0
    ensures Zones(bs[..i + 1]) == Zones(bs[..i]) + if bs[i].zone.Some? then {bs[i].zone.value} else {}
  {
    assert bs[..i + 1] == bs[..i] + [bs[i]] + [];
    assert bs[..i] == bs[..i] + [];
    Inserted(bs[..i], bs[i], [], current);
  }

  lemma Cardinality<T>(s: set<T>, z: T)
    ensures |s + {z}| == |s| + if z in s then 0 else 1
  {
    if z in s {
      assert s + {z} == s;
    }
  }

  lemma {:induction false} Head(bs: seq<PodInfo>, current: string)
    requires bs != []
    ensures RemoteZones(bs, current)
         == RemoteZones(bs[1..], current) + if IsRemote(bs[0], current) then {bs[0].zone.value} else {}
    ensures Zones(bs) == Zones(bs[1..]) + if bs[0].zone.Some? then {bs[0].zone.value} else {}
  {
    assert bs == [bs[0]] + bs[1..];
    ZonesConcat([bs[0]], bs[1..]);
    ZonesOfOne(bs[0]);
  }

  lemma {:induction false} RemotesPositive(bs: seq<PodInfo>, current: string)
    ensures Remotes(bs, current) > 0 <==> Multizone(bs, current)
    ensures Remotes(bs, current) > 0 <==> RemoteZones(bs, current) != {}
  {
    if bs != [] {
      RemotesPositive(bs[1..], current);
      Head(bs, current);
      if IsRemote(bs[0], current) {
        assert bs[0].zone.value in RemoteZones(bs, current);
      }
    }
  }

  lemma {:induction false} CurrentZoneIff(bs: seq<PodInfo>, current: string)
    ensures current in Zones(bs) <==> Locals(bs, current) > 0
  {
    if bs != [] {
      CurrentZoneIff(bs[1..], current);
      Head(bs, current);
    }
  }

  /** Every remote zone has a backend, and a backend is in one zone. */
  lemma {:induction false} ZonesBound(bs: seq<PodInfo>, current: string)
    ensures |RemoteZones(bs, current)| <= Remotes(bs, current)
  {
    if bs != [] {
      ZonesBound(bs[1..], current);
      Head(bs, current);
      if IsRemote(bs[0], current) {
        Cardinality(RemoteZones(bs[1..], current), bs[0].zone.value);
      }
    }
  }

  lemma {:induction false} ZoneCount(bs: seq<PodInfo>, current: string)
    ensures |Zones(bs)| == |RemoteZones(bs, current)| + if Locals(bs, current) > 0 then 1 else 0
  {
    CurrentZoneIff(bs, current);
    Cardinality(RemoteZones(bs, current), current);
    if current in Zones(bs) {
      assert RemoteZones(bs, current) + {current} == Zones(bs);
    } else {
      assert RemoteZones(bs, current) == Zones(bs);
    }
  }

  // ---- The ratio ----

  /** `l` local backends, `m` remote ones in `z` zones: locals for every backend of an
      average remote zone. */
  function Quotient(l: nat, z: nat, m: nat): real
    requires m > 0
  {
    l as real * z as real / m as real
  }

  function Ratio(bs: seq<PodInfo>, current: string): real
    requires Multizone(bs, current)
  {
    RemotesPositive(bs, current);
    Quotient(Locals(bs, current), |RemoteZones(bs, current)|, Remotes(bs, current))
  }

  /** Floating point divides by zero: the result is then infinite. */
  datatype Division = Finite(value: real) | Infinite

  function Over(a: nat, b: nat): Division
    requires a > 0
  {
    if b == 0 then Infinite else Finite(a as real / b as real)
  }

  /** The places of the backends with a property. */
  function Places(bs: seq<PodInfo>, p: PodInfo -> bool): set<int> {
    set i | 0 <= i < |bs| && p(bs[i])
  }

  function IsHere(current: string): PodInfo -> bool {
    (b: PodInfo) => b.zone == Some(current)
  }

  function IsElsewhere(current: string): PodInfo -> bool {
    (b: PodInfo) => b.zone != None && b.zone != Some(current)
  }

  function OtherZones(bs: seq<PodInfo>, current: string): set<string> {
    set b <- bs | b.zone.Some? && b.zone.value != current :: b.zone.value
  }

  lemma {:induction false} PlacesOfNext(bs: seq<PodInfo>, p: PodInfo -> bool, i: nat)
    requires i < |bs|
    ensures |Places(bs[..i + 1], p)| == |Places(bs[..i], p)| + if p(bs[i]) then 1 else 0
  {
    PlacesGrow(bs[..i], p, bs[i]);
    assert bs[..i + 1] == bs[..i] + [bs[i]];
    Cardinality(Places(bs[..i], p), i as int);
  }

  lemma {:induction false} PlacesGrow(bs: seq<PodInfo>, p: PodInfo -> bool, b: PodInfo)
    ensures Places(bs + [b], p) == Places(bs, p) + if p(b) then {|bs|} else {}
  {
  }

  /** The counts are numbers of places in the list. */
  lemma {:induction false} LocalsArePlaces(bs: seq<PodInfo>, current: string, n: nat)
    requires n <= |bs|
    ensures Locals(bs[..n], current) == |Places(bs[..n], IsHere(current))|
  {
    if n == 0 {
      assert Places(bs[..0], IsHere(current)) == {};
    } else {
      LocalsArePlaces(bs, current, n - 1);
      NextBackend(bs, n - 1, current);
      PlacesOfNext(bs, IsHere(current), n - 1);
    }
  }

  lemma {:induction false} RemotesArePlaces(bs: seq<PodInfo>, current: string, n: nat)
    requires n <= |bs|
    ensures Remotes(bs[..n], current) == |Places(bs[..n], IsElsewhere(current))|
  {
    if n == 0 {
      assert Places(bs[..0], IsElsewhere(current)) == {};
    } else {
      RemotesArePlaces(bs, current, n - 1);
      NextBackend(bs, n - 1, current);
      PlacesOfNext(bs, IsElsewhere(current), n - 1);
    }
  }

  lemma {:induction false} PlacesOfTally(bs: seq<PodInfo>, current: string, l: nat, z: nat, m: nat)
    requires Tally(bs, current, l, z, m)
    ensures |Places(bs, IsHere(current))| == l && |Places(bs, IsElsewhere(current))| == m
    ensures |OtherZones(bs, current)| == z
  {
    LocalsArePlaces(bs, current, |bs|);
    RemotesArePlaces(bs, current, |bs|);
    assert bs[..|bs|] == bs;
    OtherZonesAreRemote(bs, current);
  }

  /** Local backends for every backend of an average other zone, in terms of places in the
      list and of zone labels. */
  lemma {:induction false} RatioMeans(bs: seq<PodInfo>, current: string)
    requires Multizone(bs, current)
    ensures Ratio(bs, current) * |Places(bs, IsElsewhere(current))| as real
         == |Places(bs, IsHere(current))| as real * |OtherZones(bs, current)| as real
  {
    var l, z, m := TallyOf(bs, current);
    PlacesOfTally(bs, current, l, z, m);
    TallyGivesRatio(bs, current, l, z, m);
    QuotientTimes(Ratio(bs, current), |Places(bs, IsHere(current))|, |OtherZones(bs, current)|,
                  |Places(bs, IsElsewhere(current))|);
  }

  lemma OtherZonesAreRemote(bs: seq<PodInfo>, current: string)
    ensures RemoteZones(bs, current) == OtherZones(bs, current)
  {
  }

  lemma QuotientTimes(r: real, l: nat, z: nat, m: nat)
    requires m > 0 && r == Quotient(l, z, m)
    ensures r * m as real == l as real * z as real
  {
  }

  function Elements(s: seq<string>): set<string> {
    set x <- s
  }

  lemma ElementsAppend(s: seq<string>, x: string)
    ensures x in s <==> x in Elements(s)
    ensures Elements(s + [x]) == Elements(s) + {x}
    ensures x in s ==> Elements(s) + {x} == Elements(s)
  {
  }

  ghost predicate Counted(bs: seq<PodInfo>, current: string, localCount: nat, remoteCount: nat, zones: seq<string>) {
    && localCount == Locals(bs, current) && remoteCount == Remotes(bs, current)
    && Elements(zones) == Zones(bs) && |zones| == |Zones(bs)|
  }

  lemma {:induction false} CountedStep(bs: seq<PodInfo>, i: nat, current: string, l: nat, m: nat, zones: seq<string>)
    requires i < |bs| && Counted(bs[..i], current, l, m, zones)
    ensures bs[i].zone.None? ==> Counted(bs[..i + 1], current, l, m, zones)
    ensures bs[i].zone.Some? ==>
              var zone := bs[i].zone.value;
              var zones' := if zone in zones then zones else zones + [zone];
              if zone == current then Counted(bs[..i + 1], current, l + 1, m, zones')
              else Counted(bs[..i + 1], current, l, m + 1, zones')
  {
    NextBackend(bs, i, current);
    if bs[i].zone.Some? {
      Cardinality(Zones(bs[..i]), bs[i].zone.value);
      ElementsAppend(zones, bs[i].zone.value);
    }
  }

  /** The zone of a backend goes into the list unless it is there. */
  method CountBackends(bs: seq<PodInfo>, current: string)
    returns (localCount: nat, remoteCount: nat, zones: seq<string>)
    ensures Counted(bs, current, localCount, remoteCount, zones)
  {
    zones := [];
    remoteCount, localCount := 0, 0;
    for i := 0 to |bs|
      invariant Counted(bs[..i], current, localCount, remoteCount, zones)
    {
      CountedStep(bs, i, current, localCount, remoteCount, zones);
      if bs[i].zone.Some? {
        if bs[i].zone.value !in zones {
          zones := zones + [bs[i].zone.value];
        }
        if bs[i].zone.value == current {
          localCount := localCount + 1;
        } else {
          remoteCount := remoteCount + 1;
        }
      }
    }
    assert bs[..|bs|] == bs;
  }

  /** The dedupe loop and the two divisions, on every list with a remote backend: with no
      local backend the inner divisor is one less than the number of remote zones, and may
      be zero, yet the result is the ratio, zero. */
  method CalculateBackendRatio(bs: seq<PodInfo>, current: string) returns (r: real)
    requires Multizone(bs, current)
    ensures r == Ratio(bs, current)
    ensures r * |Places(bs, IsElsewhere(current))| as real
         == |Places(bs, IsHere(current))| as real * |OtherZones(bs, current)| as real
  {
    r := CountAndDivide(bs, current);
    RatioMeans(bs, current);
  }

  method CountAndDivide(bs: seq<PodInfo>, current: string) returns (r: real)
    requires Multizone(bs, current)
    ensures r == Ratio(bs, current)
  {
    var localCount, remoteCount, zones := CountBackends(bs, current);
    CountsGiveRatio(bs, current);
    var perZone := Over(remoteCount, |zones| - 1);
    r := DividedBy(localCount, perZone);
  }

  function DividedBy(a: nat, d: Division): real
    requires d.Finite? ==> d.value != 0.0
  {
    if d.Infinite? then 0.0 else a as real / d.value
  }

  lemma {:induction false} CountsGiveRatio(bs: seq<PodInfo>, current: string)
    requires Multizone(bs, current)
    ensures Remotes(bs, current) > 0 && |Zones(bs)| > 0
    ensures var d := Over(Remotes(bs, current), |Zones(bs)| - 1);
            && (d.Finite? ==> d.value != 0.0)
            && DividedBy(Locals(bs, current), d) == Ratio(bs, current)
  {
    RemotesPositive(bs, current);
    ZoneCount(bs, current);
    DivisionsGiveQuotient(Locals(bs, current), |RemoteZones(bs, current)|, Remotes(bs, current));
  }

  lemma DivisionsGiveQuotient(l: nat, z: nat, m: nat)
    requires m > 0 && z > 0
    ensures var divisor := if l > 0 then z else z - 1;
            match Over(m, divisor)
            case Infinite => l == 0 && Quotient(l, z, m) == 0.0
            case Finite(v) => v > 0.0 && l as real / v == Quotient(l, z, m)
  {
    var divisor := if l > 0 then z else z - 1;
    if l == 0 {
      ZeroOver(z as real, m as real);
      if divisor > 0 {
        PositiveQuotient(m as real, divisor as real);
      }
    } else {
      PositiveQuotient(m as real, z as real);
      NestedQuotient(l as real, z as real, m as real);
    }
  }

  lemma ZeroOver(z: real, m: real)
    requires m > 0.0
    ensures 0.0 * z / m == 0.0
  {
  }

  lemma PositiveQuotient(m: real, z: real)
    requires m > 0.0 && z > 0.0
    ensures m / z > 0.0
  {
  }

  lemma NestedQuotient(l: real, z: real, m: real)
    requires m > 0.0 && z > 0.0
    ensures m / z > 0.0 && l / (m / z) == l * z / m
  {
    PositiveQuotient(m, z);
    assert l * z / m * (m / z) == l;
  }

  // ---- Adding a backend ----

  /** `l`, `z` and `m` are what the ratio of `bs` is made from. */
  ghost predicate Tally(bs: seq<PodInfo>, current: string, l: nat, z: nat, m: nat) {
    && m > 0 && z > 0
    && Locals(bs, current) == l && |RemoteZones(bs, current)| == z && Remotes(bs, current) == m
  }

  lemma {:induction false} TallyGivesRatio(bs: seq<PodInfo>, current: string, l: nat, z: nat, m: nat)
    requires Tally(bs, current, l, z, m)
    ensures Multizone(bs, current) && Ratio(bs, current) == Quotient(l, z, m)
  {
    RemotesPositive(bs, current);
  }

  lemma {:induction false} TallyOf(bs: seq<PodInfo>, current: string) returns (l: nat, z: nat, m: nat)
    requires Multizone(bs, current)
    ensures Tally(bs, current, l, z, m) && z <= m
  {
    RemotesPositive(bs, current);
    ZonesBound(bs, current);
    l, z, m := Locals(bs, current), |RemoteZones(bs, current)|, Remotes(bs, current);
  }

  /** What one backend, wherever it stands, does to the tally. */
  lemma {:induction false} InsertedTally(a: seq<PodInfo>, b: PodInfo, c: seq<PodInfo>, current: string,
                                         l: nat, z: nat, m: nat)
    requires Tally(a + c, current, l, z, m)
    ensures IsLocal(b, current) ==> Tally(a + [b] + c, current, l + 1, z, m)
    ensures IsRemote(b, current) ==>
              Tally(a + [b] + c, current, l, if b.zone.value in Zones(a + c) then z else z + 1, m + 1)
  {
    Inserted(a, b, c, current);
    if IsLocal(b, current) {
      assert RemoteZones(a + [b] + c, current) == RemoteZones(a + c, current);
    } else if IsRemote(b, current) {
      assert RemoteZones(a + [b] + c, current) == RemoteZones(a + c, current) + {b.zone.value};
      Cardinality(RemoteZones(a + c, current), b.zone.value);
    }
  }

  /** One more local backend, anywhere in the list, raises the ratio. */
  lemma {:induction false} LocalRaises(a: seq<PodInfo>, b: PodInfo, c: seq<PodInfo>, current: string)
    requires Multizone(a + c, current) && IsLocal(b, current)
    ensures Multizone(a + [b] + c, current)
    ensures Ratio(a + [b] + c, current) > Ratio(a + c, current)
  {
    var l, z, m := TallyOf(a + c, current);
    InsertedTally(a, b, c, current, l, z, m);
    TallyGivesRatio(a + c, current, l, z, m);
    TallyGivesRatio(a + [b] + c, current, l + 1, z, m);
    MoreLocals(l, z, m);
  }

  /** One more backend in a remote zone that had some lowers it, if there are local ones. */
  lemma {:induction false} KnownZoneLowers(a: seq<PodInfo>, b: PodInfo, c: seq<PodInfo>, current: string)
    requires Multizone(a + c, current) && IsRemote(b, current) && b.zone.value in Zones(a + c)
    requires Locals(a + c, current) > 0
    ensures Multizone(a + [b] + c, current)
    ensures Ratio(a + [b] + c, current) < Ratio(a + c, current)
  {
    var l, z, m := TallyOf(a + c, current);
    InsertedTally(a, b, c, current, l, z, m);
    TallyGivesRatio(a + c, current, l, z, m);
    TallyGivesRatio(a + [b] + c, current, l, z, m + 1);
    MoreRemotes(l, z, m);
  }

  /** One more backend in a zone that had none never lowers it, as no zone is counted
      without a backend of its own. */
  lemma {:induction false} NewZoneNeverLowers(a: seq<PodInfo>, b: PodInfo, c: seq<PodInfo>, current: string)
    requires Multizone(a + c, current) && IsRemote(b, current) && b.zone.value !in Zones(a + c)
    ensures Multizone(a + [b] + c, current)
    ensures Ratio(a + [b] + c, current) >= Ratio(a + c, current)
  {
    var l, z, m := TallyOf(a + c, current);
    InsertedTally(a, b, c, current, l, z, m);
    TallyGivesRatio(a + c, current, l, z, m);
    TallyGivesRatio(a + [b] + c, current, l, z + 1, m + 1);
    MoreZones(l, z, m);
  }

  // ---- Arithmetic of the ratio ----

  lemma MoreLocals(l: nat, z: nat, m: nat)
    requires z > 0 && m > 0
    ensures Quotient(l + 1, z, m) > Quotient(l, z, m)
  {
    var x, y, n := l as real, z as real, m as real;
    PositiveQuotient(y, n);
    assert (x + 1.0) * y / n == x * y / n + y / n;
  }

  lemma MoreRemotes(l: nat, z: nat, m: nat)
    requires l > 0 && z > 0 && m > 0
    ensures Quotient(l, z, m + 1) < Quotient(l, z, m)
  {
    var p, n := l as real * z as real, m as real;
    assert p > 0.0;
    CrossMultiply(p, n + 1.0, p, n);
  }

  lemma MoreZones(l: nat, z: nat, m: nat)
    requires 0 < z <= m
    ensures Quotient(l, z + 1, m + 1) >= Quotient(l, z, m)
  {
    var x, y, y', n, n' := l as real, z as real, (z + 1) as real, m as real, (m + 1) as real;
    MoreZonesReal(x, y, y', n, n');
    assert Quotient(l, z, m) == x * y / n;
    assert Quotient(l, z + 1, m + 1) == x * y' / n';
  }

  lemma MoreZonesReal(x: real, y: real, y': real, n: real, n': real)
    requires x >= 0.0 && 0.0 < y <= n && y' == y + 1.0 && n' == n + 1.0
    ensures x * y' / n' >= x * y / n
  {
    Expand(x, y, n);
    NotSmaller(x * y, n, x * y', n');
  }

  lemma Expand(x: real, y: real, n: real)
    requires x >= 0.0 && n >= y
    ensures x * (y + 1.0) * n >= x * y * (n + 1.0)
  {
    assert x * (n - y) >= 0.0;
    assert x * (y + 1.0) * n - x * y * (n + 1.0) == x * (n - y);
  }

  lemma CrossMultiply(a: real, b: real, c: real, d: real)
    requires b > 0.0 && d > 0.0 && c * b > a * d
    ensures c / d > a / b
  {
    DifferenceOfQuotients(a, b, c, d);
    PositiveQuotient(c * b - a * d, b * d);
  }

  lemma DifferenceOfQuotients(a: real, b: real, c: real, d: real)
    requires b > 0.0 && d > 0.0
    ensures b * d > 0.0
    ensures c / d - a / b == (c * b - a * d) / (b * d)
  {
  }

  lemma NotSmaller(a: real, b: real, c: real, d: real)
    requires b > 0.0 && d > 0.0 && c * b >= a * d
    ensures c / d >= a / b
  {
    if c * b > a * d {
      CrossMultiply(a, b, c, d);
    } else {
      DifferenceOfQuotients(a, b, c, d);
    }
  }
}
