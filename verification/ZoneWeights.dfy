/** The weights backends end with: none, ten times the ratio for local ones, or the pair of
    a threshold chosen by the ratio. */
module ZoneWeights {
  import opened Text
  import opened Ordering
  import opened ZoneBalancing

  datatype Threshold = Threshold(local: int, remote: int, threshold: int)

  datatype Balancing = Disabled | Auto | Thresholds(thresholds: seq<Threshold>)

  // ---- Choosing a threshold ----

  /** `int(ratio * 100)`: conversion drops the fraction, and ratios are not negative. */
  function Percent(ratio: real): int {
    (ratio * 100.0).Floor
  }

  /** The smallest threshold that is not below the percentage, or the greatest of all if
      every one is below it. */
  ghost predicate IsChoice(ts: seq<Threshold>, percent: int, t: Threshold) {
    && t in ts
    && (if exists u <- ts :: u.threshold >= percent
        then t.threshold >= percent && forall u <- ts :: u.threshold >= percent ==> t.threshold <= u.threshold
        else forall u <- ts :: u.threshold <= t.threshold)
  }

  ghost predicate Descending(ts: seq<Threshold>) {
    forall i, j :: 0 <= i < j < |ts| ==> ts[i].threshold >= ts[j].threshold
  }

  lemma InsertDescending(s: seq<Threshold>, j: nat, t: Threshold)
    requires Descending(s) && j <= |s|
    requires j > 0 ==> s[j - 1].threshold >= t.threshold
    requires forall x :: j <= x < |s| ==> s[x].threshold < t.threshold
    ensures Descending(s[..j] + [t] + s[j..])
  {
    var r := s[..j] + [t] + s[j..];
    forall i, k | 0 <= i < k < |r|
      ensures r[i].threshold >= r[k].threshold
    {
      if i < j {
        assert r[i] == s[i] && s[i].threshold >= s[j - 1].threshold;
        assert k > j ==> r[k] == s[k - 1];
      } else {
        assert r[k] == s[k - 1];
        assert i > j ==> r[i] == s[i - 1];
      }
    }
  }

  lemma InsertKeepsElements(s: seq<Threshold>, j: nat, t: Threshold)
    requires j <= |s|
    ensures multiset(s[..j] + [t] + s[j..]) == multiset(s) + multiset{t}
  {
    assert s == s[..j] + s[j..];
  }

  method Insert(s: seq<Threshold>, t: Threshold) returns (r: seq<Threshold>)
    requires Descending(s)
    ensures Descending(r) && multiset(r) == multiset(s) + multiset{t}
  {
    var j := |s|;
    while j > 0 && s[j - 1].threshold < t.threshold
      invariant 0 <= j <= |s|
      invariant forall x :: j <= x < |s| ==> s[x].threshold < t.threshold
    {
      j := j - 1;
    }
    InsertDescending(s, j, t);
    InsertKeepsElements(s, j, t);
    r := s[..j] + [t] + s[j..];
  }

  /** `sort.Slice` by falling threshold, which may order equal thresholds as it likes. */
  method SortDescending(ts: seq<Threshold>) returns (r: seq<Threshold>)
    ensures Descending(r) && multiset(r) == multiset(ts)
  {
    r := [];
    for i := 0 to |ts|
      invariant Descending(r) && multiset(r) == multiset(ts[..i])
    {
      assert ts[..i + 1] == ts[..i] + [ts[i]];
      r := Insert(r, ts[i]);
    }
    assert ts[..|ts|] == ts;
  }

  /** Sorting and walking down as long as thresholds are not below the percentage. */
  method ChooseThreshold(ts: seq<Threshold>, percent: int) returns (t: Threshold)
    requires ts != []
    ensures IsChoice(ts, percent, t)
  {
    var sorted := SortDescending(ts);
    SameMembers(ts, sorted);
    t := sorted[0];
    var i := 0;
    while i < |sorted| && percent <= sorted[i].threshold
      invariant 0 <= i <= |sorted|
      invariant t == if i == 0 then sorted[0] else sorted[i - 1]
      invariant i > 0 ==> percent <= t.threshold
    {
      t := sorted[i];
      i := i + 1;
    }
    forall u | u in ts
      ensures u.threshold >= percent ==> i > 0 && t.threshold <= u.threshold
      ensures i == 0 ==> u.threshold <= t.threshold
    {
      assert u in sorted;
      var k :| 0 <= k < |sorted| && sorted[k] == u;
    }
    assert t in sorted;
  }

  /** A smaller percentage never chooses a higher threshold. */
  lemma ChoiceIsMonotone(ts: seq<Threshold>, p: int, t: Threshold, q: int, u: Threshold)
    requires p <= q && IsChoice(ts, p, t) && IsChoice(ts, q, u)
    ensures t.threshold <= u.threshold
  {
    if exists v <- ts :: v.threshold >= q {
      assert u.threshold >= p;
    }
  }

  /** Of distinct thresholds, in any order, one is chosen. */
  lemma ChoiceIsUnique(ts: seq<Threshold>, us: seq<Threshold>, percent: int, t: Threshold, u: Threshold)
    requires multiset(ts) == multiset(us)
    requires forall v <- ts, w <- ts :: v.threshold == w.threshold ==> v == w
    requires IsChoice(ts, percent, t) && IsChoice(us, percent, u)
    ensures t == u
  {
    SameMembers(ts, us);
    ChoiceIsMonotone(ts, percent, t, percent, u);
    ChoiceIsMonotone(ts, percent, u, percent, t);
  }

  /** Moving one more backend into the local zone never chooses a lower threshold. */
  lemma {:induction false} LocalNeverLowersChoice(a: seq<PodInfo>, b: PodInfo, c: seq<PodInfo>, current: string,
                                                  ts: seq<Threshold>, t: Threshold, u: Threshold)
    requires Multizone(a + c, current) && IsLocal(b, current)
    requires Multizone(a + [b] + c, current)
    requires IsChoice(ts, Percent(Ratio(a + c, current)), t)
    requires IsChoice(ts, Percent(Ratio(a + [b] + c, current)), u)
    ensures t.threshold <= u.threshold
  {
    LocalRaises(a, b, c, current);
    PercentIsMonotone(Ratio(a + c, current), Ratio(a + [b] + c, current));
    ChoiceIsMonotone(ts, Percent(Ratio(a + c, current)), t, Percent(Ratio(a + [b] + c, current)), u);
  }

  lemma PercentIsMonotone(x: real, y: real)
    requires x <= y
    ensures Percent(x) <= Percent(y)
  {
  }

  // ---- Assigning weights ----

  /** The weights compare the zone label of a node as a map lookup gives it: a missing one
      is the empty string. */
  function ZoneOf(b: PodInfo): string {
    if b.zone.Some? then b.zone.value else ""
  }

  predicate InCurrent(b: PodInfo, current: string) {
    ZoneOf(b) == current
  }

  /** Backends of the current zone weigh `local`; the others weigh `remote`, if it is given. */
  function Weighted(b: PodInfo, current: string, local: real, remote: Option<real>): PodInfo {
    if InCurrent(b, current) then b.(weight := local)
    else if remote.Some? then b.(weight := remote.value)
    else b
  }

  /** The reported weight of a side on which there are no backends is one. */
  function Reported(present: bool, weight: real): real {
    if present then weight else 1.0
  }

  function ValueOr(weight: Option<real>, default: real): real {
    if weight.Some? then weight.value else default
  }

  predicate SomeInCurrent(bs: seq<PodInfo>, current: string) {
    exists b <- bs :: InCurrent(b, current)
  }

  predicate SomeElsewhere(bs: seq<PodInfo>, current: string) {
    exists b <- bs :: !InCurrent(b, current)
  }

  /** What balancing may leave behind, with the reported weights: nothing changes unless it
      applies. */
  ghost predicate Outcome(before: seq<PodInfo>, after: seq<PodInfo>, current: string, balancing: Balancing,
                          local: real, remote: real) {
    if Balances(before, current, balancing) then BalancedTo(before, after, current, balancing, local, remote)
    else after == before && local == remote == 1.0
  }

  /** What the two writing loops leave behind. */
  ghost predicate AllWeighted(before: seq<PodInfo>, after: seq<PodInfo>, current: string,
                              local: real, remote: Option<real>) {
    && |after| == |before|
    && forall i :: 0 <= i < |before| ==> after[i] == Weighted(before[i], current, local, remote)
  }

  /** Whether balancing changes any weight of these backends. */
  predicate Balances(bs: seq<PodInfo>, current: string, balancing: Balancing) {
    Multizone(bs, current) && (balancing.Auto? || (balancing.Thresholds? && balancing.thresholds != []))
  }

  /** `local` and `remote` are the reported weights; the pair of the chosen threshold, or
      ten times the ratio, is what the backends themselves end with. */
  ghost predicate BalancedTo(before: seq<PodInfo>, after: seq<PodInfo>, current: string, balancing: Balancing,
                             local: real, remote: real)
    requires Balances(before, current, balancing)
  {
    var ratio := Ratio(before, current);
    match balancing
    case Auto =>
      && AllWeighted(before, after, current, 10.0 * ratio, None)
      && local == Reported(SomeInCurrent(before, current), 10.0 * ratio) && remote == 1.0
    case Thresholds(ts) =>
      exists t <- ts ::
        && IsChoice(ts, Percent(ratio), t)
        && AllWeighted(before, after, current, t.local as real, Some(t.remote as real))
        && local == Reported(SomeInCurrent(before, current), t.local as real)
        && remote == t.remote as real
    case Disabled => false
  }

  lemma NextInCurrent(bs: seq<PodInfo>, i: nat, current: string)
    requires i < |bs|
    ensures SomeInCurrent(bs[..i + 1], current) <==> SomeInCurrent(bs[..i], current) || InCurrent(bs[i], current)
    ensures SomeElsewhere(bs[..i + 1], current) <==> SomeElsewhere(bs[..i], current) || !InCurrent(bs[i], current)
  {
    assert bs[..i + 1] == bs[..i] + [bs[i]];
    assert bs[i] in bs[..i + 1];
  }

  /** The loops over the backend list write weights in place. */
  method AssignWeights(backends: array<PodInfo>, current: string, local: real, remote: Option<real>)
    returns (actualLocal: real, actualRemote: real)
    modifies backends
    ensures AllWeighted(old(backends[..]), backends[..], current, local, remote)
    ensures WeighsByZone(old(backends[..]), backends[..], current, local, remote)
    ensures actualLocal == Reported(SomeInCurrent(old(backends[..]), current), local)
    ensures actualRemote == Reported(SomeElsewhere(old(backends[..]), current), ValueOr(remote, 1.0))
  {
    ghost var before := backends[..];
    actualLocal, actualRemote := 1.0, 1.0;
    for i := 0 to backends.Length
      invariant forall k :: 0 <= k < i ==> backends[k] == Weighted(before[k], current, local, remote)
      invariant forall k :: i <= k < backends.Length ==> backends[k] == before[k]
      invariant actualLocal == Reported(SomeInCurrent(before[..i], current), local)
      invariant actualRemote == Reported(SomeElsewhere(before[..i], current), ValueOr(remote, 1.0))
    {
      NextInCurrent(before, i, current);
      if ZoneOf(backends[i]) == current {
        actualLocal := local;
        backends[i] := backends[i].(weight := local);
      } else {
        actualRemote := ValueOr(remote, 1.0);
        if remote.Some? {
          backends[i] := backends[i].(weight := remote.value);
        }
      }
    }
    assert before[..|before|] == before;
    AllWeightedMeans(before, backends[..], current, local, remote);
  }

  method BalanceAutomatically(backends: array<PodInfo>, current: string, ratio: real)
    returns (actualLocal: real, actualRemote: real)
    requires Multizone(backends[..], current) && ratio == Ratio(backends[..], current)
    modifies backends
    ensures Outcome(old(backends[..]), backends[..], current, Auto, actualLocal, actualRemote)
  {
    ghost var before := backends[..];
    var weight := 10.0 * ratio;
    actualLocal, actualRemote := AssignWeights(backends, current, weight, None);
    AutoBalances(before, backends[..], current, weight, actualLocal, actualRemote);
  }

  method BalanceByThresholds(backends: array<PodInfo>, current: string, ts: seq<Threshold>, ratio: real)
    returns (actualLocal: real, actualRemote: real)
    requires Multizone(backends[..], current) && ratio == Ratio(backends[..], current) && ts != []
    modifies backends
    ensures Outcome(old(backends[..]), backends[..], current, Thresholds(ts), actualLocal, actualRemote)
  {
    ghost var before := backends[..];
    var t := ChooseThreshold(ts, Percent(ratio));
    actualLocal, actualRemote := AssignWeights(backends, current, t.local as real, Some(t.remote as real));
    ThresholdBalances(before, backends[..], current, ts, t, actualLocal, actualRemote);
  }

  lemma {:induction false} AutoBalances(before: seq<PodInfo>, after: seq<PodInfo>, current: string, weight: real,
                                        local: real, remote: real)
    requires Multizone(before, current) && weight == 10.0 * Ratio(before, current)
    requires AllWeighted(before, after, current, weight, None)
    requires local == Reported(SomeInCurrent(before, current), weight)
    requires remote == Reported(SomeElsewhere(before, current), ValueOr(None, 1.0))
    ensures Outcome(before, after, current, Auto, local, remote)
  {
  }

  lemma {:induction false} ThresholdBalances(before: seq<PodInfo>, after: seq<PodInfo>, current: string,
                                             ts: seq<Threshold>, t: Threshold, local: real, remote: real)
    requires Multizone(before, current) && t in ts && IsChoice(ts, Percent(Ratio(before, current)), t)
    requires AllWeighted(before, after, current, t.local as real, Some(t.remote as real))
    requires local == Reported(SomeInCurrent(before, current), t.local as real)
    requires remote == Reported(SomeElsewhere(before, current), t.remote as real)
    ensures Outcome(before, after, current, Thresholds(ts), local, remote)
  {
    RemoteIsNotCurrent(before, current);
  }

  /** A missing label counts as the empty name. */
  predicate LabelledAs(b: PodInfo, zone: string) {
    b.zone == Some(zone) || (b.zone == None && zone == "")
  }

  /** The weights in the end, backend by backend and in terms of the zone label: `local` in the
      current zone; elsewhere `remote`, or what it was. Nothing else of a backend changes. */
  ghost predicate WeighsByZone(before: seq<PodInfo>, after: seq<PodInfo>, current: string,
                               local: real, remote: Option<real>) {
    && |after| == |before|
    && (forall i :: 0 <= i < |before| ==>
          && after[i].ip == before[i].ip && after[i].name == before[i].name
          && after[i].labels == before[i].labels && after[i].zone == before[i].zone)
    && (forall i :: 0 <= i < |before| && LabelledAs(before[i], current) ==> after[i].weight == local)
    && (forall i :: 0 <= i < |before| && !LabelledAs(before[i], current) ==>
          after[i].weight == if remote.Some? then remote.value else before[i].weight)
  }

  /** The reported local weight is that of the backends of the current zone, or one. */
  ghost predicate ReportsLocal(after: seq<PodInfo>, current: string, local: real) {
    && (forall b <- after :: LabelledAs(b, current) ==> b.weight == local)
    && ((forall b <- after :: !LabelledAs(b, current)) ==> local == 1.0)
  }

  ghost predicate ReportsRemote(after: seq<PodInfo>, current: string, remote: real) {
    forall b <- after :: !LabelledAs(b, current) ==> b.weight == remote
  }

  lemma AllWeightedMeans(before: seq<PodInfo>, after: seq<PodInfo>, current: string, local: real, remote: Option<real>)
    requires AllWeighted(before, after, current, local, remote)
    ensures WeighsByZone(before, after, current, local, remote)
  {
    forall i | 0 <= i < |before|
      ensures after[i] == Weighted(before[i], current, local, remote)
    {
    }
  }

  /** The threshold is not below the ratio in whole percent. */
  predicate Covers(t: Threshold, ratio: real) {
    100.0 * ratio < t.threshold as real + 1.0
  }

  /** What balancing does to the weights: nothing in one zone, without thresholds or when it is
      disabled; ten times the ratio for the current zone in automatic mode; or the weights
      of the smallest threshold that covers the ratio, or of the greatest if none does. */
  ghost predicate BalancedMeans(before: seq<PodInfo>, after: seq<PodInfo>, current: string, balancing: Balancing) {
    if (forall b <- before :: b.zone == None || b.zone == Some(current)) || balancing == Disabled
       || balancing == Thresholds([])
    then after == before
    else
      && Multizone(before, current)
      && match balancing
         case Auto => WeighsByZone(before, after, current, 10.0 * Ratio(before, current), None)
         case Thresholds(ts) =>
           exists t <- ts ::
             && (forall u <- ts :: Covers(u, Ratio(before, current)) ==>
                   Covers(t, Ratio(before, current)) && t.threshold <= u.threshold)
             && ((forall u <- ts :: !Covers(u, Ratio(before, current))) ==>
                   forall u <- ts :: u.threshold <= t.threshold)
             && WeighsByZone(before, after, current, t.local as real, Some(t.remote as real))
         case Disabled => false
  }

  lemma CoversIff(t: Threshold, ratio: real)
    ensures Covers(t, ratio) <==> Percent(ratio) <= t.threshold
  {
  }

  lemma {:induction false} BalancedToMeans(before: seq<PodInfo>, after: seq<PodInfo>, current: string,
                                           balancing: Balancing, local: real, remote: real)
    requires Balances(before, current, balancing)
    requires BalancedTo(before, after, current, balancing, local, remote)
    ensures BalancedMeans(before, after, current, balancing)
  {
    if balancing.Auto? {
      AllWeightedMeans(before, after, current, 10.0 * Ratio(before, current), None);
    } else {
      var t := ChosenThreshold(before, after, current, balancing.thresholds, local, remote);
      AllWeightedMeans(before, after, current, t.local as real, Some(t.remote as real));
      ChoiceMeans(balancing.thresholds, Ratio(before, current), t);
      NotMultizone(before, current);
    }
  }

  lemma ChoiceMeans(ts: seq<Threshold>, ratio: real, t: Threshold)
    requires IsChoice(ts, Percent(ratio), t)
    ensures forall u <- ts :: Covers(u, ratio) ==> Covers(t, ratio) && t.threshold <= u.threshold
    ensures (forall u <- ts :: !Covers(u, ratio)) ==> forall u <- ts :: u.threshold <= t.threshold
  {
    forall u: Threshold
      ensures Covers(u, ratio) <==> u.threshold >= Percent(ratio)
    {
      CoversIff(u, ratio);
    }
  }

  lemma NotMultizone(bs: seq<PodInfo>, current: string)
    ensures Multizone(bs, current) <==> !forall b <- bs :: b.zone == None || b.zone == Some(current)
  {
    if b :| b in bs && !(b.zone == None || b.zone == Some(current)) {
      assert IsRemote(b, current);
    }
  }

  lemma {:induction false} BalancedMeansAlways(before: seq<PodInfo>, after: seq<PodInfo>, current: string,
                                               balancing: Balancing, local: real, remote: real)
    requires Outcome(before, after, current, balancing, local, remote)
    ensures BalancedMeans(before, after, current, balancing)
  {
    NotMultizone(before, current);
    if Balances(before, current, balancing) {
      BalancedToMeans(before, after, current, balancing, local, remote);
    }
  }

  /** The part of the endpoint lookup that balances zones. */
  method BalanceZones(backends: array<PodInfo>, current: string, balancing: Balancing)
    returns (actualLocal: real, actualRemote: real)
    modifies backends
    ensures Outcome(old(backends[..]), backends[..], current, balancing, actualLocal, actualRemote)
    ensures BalancedMeans(old(backends[..]), backends[..], current, balancing)
    ensures Balances(old(backends[..]), current, balancing) ==>
              && ReportsLocal(backends[..], current, actualLocal)
              && (balancing.Thresholds? ==> ReportsRemote(backends[..], current, actualRemote))
              && (balancing.Auto? ==> actualRemote == 1.0)
  {
    ghost var before := backends[..];
    actualLocal, actualRemote := BalanceAll(backends, current, balancing);
    BalancedMeansAlways(before, backends[..], current, balancing, actualLocal, actualRemote);
    if Balances(before, current, balancing) {
      BalancedReports(before, backends[..], current, balancing, actualLocal, actualRemote);
    }
  }

  lemma {:induction false} BalancedReports(before: seq<PodInfo>, after: seq<PodInfo>, current: string,
                                           balancing: Balancing, local: real, remote: real)
    requires Balances(before, current, balancing)
    requires BalancedTo(before, after, current, balancing, local, remote)
    ensures ReportsLocal(after, current, local)
    ensures balancing.Thresholds? ==> ReportsRemote(after, current, remote)
  {
    if balancing.Auto? {
      var weight := 10.0 * Ratio(before, current);
      AllWeightedMeans(before, after, current, weight, None);
      WeightsReport(before, after, current, weight, None, local);
    } else {
      var t := ChosenThreshold(before, after, current, balancing.thresholds, local, remote);
      AllWeightedMeans(before, after, current, t.local as real, Some(t.remote as real));
      WeightsReport(before, after, current, t.local as real, Some(t.remote as real), local);
    }
  }

  lemma {:induction false} WeightsReport(before: seq<PodInfo>, after: seq<PodInfo>, current: string,
                                         local: real, remote: Option<real>, reported: real)
    requires WeighsByZone(before, after, current, local, remote)
    requires reported == Reported(SomeInCurrent(before, current), local)
    ensures ReportsLocal(after, current, reported)
    ensures remote.Some? ==> ReportsRemote(after, current, remote.value)
  {
    SameZones(before, after, current);
    forall b | b in after
      ensures LabelledAs(b, current) ==> b.weight == local
      ensures remote.Some? && !LabelledAs(b, current) ==> b.weight == remote.value
    {
      var i :| 0 <= i < |after| && after[i] == b;
      assert LabelledAs(before[i], current) <==> LabelledAs(b, current);
    }
  }

  lemma LabelledIff(a: PodInfo, b: PodInfo, current: string)
    requires a.zone == b.zone
    ensures InCurrent(a, current) <==> LabelledAs(b, current)
  {
  }

  lemma {:induction false} SomeLabelled(before: seq<PodInfo>, after: seq<PodInfo>, current: string)
    requires |after| == |before| && forall i :: 0 <= i < |before| ==> after[i].zone == before[i].zone
    requires SomeInCurrent(before, current)
    ensures exists b <- after :: LabelledAs(b, current)
  {
    var a :| a in before && InCurrent(a, current);
    var i :| 0 <= i < |before| && before[i] == a;
    LabelledIff(a, after[i], current);
    assert after[i] in after;
  }

  lemma {:induction false} SameZones(before: seq<PodInfo>, after: seq<PodInfo>, current: string)
    requires |after| == |before| && forall i :: 0 <= i < |before| ==> after[i].zone == before[i].zone
    ensures SomeInCurrent(before, current) <==> exists b <- after :: LabelledAs(b, current)
  {
    if SomeInCurrent(before, current) {
      SomeLabelled(before, after, current);
    }
    if b :| b in after && LabelledAs(b, current) {
      var i :| 0 <= i < |after| && after[i] == b;
      LabelledIff(before[i], b, current);
      assert before[i] in before;
    }
  }

  method BalanceAll(backends: array<PodInfo>, current: string, balancing: Balancing)
    returns (actualLocal: real, actualRemote: real)
    modifies backends
    ensures Outcome(old(backends[..]), backends[..], current, balancing, actualLocal, actualRemote)
  {
    var multizone := CheckMultizone(backends[..], current);
    if !multizone {
      return 1.0, 1.0;
    }
    var ratio := CalculateBackendRatio(backends[..], current);
    actualLocal, actualRemote := BalanceMultizone(backends, current, balancing, ratio);
  }

  /** The mode switch. */
  method BalanceMultizone(backends: array<PodInfo>, current: string, balancing: Balancing, ratio: real)
    returns (actualLocal: real, actualRemote: real)
    requires Multizone(backends[..], current) && ratio == Ratio(backends[..], current)
    modifies backends
    ensures Outcome(old(backends[..]), backends[..], current, balancing, actualLocal, actualRemote)
  {
    actualLocal, actualRemote := 1.0, 1.0;
    match balancing
    case Auto => actualLocal, actualRemote := BalanceAutomatically(backends, current, ratio);
    case Thresholds(ts) =>
      if ts != [] {
        actualLocal, actualRemote := BalanceByThresholds(backends, current, ts, ratio);
      }
    case Disabled =>
  }

  lemma RemoteIsNotCurrent(bs: seq<PodInfo>, current: string)
    requires Multizone(bs, current)
    ensures SomeElsewhere(bs, current)
  {
    var b :| b in bs && IsRemote(b, current);
    assert !InCurrent(b, current);
  }

  lemma {:induction false} ChosenThreshold(before: seq<PodInfo>, after: seq<PodInfo>, current: string,
                                           ts: seq<Threshold>, local: real, remote: real) returns (t: Threshold)
    requires Balances(before, current, Thresholds(ts))
    requires BalancedTo(before, after, current, Thresholds(ts), local, remote)
    ensures t in ts && IsChoice(ts, Percent(Ratio(before, current)), t)
    ensures AllWeighted(before, after, current, t.local as real, Some(t.remote as real))
    ensures local == Reported(SomeInCurrent(before, current), t.local as real) && remote == t.remote as real
  {
    t :| && t in ts && IsChoice(ts, Percent(Ratio(before, current)), t)
         && AllWeighted(before, after, current, t.local as real, Some(t.remote as real))
         && local == Reported(SomeInCurrent(before, current), t.local as real)
         && remote == t.remote as real;
  }

  /** The same backends end with the same weights, whatever the order of distinct
      thresholds. */
  lemma {:induction false} WeightsAreDetermined(
    before: seq<PodInfo>, current: string, ts: seq<Threshold>, us: seq<Threshold>,
    after: seq<PodInfo>, local: real, remote: real, after': seq<PodInfo>, local': real, remote': real)
    requires multiset(ts) == multiset(us)
    requires forall v <- ts, w <- ts :: v.threshold == w.threshold ==> v == w
    requires Balances(before, current, Thresholds(ts)) && Balances(before, current, Thresholds(us))
    requires BalancedTo(before, after, current, Thresholds(ts), local, remote)
    requires BalancedTo(before, after', current, Thresholds(us), local', remote')
    ensures after == after' && local == local' && remote == remote'
  {
    var t := ChosenThreshold(before, after, current, ts, local, remote);
    var u := ChosenThreshold(before, after', current, us, local', remote');
    ChoiceIsUnique(ts, us, Percent(Ratio(before, current)), t, u);
  }

  // ---- Backends keep a weight of at least one ----

  /** The checks of the admission webhook. */
  predicate ValidThresholds(ts: seq<Threshold>) {
    forall t <- ts :: t.local >= 1 && t.remote >= 1 && 1 <= t.threshold <= 100
  }

  ghost predicate AtLeastOne(bs: seq<PodInfo>) {
    forall b <- bs :: b.weight >= 1.0
  }

  /** With accepted thresholds every backend, local, remote or unlabelled, ends with a
      weight of at least one. */
  lemma {:induction false} ThresholdWeights(before: seq<PodInfo>, after: seq<PodInfo>, current: string,
                                            ts: seq<Threshold>, local: real, remote: real)
    requires Balances(before, current, Thresholds(ts)) && ValidThresholds(ts)
    requires BalancedTo(before, after, current, Thresholds(ts), local, remote)
    ensures AtLeastOne(after) && local >= 1.0 && remote >= 1.0
  {
    var t := ChosenThreshold(before, after, current, ts, local, remote);
    forall b | b in after
      ensures b.weight >= 1.0
    {
      var i :| 0 <= i < |after| && after[i] == b;
      assert after[i] == Weighted(before[i], current, t.local as real, Some(t.remote as real));
    }
  }

  /** At most ten remote backends for every local one and remote zone. */
  predicate TenPerLocal(bs: seq<PodInfo>, current: string) {
    Remotes(bs, current) <= 10 * Locals(bs, current) * |RemoteZones(bs, current)|
  }

  /** Automatic weights are at least one exactly if no backend is in the current zone or
      the remote ones are at most ten per local one and remote zone. */
  lemma {:induction false} AutoWeightsIff(before: seq<PodInfo>, after: seq<PodInfo>, current: string,
                                          local: real, remote: real)
    requires Balances(before, current, Auto) && AtLeastOne(before)
    requires BalancedTo(before, after, current, Auto, local, remote)
    ensures AtLeastOne(after) <==> (SomeInCurrent(before, current) ==> TenPerLocal(before, current))
  {
    AutoShareIff(before, current);
    AtLeastOneIff(before, after, current, 10.0 * Ratio(before, current));
  }

  lemma {:induction false} AutoShareIff(bs: seq<PodInfo>, current: string)
    requires Multizone(bs, current)
    ensures 10.0 * Ratio(bs, current) >= 1.0 <==> TenPerLocal(bs, current)
  {
    RemotesPositive(bs, current);
    TenTimes(Locals(bs, current), |RemoteZones(bs, current)|, Remotes(bs, current));
  }

  lemma {:induction false} AtLeastOneIff(before: seq<PodInfo>, after: seq<PodInfo>, current: string, weight: real)
    requires AllWeighted(before, after, current, weight, None) && AtLeastOne(before)
    ensures AtLeastOne(after) <==> (SomeInCurrent(before, current) ==> weight >= 1.0)
  {
    forall i | 0 <= i < |before|
      ensures before[i].weight >= 1.0 && before[i] in before && after[i] in after
      ensures after[i].weight == if InCurrent(before[i], current) then weight else before[i].weight
    {
      assert after[i] == Weighted(before[i], current, weight, None);
      assert before[i] in before;
    }
    if b :| b in before && InCurrent(b, current) {
      var i :| 0 <= i < |before| && before[i] == b;
      assert after[i] in after;
    }
  }

  lemma TenTimes(l: nat, z: nat, m: nat)
    requires m > 0
    ensures 10.0 * Quotient(l, z, m) >= 1.0 <==> m <= 10 * l * z
  {
    Product(l, z);
    Tenfold((l * z) as real, m as real);
  }

  lemma Product(l: nat, z: nat)
    ensures l as real * z as real == (l * z) as real
    ensures 10 * l * z == 10 * (l * z)
  {
  }

  lemma Tenfold(p: real, m: real)
    requires m > 0.0
    ensures 10.0 * (p / m) >= 1.0 <==> m <= 10.0 * p
  {
    var q := p / m;
    assert q * m == p;
  }
}
