/** The decision of the delayed rolling update: which pod to delete, or how long to wait.
    Times are nanoseconds, `Unix` cuts them to whole seconds. */
module Rollout {
  import opened Text

  const SECOND := 1_000_000_000

  function Unix(t: int): int {
    t / SECOND
  }

  /** `start` is missing until the kubelet has seen the pod. */
  datatype Pod = Pod(name: string, revision: string, start: Option<int>)

  datatype Status = Status(updated: int, replicas: int, ready: int, updateRevision: string)

  /** `Panic` is the nil dereference of a missing start time. */
  datatype Action = Nothing | Panic | Delete(index: nat) | Trigger(wait: int)

  predicate Updated(p: Pod, revision: string) {
    p.revision == revision
  }

  /** The last outdated pod of the list. */
  ghost predicate IsCandidate(pods: seq<Pod>, rev: string, c: int) {
    0 <= c < |pods| && !Updated(pods[c], rev) && forall j :: c < j < |pods| ==> Updated(pods[j], rev)
  }

  ghost predicate NoneOutdated(pods: seq<Pod>, rev: string) {
    forall p <- pods :: Updated(p, rev)
  }

  ghost predicate NoneUpdated(pods: seq<Pod>, rev: string) {
    forall p <- pods :: !Updated(p, rev)
  }

  /** An updated pod, all updated pods having started, none of them later. */
  ghost predicate IsNewest(pods: seq<Pod>, rev: string, i: int) {
    && 0 <= i < |pods| && Updated(pods[i], rev) && pods[i].start.Some?
    && forall j :: 0 <= j < |pods| && Updated(pods[j], rev) ==>
          pods[j].start.Some? && pods[j].start.value <= pods[i].start.value
  }

  /** Some updated pod has no start time yet. */
  ghost predicate SomeUnstarted(pods: seq<Pod>, rev: string) {
    exists p <- pods :: Updated(p, rev) && p.start.None?
  }

  ghost predicate TwoUpdated(pods: seq<Pod>, rev: string) {
    exists i, j :: 0 <= i < j < |pods| && Updated(pods[i], rev) && Updated(pods[j], rev)
  }

  /** A start time is looked at that is not there: by the scan if it compares two updated
      pods, or after it if there is a candidate. */
  ghost predicate Panics(pods: seq<Pod>, rev: string) {
    SomeUnstarted(pods, rev) && (!NoneOutdated(pods, rev) || TwoUpdated(pods, rev))
  }

  /** When the next pod may go, if `p` is the newest updated one. */
  function NextTime(p: Pod, delay: int): int
    requires p.start.Some?
  {
    p.start.value + delay * SECOND
  }

  /** The newest updated pod has been up for the delay, counted in whole seconds. */
  ghost predicate Due(pods: seq<Pod>, rev: string, delay: int, now: int) {
    exists n :: IsNewest(pods, rev, n) && Unix(now) >= Unix(NextTime(pods[n], delay))
  }

  predicate Quiet(status: Status, pods: seq<Pod>, timerExists: bool) {
    || status.updated == status.replicas
    || |pods| == 0
    || timerExists
    || status.ready < status.replicas
  }

  /** The decision in terms of the whole list, at time `now`. */
  ghost predicate Decides(status: Status, pods: seq<Pod>, timerExists: bool, delay: int, now: int, a: Action) {
    var rev := status.updateRevision;
    if Quiet(status, pods, timerExists) then a == Nothing
    else if Panics(pods, rev) then a == Panic
    else match a
      case Nothing => NoneOutdated(pods, rev)
      case Panic => false
      case Delete(i) =>
        || (NoneUpdated(pods, rev) && i == 0)
        || (IsCandidate(pods, rev, i) && Due(pods, rev, delay, now))
      case Trigger(wait) =>
        && !NoneOutdated(pods, rev)
        && exists n :: IsNewest(pods, rev, n) && wait == NextTime(pods[n], delay) - now
              && Unix(now) < Unix(NextTime(pods[n], delay))
  }

  /** An updated pod without a start time is looked at: beside an outdated pod, or beside
      another updated one. */
  ghost predicate Crashes(status: Status, pods: seq<Pod>, timerExists: bool) {
    && !timerExists && status.ready >= status.replicas && status.updated != status.replicas
    && (exists p <- pods :: p.revision == status.updateRevision && p.start == None)
    && (|| (exists p <- pods :: p.revision != status.updateRevision)
        || exists i, j :: 0 <= i < j < |pods| && pods[i].revision == pods[j].revision == status.updateRevision)
  }

  /** The decision, case by case and in plain terms of status, pods and time. */
  ghost predicate DecisionMeans(status: Status, pods: seq<Pod>, timerExists: bool, delay: int, now: int, a: Action) {
    match a
    case Nothing =>
      || timerExists || status.ready < status.replicas || status.updated == status.replicas || pods == []
      || forall p <- pods :: p.revision == status.updateRevision
    case Panic => Crashes(status, pods, timerExists)
    case Delete(i) =>
      && !timerExists && status.ready >= status.replicas && status.updated != status.replicas
      && i < |pods| && pods[i].revision != status.updateRevision
      && (if forall p <- pods :: p.revision != status.updateRevision then i == 0
          else forall j :: i < j < |pods| ==> pods[j].revision == status.updateRevision)
      && forall p <- pods :: p.revision == status.updateRevision ==>
           p.start.Some? && (p.start.value + delay * 1_000_000_000) / 1_000_000_000 <= now / 1_000_000_000
    case Trigger(wait) =>
      && !timerExists && status.ready >= status.replicas && status.updated != status.replicas
      && (exists p <- pods :: p.revision != status.updateRevision)
      && exists p <- pods ::
           && p.revision == status.updateRevision && p.start.Some?
           && wait == p.start.value + delay * 1_000_000_000 - now
           && now / 1_000_000_000 < (p.start.value + delay * 1_000_000_000) / 1_000_000_000
           && forall q <- pods :: q.revision == status.updateRevision ==>
                q.start.Some? && q.start.value <= p.start.value
  }

  lemma DeleteMeans(status: Status, pods: seq<Pod>, timerExists: bool, delay: int, now: int, i: nat)
    requires Decides(status, pods, timerExists, delay, now, Delete(i))
    ensures DecisionMeans(status, pods, timerExists, delay, now, Delete(i))
  {
    var rev := status.updateRevision;
    if NoneUpdated(pods, rev) {
      assert pods[0] in pods;
    } else {
      var n :| IsNewest(pods, rev, n) && Unix(now) >= Unix(NextTime(pods[n], delay));
      forall p | p in pods && p.revision == rev
        ensures p.start.Some? && Unix(p.start.value + delay * SECOND) <= Unix(now)
      {
        var u :| 0 <= u < |pods| && pods[u] == p;
        assert Updated(pods[u], rev);
      }
    }
  }

  lemma TriggerMeans(status: Status, pods: seq<Pod>, timerExists: bool, delay: int, now: int, wait: int)
    requires Decides(status, pods, timerExists, delay, now, Trigger(wait))
    ensures DecisionMeans(status, pods, timerExists, delay, now, Trigger(wait))
  {
    var rev := status.updateRevision;
    var n :|
      && IsNewest(pods, rev, n) && wait == NextTime(pods[n], delay) - now
      && Unix(now) < Unix(NextTime(pods[n], delay));
    var p := pods[n];
    assert p in pods;
    forall q | q in pods && q.revision == rev
      ensures q.start.Some? && q.start.value <= p.start.value
    {
      var u :| 0 <= u < |pods| && pods[u] == q;
      assert Updated(pods[u], rev);
    }
  }

  lemma CrashesPanics(status: Status, pods: seq<Pod>, timerExists: bool)
    ensures Crashes(status, pods, timerExists) <==>
            !Quiet(status, pods, timerExists) && Panics(pods, status.updateRevision)
  {
    var rev := status.updateRevision;
    if i, j :| 0 <= i < j < |pods| && Updated(pods[i], rev) && Updated(pods[j], rev) {
      assert pods[i].revision == pods[j].revision == rev;
    }
    if i, j :| 0 <= i < j < |pods| && pods[i].revision == pods[j].revision == rev {
      assert Updated(pods[i], rev) && Updated(pods[j], rev);
    }
  }

  lemma DecidesMeans(status: Status, pods: seq<Pod>, timerExists: bool, delay: int, now: int, a: Action)
    requires Decides(status, pods, timerExists, delay, now, a)
    ensures DecisionMeans(status, pods, timerExists, delay, now, a)
    ensures Crashes(status, pods, timerExists) ==> a == Panic
  {
    CrashesPanics(status, pods, timerExists);
    match a
    case Delete(i) => DeleteMeans(status, pods, timerExists, delay, now, i);
    case Trigger(wait) => TriggerMeans(status, pods, timerExists, delay, now, wait);
    case Nothing =>
    case Panic =>
  }

  /** A pod of the new revision that no kubelet has seen yet, beside an outdated one, with a
      status from before: the reconcile crashes. */
  lemma UnstartedPodPanics(status: Status, young: Pod, outdated: Pod, delay: int, now: int, a: Action)
    requires status.updated != status.replicas && status.ready >= status.replicas
    requires Updated(young, status.updateRevision) && young.start.None? && !Updated(outdated, status.updateRevision)
    requires Decides(status, [young, outdated], false, delay, now, a)
    ensures a == Panic
  {
    assert young in [young, outdated] && outdated in [young, outdated];
  }

  /** The scan and the decision; the delay is in seconds. */
  method ReconcileDelayedRollingUpdate(status: Status, pods: seq<Pod>, timerExists: bool, delay: int, now: int)
    returns (a: Action)
    ensures Decides(status, pods, timerExists, delay, now, a)
    ensures DecisionMeans(status, pods, timerExists, delay, now, a)
    ensures timerExists ==> a == Nothing
    ensures status.ready < status.replicas ==> a == Nothing
    ensures status.updated == status.replicas ==> a == Nothing
    ensures Crashes(status, pods, timerExists) ==> a == Panic
  {
    a := Scan(status, pods, timerExists, delay, now);
    DecidesMeans(status, pods, timerExists, delay, now, a);
  }

  /** The checks, the scan over the pods and the comparison with the time. */
  method Scan(status: Status, pods: seq<Pod>, timerExists: bool, delay: int, now: int) returns (a: Action)
    ensures Decides(status, pods, timerExists, delay, now, a)
  {
    if status.updated == status.replicas {
      return Nothing;
    }
    if |pods| == 0 {
      return Nothing;
    }
    if timerExists {
      return Nothing;
    }
    if status.ready < status.replicas {
      return Nothing;
    }
    var rev := status.updateRevision;
    var newest, candidate := -1, -1;
    for i := 0 to |pods|
      invariant candidate == -1 ==> forall j :: 0 <= j < i ==> Updated(pods[j], rev)
      invariant candidate != -1 ==> IsCandidate(pods[..i], rev, candidate)
      invariant newest == -1 ==> forall j :: 0 <= j < i ==> !Updated(pods[j], rev)
      invariant newest != -1 ==> 0 <= newest < i && Updated(pods[newest], rev)
      invariant newest != -1 ==>
          || (forall j :: 0 <= j < i && Updated(pods[j], rev) ==> j == newest)
          || IsNewest(pods[..i], rev, newest)
    {
      assert pods[..i + 1] == pods[..i] + [pods[i]];
      if !Updated(pods[i], rev) {
        candidate := i;
      } else if newest == -1 {
        newest := i;
      } else {
        if pods[newest].start.None? || pods[i].start.None? {
          assert Updated(pods[newest], rev) && pods[newest] in pods && pods[i] in pods;
          return Panic;
        }
        if pods[newest].start.value < pods[i].start.value {
          newest := i;
        }
      }
    }
    assert pods[..|pods|] == pods;
    if candidate == -1 {
      return Nothing;
    }
    if newest == -1 {
      return Delete(0);
    }
    if pods[newest].start.None? {
      assert pods[newest] in pods;
      return Panic;
    }
    assert IsNewest(pods, rev, newest);
    var nextUpdateTime := NextTime(pods[newest], delay);
    if Unix(now) - Unix(nextUpdateTime) >= 0 {
      return Delete(candidate);
    }
    return Trigger(nextUpdateTime - now);
  }

  // ---- The rollout as a whole ----

  function Outdated(pods: seq<Pod>, rev: string): nat {
    if pods == [] then 0
    else Outdated(pods[..|pods| - 1], rev) + if Updated(pods[|pods| - 1], rev) then 0 else 1
  }

  function Without(pods: seq<Pod>, i: nat): seq<Pod>
    requires i < |pods|
  {
    pods[..i] + pods[i + 1..]
  }

  lemma {:induction false} OutdatedConcat(a: seq<Pod>, b: seq<Pod>, rev: string)
    ensures Outdated(a + b, rev) == Outdated(a, rev) + Outdated(b, rev)
  {
    if b == [] {
      assert a + b == a;
    } else {
      var init := b[..|b| - 1];
      OutdatedConcat(a, init, rev);
      assert (a + b)[..|a + b| - 1] == a + init;
    }
  }

  lemma OutdatedInsert(a: seq<Pod>, p: Pod, b: seq<Pod>, rev: string)
    ensures Outdated(a + [p] + b, rev) == Outdated(a + b, rev) + if Updated(p, rev) then 0 else 1
  {
    OutdatedConcat(a, [p], rev);
    OutdatedConcat(a + [p], b, rev);
    OutdatedConcat(a, b, rev);
    assert Outdated([], rev) == 0 && [p][..0] == [];
  }

  lemma WithoutOutdated(pods: seq<Pod>, i: nat, rev: string)
    requires i < |pods| && !Updated(pods[i], rev)
    ensures Outdated(Without(pods, i), rev) == Outdated(pods, rev) - 1
  {
    assert pods == pods[..i] + [pods[i]] + pods[i + 1..];
    OutdatedInsert(pods[..i], pods[i], pods[i + 1..], rev);
  }

  /** Only an outdated pod is ever deleted, also by the branch that takes the first of
      the list; the number of outdated pods falls by one. */
  lemma DeletesOutdated(status: Status, pods: seq<Pod>, timerExists: bool, delay: int, now: int, i: nat)
    requires Decides(status, pods, timerExists, delay, now, Delete(i))
    ensures i < |pods| && !Updated(pods[i], status.updateRevision)
    ensures Outdated(Without(pods, i), status.updateRevision) == Outdated(pods, status.updateRevision) - 1
  {
    WithoutOutdated(pods, i, status.updateRevision);
  }

  /** The rollout is paced, not blocked: with an outdated pod, every pod ready, no timer,
      all updated pods started and the delay over for each of them, a pod is deleted. */
  lemma DeletesWhenDue(status: Status, pods: seq<Pod>, delay: int, now: int, a: Action)
    requires Decides(status, pods, false, delay, now, a)
    requires status.updated != status.replicas && status.ready >= status.replicas
    requires !NoneOutdated(pods, status.updateRevision) && !SomeUnstarted(pods, status.updateRevision)
    requires forall p <- pods :: Updated(p, status.updateRevision) && p.start.Some? ==>
          Unix(now) >= Unix(NextTime(p, delay))
    ensures a.Delete?
  {
  }

  /** Warm-up: when a pod is deleted while updated ones exist, every updated pod, not
      only the newest, started more than the delay less one second ago. */
  lemma WarmUp(status: Status, pods: seq<Pod>, timerExists: bool, delay: int, now: int, i: nat, u: nat)
    requires Decides(status, pods, timerExists, delay, now, Delete(i))
    requires u < |pods| && Updated(pods[u], status.updateRevision)
    ensures pods[u].start.Some? && now - pods[u].start.value > (delay - 1) * SECOND
  {
    var rev := status.updateRevision;
    assert pods[u] in pods && !NoneUpdated(pods, rev);
    var n :| IsNewest(pods, rev, n) && Unix(now) >= Unix(NextTime(pods[n], delay));
    UnixGap(now, NextTime(pods[n], delay));
  }

  lemma UnixGap(a: int, b: int)
    requires Unix(a) >= Unix(b)
    ensures a - b > -SECOND
  {
  }

  /** What happens to the pods of one StatefulSet while its update revision stands: the
      operator deletes one, or the StatefulSet adds one at that revision. */
  datatype Event =
    | Deleted(status: Status, timerExists: bool, delay: int, now: int, index: nat)
    | Recreated(pod: Pod, at: nat)

  ghost predicate Next(pods: seq<Pod>, rev: string, e: Event, pods': seq<Pod>) {
    match e
    case Deleted(status, timerExists, delay, now, i) =>
      && status.updateRevision == rev && i < |pods|
      && Decides(status, pods, timerExists, delay, now, Delete(i))
      && pods' == Without(pods, i)
    case Recreated(pod, at) =>
      at <= |pods| && Updated(pod, rev) && pods' == pods[..at] + [pod] + pods[at..]
  }

  ghost predicate Run(lists: seq<seq<Pod>>, rev: string, es: seq<Event>) {
    |lists| == |es| + 1 && forall k :: 0 <= k < |es| ==> Next(lists[k], rev, es[k], lists[k + 1])
  }

  function Deletions(es: seq<Event>): nat {
    if es == [] then 0 else Deletions(es[..|es| - 1]) + if es[|es| - 1].Deleted? then 1 else 0
  }

  /** Conservation over any rollout: deletions made plus pods still outdated is the number
      outdated at the start, so at most that many deletions are ever made. */
  lemma {:induction false} RolloutMeasure(lists: seq<seq<Pod>>, rev: string, es: seq<Event>)
    requires Run(lists, rev, es)
    ensures Deletions(es) + Outdated(lists[|es|], rev) == Outdated(lists[0], rev)
  {
    if es != [] {
      var n := |es| - 1;
      RolloutMeasure(lists[..n + 1], rev, es[..n]);
      assert lists[..n + 1][n] == lists[n];
      var pods, e := lists[n], es[n];
      assert Next(pods, rev, e, lists[n + 1]);
      match e
      case Deleted(status, timerExists, delay, now, i) => DeletesOutdated(status, pods, timerExists, delay, now, i);
      case Recreated(pod, at) =>
        OutdatedInsert(pods[..at], pod, pods[at..], rev);
        assert pods == pods[..at] + pods[at..];
    }
  }

  /** Once nothing is outdated no pod is deleted any more. */
  lemma RolloutEnds(lists: seq<seq<Pod>>, rev: string, es: seq<Event>, k: nat)
    requires Run(lists, rev, es) && k < |es|
    requires Outdated(lists[k], rev) == 0
    ensures es[k].Recreated?
  {
    assert Next(lists[k], rev, es[k], lists[k + 1]);
    if es[k].Deleted? {
      DeletesOutdated(es[k].status, lists[k], es[k].timerExists, es[k].delay, es[k].now, es[k].index);
      assert false;
    }
  }
}
