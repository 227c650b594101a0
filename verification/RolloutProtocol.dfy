/** The decision of the rolling update and the timer protocol together: the worker looks the
    timer up in the table, and its next step is what the decision says. */
module RolloutProtocol {
  import opened Rollout
  import opened Text
  import T = Triggerer

  /** The decision of the worker of cluster `n` in state `s`. */
  ghost predicate Answers(s: T.State, n: string, status: Status, pods: seq<Pod>, delay: int, a: Action) {
    Decides(status, pods, T.EntryOf(s, n).Some?, delay, s.now, a)
  }

  /** The worker's step after it looked is the one that the decision asks for. */
  ghost predicate Obeys(s: T.State, n: string, step: T.Step, status: Status, pods: seq<Pod>, delay: int) {
    match step
    case DeletePod(m, d) => m == n ==> d == delay * SECOND && exists i :: Answers(s, n, status, pods, delay, Delete(i))
    case DeleteLost(m, d) => m == n ==> d == delay * SECOND && exists i :: Answers(s, n, status, pods, delay, Delete(i))
    case Wait(m, w) => m == n ==> Answers(s, n, status, pods, delay, Trigger(w))
    case _ => true
  }

  /** In every run: as long as the table has a timer of the cluster the answer is to do
      nothing, the worker is not past its check, and no step deletes a pod of it. */
  lemma TimerStops(ss: seq<T.State>, steps: seq<T.Step>, k: nat, n: string,
                   status: Status, pods: seq<Pod>, delay: int, a: Action)
    requires T.Run(ss, steps) && k < |ss| && T.EntryOf(ss[k], n).Some?
    requires Answers(ss[k], n, status, pods, delay, a)
    ensures a == Nothing && T.PcOf(ss[k], n) == T.Idle
    ensures k < |steps| ==> !T.Deletes(steps[k], n)
  {
    T.InvAlways(ss, steps, k);
    assert T.Guarded(ss[k], n);
    if k < |steps| {
      assert T.Next(ss[k], steps[k], ss[k + 1]);
    }
  }

  /** A deletion of a run that obeys the decisions: no timer was in the table, every pod was
      ready, the pod is outdated, and every updated one has been up for the delay. */
  lemma DeletionIsAnswered(ss: seq<T.State>, steps: seq<T.Step>, k: nat, n: string,
                           status: Status, pods: seq<Pod>, delay: int)
    requires T.Run(ss, steps) && k < |steps| && T.Deletes(steps[k], n)
    requires Obeys(ss[k], n, steps[k], status, pods, delay)
    ensures T.EntryOf(ss[k], n) == None
    ensures exists i: nat ::
              && i < |pods| && pods[i].revision != status.updateRevision
              && DecisionMeans(status, pods, false, delay, ss[k].now, Delete(i))
  {
    T.InvAlways(ss, steps, k);
    assert T.Guarded(ss[k], n) && T.Next(ss[k], steps[k], ss[k + 1]);
    var i :| Answers(ss[k], n, status, pods, delay, Delete(i));
    DecidesMeans(status, pods, false, delay, ss[k].now, Delete(i));
  }

  /** A wait of such a run ends when the newest updated pod has been up for the delay. */
  lemma WaitIsAnswered(ss: seq<T.State>, steps: seq<T.Step>, k: nat, n: string, w: int,
                       status: Status, pods: seq<Pod>, delay: int)
    requires T.Run(ss, steps) && k < |steps| && steps[k] == T.Wait(n, w)
    requires Obeys(ss[k], n, steps[k], status, pods, delay)
    ensures T.EntryOf(ss[k], n) == None
    ensures exists p <- pods ::
              && p.revision == status.updateRevision && p.start.Some?
              && ss[k].now + w == p.start.value + delay * 1_000_000_000
              && forall q <- pods :: q.revision == status.updateRevision ==>
                   q.start.Some? && q.start.value <= p.start.value
  {
    T.InvAlways(ss, steps, k);
    assert T.Guarded(ss[k], n) && T.Next(ss[k], steps[k], ss[k + 1]);
    DecidesMeans(status, pods, T.EntryOf(ss[k], n).Some?, delay, ss[k].now, Trigger(w));
  }

  /** And what the decision asks of an idle worker, the protocol lets it do. */
  lemma AnswerCanBeTaken(s: T.State, n: string, status: Status, pods: seq<Pod>, delay: int, a: Action)
    returns (s1: T.State, s2: T.State)
    requires T.PcOf(s, n) == T.Idle && delay > 0
    requires Answers(s, n, status, pods, delay, a) && (a.Delete? || a.Trigger?)
    ensures T.EntryOf(s, n) == None && T.Next(s, T.Begin(n), s1)
    ensures a.Delete? ==> T.Next(s1, T.DeletePod(n, delay * SECOND), s2)
    ensures a.Trigger? ==> T.Next(s1, T.Wait(n, a.wait), s2)
  {
    s1 := T.SetPc(s, n, T.Looking);
    s2 := if a.Delete?
          then T.SetPc(s1, n, T.Arming(delay * SECOND)).(release := s1.release[n := s1.now + delay * SECOND])
          else T.SetPc(s1, n, T.Arming(if a.Trigger? then a.wait else 0));
  }
}
