/** The timer protocol and the readiness gate together: at most one pod of a cluster that
    the operator deleted is down at a time, if a pod on its way out is not counted ready. */
module OneDown {
  import opened Rollout
  import opened Text
  import P = RolloutProtocol
  import T = Triggerer

  /** A replica of the StatefulSet: which pod fills it, whether that pod has the ready
      condition, and whether it was deleted and is still to be replaced. A deleted pod may
      stay ready until it ends. */
  datatype Slot = Slot(incarnation: nat, ready: bool, doomed: bool)

  /** What a deleting reconcile acted on: the status, as it was `asOf` an earlier state,
      the pods, the index it chose, and the replica it hit. */
  datatype Read = Read(asOf: nat, status: Status, pods: seq<Pod>, index: nat, slot: nat)

  predicate SlotNext(a: Slot, b: Slot) {
    && a.incarnation <= b.incarnation
    && (a.incarnation == b.incarnation && a.doomed ==> b.doomed)
  }

  ghost predicate SlotHistory(slots: seq<seq<Slot>>, x: nat)
    requires forall i :: 0 <= i < |slots| ==> x < |slots[i]|
  {
    forall i :: 0 <= i < |slots| - 1 ==> SlotNext(slots[i][x], slots[i + 1][x])
  }

  function ReadyCount(slots: seq<Slot>): nat {
    if slots == [] then 0 else ReadyCount(slots[1..]) + if slots[0].ready then 1 else 0
  }

  lemma {:induction false} AllReady(slots: seq<Slot>)
    ensures ReadyCount(slots) <= |slots|
    ensures ReadyCount(slots) == |slots| ==> forall x :: 0 <= x < |slots| ==> slots[x].ready
  {
    if slots != [] {
      AllReady(slots[1..]);
      assert forall x :: 1 <= x < |slots| ==> slots[x] == slots[1..][x - 1];
    }
  }

  /** The ready count has no pod in it that is on its way out. */
  predicate CountsNoTerminating(slots: seq<Slot>) {
    forall s <- slots :: s.doomed ==> !s.ready
  }

  /** Pods of a StatefulSet are numbered by their replica. */
  function PodName(name: string, x: nat): string {
    name + "-" + Decimal(x)
  }

  /** A run of the timer protocol beside the replicas of cluster `name`. The status that a
      deletion is based on was true once, counts the wanted replicas, and is not as old
      as the delay of any deletion before. */
  ghost predicate History(ss: seq<T.State>, steps: seq<T.Step>, name: string, wanted: nat,
                          slots: seq<seq<Slot>>, evidence: seq<Read>) {
    && T.Run(ss, steps)
    && |slots| == |ss| && |evidence| == |steps|
    && (forall k :: 0 <= k < |slots| ==> |slots[k]| == wanted)
    && (forall x :: 0 <= x < wanted ==> SlotHistory(slots, x))
    && (forall k :: 0 <= k < |steps| && T.Deletes(steps[k], name) ==>
          DeletionStep(ss, steps, name, wanted, slots, evidence[k], k))
    && (forall j, k :: 0 <= j < k < |steps| && T.Deletes(steps[j], name) && T.Deletes(steps[k], name) ==>
          ss[k].now - ss[evidence[k].asOf].now < steps[j].delay)
  }

  /** The replica that is hit keeps its pod, which is to go. */
  ghost predicate DeletionStep(ss: seq<T.State>, steps: seq<T.Step>, name: string, wanted: nat,
                               slots: seq<seq<Slot>>, r: Read, k: nat)
    requires k < |steps| && T.Deletes(steps[k], name) && |ss| == |slots| == |steps| + 1
    requires forall i :: 0 <= i < |slots| ==> |slots[i]| == wanted
  {
    && r.asOf <= k
    && r.status.replicas == wanted && r.status.ready == ReadyCount(slots[r.asOf])
    && (exists delay ::
          steps[k].delay == delay * SECOND && P.Answers(ss[k], name, r.status, r.pods, delay, Delete(r.index)))
    && r.index < |r.pods| && r.slot < wanted && r.pods[r.index].name == PodName(name, r.slot)
    && slots[k + 1][r.slot] == slots[k][r.slot].(doomed := true)
  }

  lemma {:induction false} TimePasses(ss: seq<T.State>, steps: seq<T.Step>, j: nat, k: nat)
    requires T.Run(ss, steps) && j <= k < |ss|
    ensures ss[j].now <= ss[k].now
    decreases k
  {
    if j < k {
      TimePasses(ss, steps, j, k - 1);
      assert T.Next(ss[k - 1], steps[k - 1], ss[k]);
    }
  }

  /** A deleted pod is doomed until another pod fills its place. */
  lemma {:induction false} DoomedUntilReplaced(slots: seq<seq<Slot>>, x: nat, j: nat, k: nat)
    requires j < k < |slots|
    requires forall i :: 0 <= i < |slots| ==> x < |slots[i]|
    requires SlotHistory(slots, x)
    requires slots[j + 1][x] == slots[j][x].(doomed := true)
    ensures slots[k][x].incarnation > slots[j][x].incarnation
         || (slots[k][x].incarnation == slots[j][x].incarnation && slots[k][x].doomed)
    decreases k
  {
    if j + 1 < k {
      DoomedUntilReplaced(slots, x, j, k - 1);
      assert SlotNext(slots[k - 1][x], slots[k][x]);
    }
  }

  /** A deletion `j` before `k` whose reply arrived. */
  predicate Earlier(steps: seq<T.Step>, name: string, j: nat, k: nat) {
    j < k < |steps| && steps[j].DeletePod? && steps[j].name == name
  }

  /** The pod that deletion `j` hit has been replaced by the time of `seen`. */
  predicate Replaced(slots: seq<seq<Slot>>, evidence: seq<Read>, j: nat, seen: nat)
    requires j < |evidence| && j < |slots| && seen < |slots|
    requires evidence[j].slot < |slots[j]| && evidence[j].slot < |slots[seen]|
  {
    slots[seen][evidence[j].slot].incarnation > slots[j][evidence[j].slot].incarnation
  }

  /** That very pod is still there, on its way out. */
  predicate Lingers(slots: seq<seq<Slot>>, evidence: seq<Read>, j: nat, seen: nat)
    requires j < |evidence| && j < |slots| && seen < |slots|
    requires evidence[j].slot < |slots[j]| && evidence[j].slot < |slots[seen]|
  {
    var a, b := slots[j][evidence[j].slot], slots[seen][evidence[j].slot];
    b.doomed && b.incarnation == a.incarnation
  }

  /** At a deletion the status that it acted on was read after every deletion before, and had
      every replica ready; the pod of an earlier deletion has been replaced exactly unless
      that very pod still lingers and was counted as ready. */
  lemma ReplacedIff(ss: seq<T.State>, steps: seq<T.Step>, name: string, wanted: nat,
                    slots: seq<seq<Slot>>, evidence: seq<Read>, j: nat, k: nat)
    requires History(ss, steps, name, wanted, slots, evidence)
    requires Earlier(steps, name, j, k) && T.Deletes(steps[k], name)
    ensures j < evidence[k].asOf <= k && evidence[j].slot < wanted
    ensures slots[evidence[k].asOf][evidence[j].slot].ready
    ensures Replaced(slots, evidence, j, evidence[k].asOf) <==> !Lingers(slots, evidence, j, evidence[k].asOf)
  {
    var seen, x := evidence[k].asOf, evidence[j].slot;
    assert DeletionStep(ss, steps, name, wanted, slots, evidence[j], j);
    assert DeletionStep(ss, steps, name, wanted, slots, evidence[k], k);
    T.DelaySpacing(ss, steps, j, k);
    if seen <= j {
      TimePasses(ss, steps, seen, j);
      assert false;
    }
    DoomedUntilReplaced(slots, x, j, seen);
    AllReady(slots[seen]);
  }

  /** One pod down at a time: at a deletion every pod deleted before, the reply having
      arrived, has been replaced, exactly unless the ready count had such a pod in it that
      was on its way out. */
  lemma OnePodDownIff(ss: seq<T.State>, steps: seq<T.Step>, name: string, wanted: nat,
                      slots: seq<seq<Slot>>, evidence: seq<Read>, k: nat)
    requires History(ss, steps, name, wanted, slots, evidence)
    requires k < |steps| && T.Deletes(steps[k], name)
    ensures evidence[k].asOf <= k
    ensures forall j: nat :: Earlier(steps, name, j, k) ==> j < evidence[k].asOf && evidence[j].slot < wanted
    ensures (forall j: nat :: Earlier(steps, name, j, k) ==> Replaced(slots, evidence, j, evidence[k].asOf))
       <==> (forall j: nat :: Earlier(steps, name, j, k) ==> !Lingers(slots, evidence, j, evidence[k].asOf))
  {
    assert DeletionStep(ss, steps, name, wanted, slots, evidence[k], k);
    forall j: nat | Earlier(steps, name, j, k)
      ensures j < evidence[k].asOf && evidence[j].slot < wanted
      ensures Replaced(slots, evidence, j, evidence[k].asOf) <==> !Lingers(slots, evidence, j, evidence[k].asOf)
    {
      ReplacedIff(ss, steps, name, wanted, slots, evidence, j, k);
    }
  }

  /** At a deletion, a status that counts no pod on its way out is one by which every replica
      is ready and stays. */
  lemma CountsNoTerminatingIff(ss: seq<T.State>, steps: seq<T.Step>, name: string, wanted: nat,
                               slots: seq<seq<Slot>>, evidence: seq<Read>, k: nat)
    requires History(ss, steps, name, wanted, slots, evidence)
    requires k < |steps| && T.Deletes(steps[k], name)
    ensures var seen := evidence[k].asOf;
            && seen <= k
            && (CountsNoTerminating(slots[seen])
                <==> forall x :: 0 <= x < wanted ==> slots[seen][x].ready && !slots[seen][x].doomed)
  {
    assert DeletionStep(ss, steps, name, wanted, slots, evidence[k], k);
    AllReady(slots[evidence[k].asOf]);
    assert forall x :: 0 <= x < wanted ==> slots[evidence[k].asOf][x] in slots[evidence[k].asOf];
  }

  /** So with such a status every pod deleted before has been replaced, and its replacement
      was seen ready after that deletion. */
  lemma OnePodDown(ss: seq<T.State>, steps: seq<T.Step>, name: string, wanted: nat,
                   slots: seq<seq<Slot>>, evidence: seq<Read>, j: nat, k: nat)
    requires History(ss, steps, name, wanted, slots, evidence)
    requires Earlier(steps, name, j, k) && T.Deletes(steps[k], name)
    requires evidence[k].asOf < |slots| ==> CountsNoTerminating(slots[evidence[k].asOf])
    ensures var seen, x := evidence[k].asOf, evidence[j].slot;
            && j < seen <= k && x < wanted
            && slots[seen][x].ready && !slots[seen][x].doomed
            && slots[seen][x].incarnation > slots[j][x].incarnation
  {
    ReplacedIff(ss, steps, name, wanted, slots, evidence, j, k);
    CountsNoTerminatingIff(ss, steps, name, wanted, slots, evidence, k);
  }

  // ---- Without that premise ----

  /** A deletion, its wait, and another deletion when the timer is through. */
  lemma DeleteWaitDelete(name: string, delay: int) returns (ss: seq<T.State>, steps: seq<T.Step>)
    requires delay > 0
    ensures T.Run(ss, steps) && |steps| == 9
    ensures steps[1] == steps[8] == T.DeletePod(name, delay)
    ensures forall k :: 0 <= k < 9 && k != 1 && k != 8 ==> !T.Deletes(steps[k], name)
  {
    ss, steps := DeleteAndArm(name, delay);
    var s4 := ss[4];
    var s5 := s4.(now := delay);
    var s6 := T.SetPhase(s5, 0, T.Fired);
    var s7 := T.SetPhase(s6, 0, T.Clearing).(table := T.Cleared(s6.table, name));
    var s8 := T.SetPc(s7, name, T.Looking);
    var s9 := T.SetPc(s8, name, T.Arming(delay)).(release := s8.release[name := s8.now + delay]);
    T.Extend(ss, steps, T.Tick(delay), s5);
    ss, steps := ss + [s5], steps + [T.Tick(delay)];
    T.Extend(ss, steps, T.Fire(0), s6);
    ss, steps := ss + [s6], steps + [T.Fire(0)];
    T.Extend(ss, steps, T.Clear(0), s7);
    ss, steps := ss + [s7], steps + [T.Clear(0)];
    T.Extend(ss, steps, T.Begin(name), s8);
    ss, steps := ss + [s8], steps + [T.Begin(name)];
    T.Extend(ss, steps, T.DeletePod(name, delay), s9);
    ss, steps := ss + [s9], steps + [T.DeletePod(name, delay)];
  }

  lemma DeleteAndArm(name: string, delay: int) returns (ss: seq<T.State>, steps: seq<T.Step>)
    requires delay > 0
    ensures T.Run(ss, steps) && |ss| == 5
    ensures steps == [T.Begin(name), T.DeletePod(name, delay), T.Create(name), T.Place(name)]
    ensures var s := ss[4];
            s.now == 0 && s.timers == [T.Timer(name, delay, T.Armed)] && T.PcOf(s, name) == T.Idle
  {
    var s1 := T.SetPc(T.INIT, name, T.Looking);
    var s2 := T.SetPc(s1, name, T.Arming(delay)).(release := map[name := delay]);
    var s3 := T.SetPc(s2, name, T.Placing(0)).(timers := [T.NewTimer(name, 0, delay)]);
    var s4 := T.SetPc(s3, name, T.Idle).(table := T.Inserted(s3.table, name, T.KEY, 0));
    ss, steps := [T.INIT, s1, s2, s3, s4], [T.Begin(name), T.DeletePod(name, delay), T.Create(name), T.Place(name)];
    assert T.Next(T.INIT, steps[0], s1) && T.Next(s1, steps[1], s2);
    assert T.Next(s2, steps[2], s3) && T.Next(s3, steps[3], s4);
  }

  const UP := Slot(0, true, false)
  const GOING := Slot(0, true, true)

  /** Two replicas, of which the first and then the second is deleted, at steps 1 and 8;
      neither ends. */
  function TwoGoing(): seq<seq<Slot>> {
    seq(10, k => if k < 2 then [UP, UP] else if k < 9 then [GOING, UP] else [GOING, GOING])
  }

  lemma BothReady(a: Slot, b: Slot)
    requires a.ready && b.ready
    ensures ReadyCount([a, b]) == 2
  {
    assert [a, b][1..] == [b] && [b][1..] == [];
    assert ReadyCount([b]) == 1;
  }

  lemma TwoGoingIsHistory()
    ensures forall x :: 0 <= x < 2 ==> SlotHistory(TwoGoing(), x)
    ensures forall k :: 0 <= k < 10 ==> ReadyCount(TwoGoing()[k]) == 2
  {
    forall k | 0 <= k < 10
      ensures ReadyCount(TwoGoing()[k]) == 2
    {
      var s := TwoGoing()[k];
      BothReady(s[0], s[1]);
      assert s == [s[0], s[1]];
    }
  }

  /** What both deletions acted on: an up-to-date status and two outdated pods, the API
      having listed the hit one first. */
  function FirstOf(name: string, asOf: nat, x: nat, rev: string, outdated: string): Read
    requires x < 2
  {
    Read(asOf, Status(0, 2, 2, rev),
         [Pod(PodName(name, x), outdated, None), Pod(PodName(name, 1 - x), outdated, None)], 0, x)
  }

  function Evidence(name: string, rev: string, outdated: string): (r: seq<Read>)
    ensures |r| == 9
    ensures forall k :: 0 <= k < 9 ==> r[k] == FirstOf(name, k, if k == 8 then 1 else 0, rev, outdated)
  {
    seq(9, (k: nat) => FirstOf(name, k, if k == 8 then 1 else 0, rev, outdated))
  }

  lemma FirstOfIsDeleted(name: string, asOf: nat, x: nat, rev: string, outdated: string, delay: int, now: int)
    requires x < 2 && rev != outdated
    ensures var r := FirstOf(name, asOf, x, rev, outdated); Decides(r.status, r.pods, false, delay, now, Delete(0))
  {
    var r := FirstOf(name, asOf, x, rev, outdated);
    assert r.pods[0] in r.pods;
  }

  /** The premise is needed: pods that keep the ready condition longer than the delay while
      they end are counted, and with an up-to-date status a second pod is deleted while the
      first has not been replaced. */
  lemma TwoPodsDown(name: string, delay: int, rev: string, outdated: string)
    returns (ss: seq<T.State>, steps: seq<T.Step>, slots: seq<seq<Slot>>, evidence: seq<Read>)
    requires delay > 0 && rev != outdated
    ensures History(ss, steps, name, 2, slots, evidence) && |steps| == 9
    ensures steps[1] == steps[8] == T.DeletePod(name, delay * SECOND)
    ensures evidence[1].asOf == 1 && evidence[8].asOf == 8
    ensures slots[1] == [UP, UP] && slots[9] == [GOING, GOING]
  {
    ss, steps := DeleteWaitDelete(name, delay * SECOND);
    slots := TwoGoing();
    TwoGoingIsHistory();
    evidence := Evidence(name, rev, outdated);
    assert evidence[1].asOf == 1 && evidence[8].asOf == 8;
    assert ss[8].now - ss[evidence[8].asOf].now == 0;
    forall k | 0 <= k < 9 && T.Deletes(steps[k], name)
      ensures DeletionStep(ss, steps, name, 2, slots, evidence[k], k)
    {
      T.InvAlways(ss, steps, k);
      assert T.Guarded(ss[k], name) && T.Next(ss[k], steps[k], ss[k + 1]);
      FirstOfIsDeleted(name, k, if k == 8 then 1 else 0, rev, outdated, delay, ss[k].now);
      assert T.EntryOf(ss[k], name) == None;
      assert P.Answers(ss[k], name, evidence[k].status, evidence[k].pods, delay, Delete(evidence[k].index));
    }
  }
}
