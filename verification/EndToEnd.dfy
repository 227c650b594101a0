/** The wake-up protocol and the VCL pipeline together: when everything has come to rest,
    Varnish runs the rendering of the present ConfigMap, cluster object and pods. */
module EndToEnd {
  import opened Text
  import opened FileSync
  import opened Rendering
  import opened Pipeline
  import opened PipelineRuns
  import V = Varnishd
  import W = WakeUp

  /** How the rendering depends on what the pod controller reads from the cluster. */
  datatype Rendition = Rendition(data: W.Inputs -> Files, exec: W.Inputs -> Executor, entry: W.Inputs -> string)

  ghost function Wanted(t: Rendition, w: W.Inputs): Option<Files> {
    Rendered(t.data(w), t.exec(w), t.entry(w))
  }

  ghost predicate Reads(t: Rendition, w: W.Inputs, i: Inputs) {
    i.cm.data == t.data(w) && i.exec == t.exec(w) && i.entry == t.entry(w)
  }

  /** `unnoticed`: Varnish restarted, and the API server does not show it yet in the readiness
      of its pod. */
  datatype State = State(world: W.State, local: Local, unnoticed: bool)

  /** A step of the cluster; the last step of a reconcile, with what it does in the pod; a
      restart of Varnish; the change of readiness by which it is noticed. */
  datatype Step =
    | Cluster(step: W.Step)
    | Completed(e: Event)
    | Failed(e: Event)
    | Restarts
    | Noticed(id: string, p: W.Pod)

  function WorldStep(step: Step): Option<W.Step> {
    match step
    case Cluster(w) => Some(w)
    case Completed(_) => Some(W.PWrite)
    case Failed(_) => Some(W.PFail)
    case Restarts => None
    case Noticed(id, p) => Some(W.UpdatePod(id, p))
  }

  ghost predicate WorldNext(c: W.Config, s: State, step: Step, s': State) {
    match WorldStep(step)
    case Some(w) => W.Next(c, s.world, w, s'.world)
    case None => s'.world == s.world
  }

  /** The reconcile ends with `e` on what has been read. */
  ghost predicate Ends(t: Rendition, s: State, e: Event, s': State)
    requires V.OneActive(s.local.table)
  {
    && s.world.pod.PHasNodes? && !e.Restarted? && Clean(e)
    && Reads(t, s.world.pod.inputs, e.i)
    && PipelineRuns.Next(s.local, e, s'.local) && V.OneActive(s'.local.table)
    && s'.unnoticed == (s.unnoticed || e.RestartedIn?)
  }

  /** A Varnish pod has the labels of the component and is in the namespace of the cluster. */
  predicate IsVarnishPod(c: W.Config, p: W.Pod) {
    p.namespace == c.namespace && W.Matches(c.component, p.labels)
  }

  ghost predicate Next(c: W.Config, t: Rendition, s: State, step: Step, s': State)
    requires V.OneActive(s.local.table)
  {
    && WorldNext(c, s, step, s')
    && match step
       case Cluster(w) => w != W.PWrite && s'.local == s.local && s'.unnoticed == s.unnoticed
       case Completed(e) => Ends(t, s, e, s') && Completes(e)
       case Failed(e) => Ends(t, s, e, s') && !Completes(e)
       case Restarts => s'.local == s.local.(table := V.BOOT_TABLE) && s'.unnoticed
       case Noticed(id, p) =>
         && id in s.world.pods && IsVarnishPod(c, p) && p.ready != s.world.pods[id].ready
         && s'.local == s.local && !s'.unnoticed
  }

  ghost predicate Run(c: W.Config, t: Rendition, ss: seq<State>, steps: seq<Step>) {
    && |ss| == |steps| + 1
    && (forall k :: 0 <= k < |ss| ==> V.OneActive(ss[k].local.table))
    && W.Init(c, ss[0].world) && InSync(ss[0].local)
    && forall k :: 0 <= k < |steps| ==> Next(c, t, ss[k], steps[k], ss[k + 1])
  }

  ghost predicate ShowsWanted(t: Rendition, w: W.Inputs, disk: Files) {
    var target := Wanted(t, w);
    target.Some? && Shows(disk, target.value)
  }

  /** What was last written is still there, and runs unless a restart is unnoticed. */
  ghost predicate Settled(t: Rendition, s: State)
    requires V.OneActive(s.local.table)
  {
    && s.world.disk.Some? && ShowsWanted(t, s.world.disk.value.inputs, s.local.disk)
    && (s.unnoticed || Serves(s.local, s.local.disk))
  }

  predicate Busy(w: W.State) {
    w.podQueued || w.pod != W.PIdle
  }

  ghost predicate Inv(c: W.Config, t: Rendition, s: State)
    requires V.OneActive(s.local.table)
  {
    && W.Inv(c, s.world) && InSync(s.local)
    && (Busy(s.world) || Settled(t, s))
  }

  lemma InitInv(c: W.Config, t: Rendition, s: State)
    requires V.OneActive(s.local.table) && W.Init(c, s.world) && InSync(s.local)
    ensures Inv(c, t, s)
  {
  }

  lemma CompletedSettles(c: W.Config, t: Rendition, s: State, e: Event, s': State)
    requires V.OneActive(s.local.table) && V.OneActive(s'.local.table)
    requires Inv(c, t, s) && Next(c, t, s, Completed(e), s')
    ensures InSync(s'.local) && Settled(t, s')
  {
    CleanStepKeepsSync(s.local, e, s'.local);
    DiskIsSynced(s.local, e, s'.local);
  }

  /** Only the write ends a pass of the pod controller without another one queued. */
  lemma StaysBusy(c: W.Config, s: W.State, step: W.Step, s': W.State)
    requires W.Next(c, s, step, s') && step != W.PWrite
    ensures s'.disk == s.disk && (Busy(s) ==> Busy(s'))
  {
  }

  lemma NoticedQueues(c: W.Config, s: W.State, id: string, p: W.Pod, s': W.State)
    requires id in s.pods && W.Next(c, s, W.UpdatePod(id, p), s')
    requires IsVarnishPod(c, p) && p.ready != s.pods[id].ready
    ensures s'.podQueued
  {
  }

  lemma ClusterSettles(c: W.Config, t: Rendition, s: State, w: W.Step, s': State)
    requires V.OneActive(s.local.table) && (Busy(s.world) || Settled(t, s))
    requires W.Next(c, s.world, w, s'.world) && w != W.PWrite && s'.local == s.local && s'.unnoticed == s.unnoticed
    ensures Busy(s'.world) || Settled(t, s')
  {
    StaysBusy(c, s.world, w, s'.world);
  }

  lemma FailedSettles(c: W.Config, t: Rendition, s: State, e: Event, s': State)
    requires V.OneActive(s.local.table) && V.OneActive(s'.local.table)
    requires Inv(c, t, s) && Next(c, t, s, Failed(e), s')
    ensures InSync(s'.local) && Busy(s'.world)
  {
    FailureQueues(c, s.world, s'.world);
    CleanStepKeepsSync(s.local, e, s'.local);
  }

  lemma FailureQueues(c: W.Config, s: W.State, s': W.State)
    requires W.Next(c, s, W.PFail, s')
    ensures s'.podQueued
  {
  }

  lemma OtherStepSettles(c: W.Config, t: Rendition, s: State, step: Step, s': State)
    requires V.OneActive(s.local.table) && V.OneActive(s'.local.table)
    requires Inv(c, t, s) && Next(c, t, s, step, s') && !step.Completed?
    ensures InSync(s'.local) && (Busy(s'.world) || Settled(t, s'))
  {
    match step
    case Cluster(w) => ClusterSettles(c, t, s, w, s');
    case Failed(e) => FailedSettles(c, t, s, e, s');
    case Restarts => BootIsActive();
    case Noticed(id, p) => NoticedQueues(c, s.world, id, p, s'.world);
  }

  lemma InvStep(c: W.Config, t: Rendition, s: State, step: Step, s': State)
    requires V.OneActive(s.local.table) && V.OneActive(s'.local.table)
    requires Inv(c, t, s) && Next(c, t, s, step, s')
    ensures Inv(c, t, s')
  {
    if step.Completed? {
      CompletedSettles(c, t, s, step.e, s');
    } else {
      OtherStepSettles(c, t, s, step, s');
    }
    match WorldStep(step)
    case Some(w) => W.InvStep(c, s.world, w, s'.world);
    case None =>
  }

  lemma {:induction false} InvAlways(c: W.Config, t: Rendition, ss: seq<State>, steps: seq<Step>, k: nat)
    requires Run(c, t, ss, steps) && k < |ss|
    ensures Inv(c, t, ss[k])
  {
    if k == 0 {
      InitInv(c, t, ss[0]);
    } else {
      InvAlways(c, t, ss, steps, k - 1);
      assert Next(c, t, ss[k - 1], steps[k - 1], ss[k]);
      InvStep(c, t, ss[k - 1], steps[k - 1], ss[k]);
    }
  }

  /** An update that the filters drop although the pod joins or leaves what is rendered. */
  predicate IsMiss(c: W.Config, s: State, step: Step) {
    WorldStep(step).Some? && W.Harmful(c, s.world, WorldStep(step).value)
  }

  /** Step `i` was one, and the backends have not been listed since. */
  predicate MissedSince(c: W.Config, ss: seq<State>, steps: seq<Step>, i: nat, k: nat)
    requires |ss| == |steps| + 1 && i < k < |ss|
  {
    && IsMiss(c, ss[i], steps[i])
    && forall m :: i < m < k ==> WorldStep(steps[m]) != Some(W.PListBackends)
  }

  lemma WorldPodsStep(c: W.Config, t: Rendition, s: State, step: Step, s': State)
    requires V.OneActive(s.local.table) && Next(c, t, s, step, s') && W.Inv(c, s.world)
    requires WorldStep(step) == Some(W.PListBackends) || W.PodsInv(c, s.world)
    requires !IsMiss(c, s, step)
    ensures W.PodsInv(c, s'.world)
  {
    match WorldStep(step)
    case None =>
    case Some(w) =>
      if w == W.PListBackends {
        W.ListingRestores(c, s.world, s'.world);
      } else {
        W.PodsStep(c, s.world, w, s'.world);
      }
  }

  predicate Missed(c: W.Config, ss: seq<State>, steps: seq<Step>, k: nat)
    requires |ss| == |steps| + 1 && k < |ss|
  {
    exists i | 0 <= i < k :: MissedSince(c, ss, steps, i, k)
  }

  lemma RunPodsStep(c: W.Config, t: Rendition, ss: seq<State>, steps: seq<Step>, k: nat)
    requires Run(c, t, ss, steps) && k < |steps| && !IsMiss(c, ss[k], steps[k])
    requires WorldStep(steps[k]) == Some(W.PListBackends) || W.PodsInv(c, ss[k].world)
    ensures W.PodsInv(c, ss[k + 1].world)
  {
    InvAlways(c, t, ss, steps, k);
    assert Next(c, t, ss[k], steps[k], ss[k + 1]);
    WorldPodsStep(c, t, ss[k], steps[k], ss[k + 1]);
  }

  lemma MissedStays(c: W.Config, ss: seq<State>, steps: seq<Step>, k: nat)
    requires |ss| == |steps| + 1 && k < |steps|
    requires IsMiss(c, ss[k], steps[k]) || (Missed(c, ss, steps, k) && WorldStep(steps[k]) != Some(W.PListBackends))
    ensures Missed(c, ss, steps, k + 1)
  {
    if IsMiss(c, ss[k], steps[k]) {
      assert MissedSince(c, ss, steps, k, k + 1);
    } else {
      var i :| 0 <= i < k && MissedSince(c, ss, steps, i, k);
      assert MissedSince(c, ss, steps, i, k + 1);
    }
  }

  lemma {:induction false} PodsInvUnlessMissed(c: W.Config, t: Rendition, ss: seq<State>, steps: seq<Step>, k: nat)
    requires Run(c, t, ss, steps) && k < |ss|
    ensures W.PodsInv(c, ss[k].world) || Missed(c, ss, steps, k)
  {
    if k == 0 {
      InvAlways(c, t, ss, steps, 0);
    } else {
      var last := k - 1;
      PodsInvUnlessMissed(c, t, ss, steps, last);
      if !IsMiss(c, ss[last], steps[last])
         && (WorldStep(steps[last]) == Some(W.PListBackends) || W.PodsInv(c, ss[last].world)) {
        RunPodsStep(c, t, ss, steps, last);
      } else {
        MissedStays(c, ss, steps, last);
      }
    }
  }

  predicate AtRest(s: State) {
    !W.OperatorBusy(s.world) && !W.PodBusy(s.world) && !s.unnoticed
  }

  /** Varnish runs the files of the rendering of the present state. */
  ghost predicate Current(c: W.Config, t: Rendition, s: State)
    requires V.OneActive(s.local.table)
  {
    && W.Current(c, s.world).Some? && ShowsWanted(t, W.Current(c, s.world).value, s.local.disk)
    && Serves(s.local, s.local.disk)
  }

  /** End to end: over every clean run of the operator, the pod controller, its Varnish and
      their users, whenever nothing is queued or running and no restart is unnoticed,
      Varnish runs the rendering of the present ConfigMap, cluster object and pods, unless
      a pod joined or left what is rendered by an update that the filters drop and the
      backends have not been listed since. */
  lemma RestIsCurrent(c: W.Config, t: Rendition, ss: seq<State>, steps: seq<Step>, k: nat)
    requires Run(c, t, ss, steps) && k < |ss| && AtRest(ss[k])
    ensures Current(c, t, ss[k]) || Missed(c, ss, steps, k)
  {
    InvAlways(c, t, ss, steps, k);
    PodsInvUnlessMissed(c, t, ss, steps, k);
    if W.PodsInv(c, ss[k].world) {
      W.AtRestIff(c, ss[k].world);
    }
  }
}
