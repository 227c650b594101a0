/** The wake-up protocol between the operator and the controller in a Varnish pod:
    ConfigMap edits reach the pod only through the operator's status update, pod events
    only through filters that each reconcile overwrites. No change is lost. */
module WakeUp {
  import opened Text

  type Labels = map<string, string>

  datatype Pod = Pod(labels: Labels, namespace: string, ip: string, node: string, ready: bool)

  /** `owned`: the ConfigMap carries the owner reference through which the operator
      watches it. `version` is its resource version. */
  datatype ConfigMap = ConfigMap(version: nat, data: string, owned: bool)

  /** The parts of the cluster object that the rendering depends on. `labels` are the
      labels of the object itself, which its pods inherit; `rest` is everything else. */
  datatype Spec = Spec(selector: Labels, namespaces: seq<string>, onlyReady: bool,
                       cmName: string, labels: Labels, rest: string)

  datatype Address = Address(ip: string, node: string)

  /** All that one rendering is made from: equal inputs give equal files. */
  datatype Inputs = Inputs(spec: Spec, data: string, backends: map<string, Address>, nodes: map<string, Address>)

  datatype Filter = Filter(selector: Labels, namespaces: seq<string>)

  /** The namespace of the cluster and the labels of its Varnish pods. */
  datatype Config = Config(namespace: string, component: Labels)

  datatype OperatorPc = OIdle | OStarted(spec: Spec) | OHasCm(version: nat)

  datatype PodPc =
    | PIdle
    | PGot(spec: Spec)
    | PFiltered(spec: Spec)
    | PHasCm(spec: Spec, data: string, version: nat)
    | PHasBackends(spec: Spec, data: string, version: nat, backends: map<string, Address>)
    | PHasNodes(inputs: Inputs, version: nat)

  datatype Disk = Disk(inputs: Inputs, version: nat)

  datatype State = State(
    cms: map<string, ConfigMap>, spec: Spec, status: Option<nat>, pods: map<string, Pod>, versions: nat,
    operatorQueued: bool, operator: OperatorPc,
    podQueued: bool, pod: PodPc, filter: Filter, disk: Option<Disk>)

  // ---- Selection ----

  predicate Matches(selector: Labels, labels: Labels) {
    forall k <- selector :: k in labels && labels[k] == selector[k]
  }

  predicate Allows(namespaces: seq<string>, namespace: string) {
    |namespaces| == 0 || namespace in namespaces
  }

  /** The namespaces that are searched for backends. */
  function Searched(c: Config, spec: Spec): seq<string> {
    if |spec.namespaces| > 0 then spec.namespaces else [c.namespace]
  }

  predicate Addressable(p: Pod) {
    p.ip != "" && p.node != ""
  }

  predicate IsBackend(c: Config, spec: Spec, p: Pod) {
    && Matches(spec.selector, p.labels) && p.namespace in Searched(c, spec)
    && Addressable(p) && (spec.onlyReady ==> p.ready)
  }

  /** Varnish pods carry the labels of the cluster object and of the component. */
  predicate IsNode(c: Config, spec: Spec, p: Pod) {
    Matches(spec.labels + c.component, p.labels) && p.namespace == c.namespace && Addressable(p)
  }

  function Backends(c: Config, spec: Spec, pods: map<string, Pod>): map<string, Address> {
    map id | id in pods && IsBackend(c, spec, pods[id]) :: Address(pods[id].ip, pods[id].node)
  }

  function Nodes(c: Config, spec: Spec, pods: map<string, Pod>): map<string, Address> {
    map id | id in pods && IsNode(c, spec, pods[id]) :: Address(pods[id].ip, pods[id].node)
  }

  predicate HasCm(s: State) {
    s.spec.cmName in s.cms
  }

  function Cm(s: State): ConfigMap
    requires HasCm(s)
  {
    s.cms[s.spec.cmName]
  }

  /** What a rendering of the present state would be made from. */
  function Current(c: Config, s: State): Option<Inputs> {
    if HasCm(s) then Some(Inputs(s.spec, Cm(s).data, Backends(c, s.spec, s.pods), Nodes(c, s.spec, s.pods))) else None
  }

  // ---- The event filters ----

  function FilterOf(c: Config, spec: Spec): Filter {
    Filter(spec.selector, Searched(c, spec))
  }

  /** The label and namespace predicates of the two watches on pods. */
  predicate Watched(c: Config, f: Filter, p: Pod) {
    || (Allows(f.namespaces, p.namespace) && Matches(f.selector, p.labels))
    || (Allows([c.namespace], p.namespace) && Matches(c.component, p.labels))
  }

  /** The update predicate of the label matcher. */
  predicate UpdatePasses(old_: Pod, new_: Pod) {
    || (new_.ip != "" && old_.ip != new_.ip)
    || (new_.node != "" && old_.node != new_.node)
    || new_.ready != old_.ready
  }

  // ---- Steps ----

  datatype Step =
    | OBegin | OReadCm | OWriteStatus | OFail
    | PBegin | PSetFilter | PReadCm | PListBackends | PListNodes | PWrite | PFail
    | EditCm(name: string, data: string, owned: bool)
    | DeleteCm(name: string)
    | EditSpec(spec: Spec)
    | CreatePod(id: string, p: Pod)
    | UpdatePod(id: string, p: Pod)
    | DeletePod(id: string)

  const DEFAULT_VCL := "default"

  function StoreCm(s: State, name: string, data: string, owned: bool): State {
    s.(cms := s.cms[name := ConfigMap(s.versions, data, owned)], versions := s.versions + 1,
       operatorQueued := s.operatorQueued || owned || (name in s.cms && s.cms[name].owned))
  }

  ghost predicate Next(c: Config, s: State, step: Step, s': State) {
    match step
    // the operator: read the cluster, fetch or create or adopt the ConfigMap, publish its version
    case OBegin =>
      && s.operatorQueued && s.operator == OIdle
      && s' == s.(operatorQueued := false, operator := OStarted(s.spec))
    case OReadCm =>
      && s.operator.OStarted?
      && var name := s.operator.spec.cmName;
         s' == if name !in s.cms then StoreCm(s, name, DEFAULT_VCL, true).(operator := OHasCm(s.versions))
               else if s.cms[name].owned then s.(operator := OHasCm(s.cms[name].version))
               else StoreCm(s, name, s.cms[name].data, true).(operator := OHasCm(s.versions))
    case OWriteStatus =>
      && s.operator.OHasCm?
      && s' == if s.status == Some(s.operator.version) then s.(operator := OIdle)
               else s.(operator := OIdle, status := Some(s.operator.version), operatorQueued := true, podQueued := true)
    case OFail => s.operator != OIdle && s' == s.(operator := OIdle, operatorQueued := true)
    // the pod controller
    case PBegin => s.podQueued && s.pod == PIdle && s' == s.(podQueued := false, pod := PGot(s.spec))
    case PSetFilter => s.pod.PGot? && s' == s.(filter := FilterOf(c, s.pod.spec), pod := PFiltered(s.pod.spec))
    case PReadCm =>
      && s.pod.PFiltered? && s.pod.spec.cmName in s.cms
      && var cm := s.cms[s.pod.spec.cmName];
         s' == s.(pod := PHasCm(s.pod.spec, cm.data, cm.version))
    case PListBackends =>
      && s.pod.PHasCm?
      && var backends := Backends(c, s.pod.spec, s.pods);
         s' == s.(pod := PHasBackends(s.pod.spec, s.pod.data, s.pod.version, backends))
    case PListNodes =>
      && s.pod.PHasBackends?
      && var inputs := Inputs(s.pod.spec, s.pod.data, s.pod.backends, Nodes(c, s.pod.spec, s.pods));
         s' == s.(pod := PHasNodes(inputs, s.pod.version))
    case PWrite => s.pod.PHasNodes? && s' == s.(disk := Some(Disk(s.pod.inputs, s.pod.version)), pod := PIdle)
    case PFail => s.pod != PIdle && s' == s.(pod := PIdle, podQueued := true)
    // the world
    case EditCm(name, data, owned) => s' == StoreCm(s, name, data, owned)
    case DeleteCm(name) =>
      name in s.cms && s' == s.(cms := s.cms - {name}, operatorQueued := s.operatorQueued || s.cms[name].owned)
    case EditSpec(spec) => s' == s.(spec := spec, operatorQueued := true, podQueued := true)
    case CreatePod(id, p) =>
      id !in s.pods && s' == s.(pods := s.pods[id := p], podQueued := s.podQueued || Watched(c, s.filter, p))
    case UpdatePod(id, p) =>
      && id in s.pods && p.namespace == s.pods[id].namespace
      && s' == s.(pods := s.pods[id := p],
                  podQueued := s.podQueued || (Watched(c, s.filter, p) && UpdatePasses(s.pods[id], p)))
    case DeletePod(id) =>
      id in s.pods && s' == s.(pods := s.pods - {id}, podQueued := s.podQueued || Watched(c, s.filter, s.pods[id]))
  }

  /** Both controllers start with everything queued and the stub filter in place. */
  ghost predicate Init(c: Config, s: State) {
    && s.operatorQueued && s.operator == OIdle && s.podQueued && s.pod == PIdle
    && s.status == None && s.disk == None && s.filter == Filter(map[], [c.namespace])
    && forall n <- s.cms :: s.cms[n].version < s.versions
  }

  ghost predicate Run(c: Config, ss: seq<State>, steps: seq<Step>) {
    && |ss| == |steps| + 1 && Init(c, ss[0])
    && forall k :: 0 <= k < |steps| ==> Next(c, ss[k], steps[k], ss[k + 1])
  }

  // ---- The invariant ----

  /** Versions are used once: none is taken that has not been given out. */
  ghost predicate VersionsInv(s: State) {
    && (forall n <- s.cms :: s.cms[n].version < s.versions)
    && (s.status.Some? ==> s.status.value < s.versions)
    && (s.operator.OHasCm? ==> s.operator.version < s.versions)
    && (s.pod.PHasCm? || s.pod.PHasBackends? || s.pod.PHasNodes? ==> s.pod.version < s.versions)
    && (s.disk.Some? ==> s.disk.value.version < s.versions)
  }

  /** The status names the present ConfigMap, or the operator is about to see to it. */
  predicate OperatorInv(s: State) {
    s.operatorQueued ||
    match s.operator
    case OIdle => HasCm(s) && Cm(s).owned && s.status == Some(Cm(s).version)
    case OStarted(spec) => spec == s.spec
    case OHasCm(v) => HasCm(s) && Cm(s).owned && Cm(s).version == v
  }

  /** Content `data` of version `v` will do, unless the operator still has to wake the
      pod: it is the present content if the status names the present version. */
  predicate CmInv(s: State, data: string, v: nat) {
    HasCm(s) ==>
      && (s.status == Some(Cm(s).version) ==> v == Cm(s).version)
      && (v == Cm(s).version ==> data == Cm(s).data)
  }

  /** What the pod controller has read of the cluster object and the ConfigMap, or written
      from them, is current, or it will run again. */
  predicate PodInv(c: Config, s: State) {
    s.podQueued ||
    match s.pod
    case PIdle =>
      && s.disk.Some? && s.filter == FilterOf(c, s.spec)
      && s.disk.value.inputs.spec == s.spec && CmInv(s, s.disk.value.inputs.data, s.disk.value.version)
    case PGot(spec) => spec == s.spec
    case PFiltered(spec) => spec == s.spec && s.filter == FilterOf(c, s.spec)
    case PHasCm(spec, data, v) => spec == s.spec && s.filter == FilterOf(c, s.spec) && CmInv(s, data, v)
    case PHasBackends(spec, data, v, _) => spec == s.spec && s.filter == FilterOf(c, s.spec) && CmInv(s, data, v)
    case PHasNodes(inputs, v) => inputs.spec == s.spec && s.filter == FilterOf(c, s.spec) && CmInv(s, inputs.data, v)
  }

  ghost predicate Inv(c: Config, s: State) {
    VersionsInv(s) && OperatorInv(s) && PodInv(c, s)
  }

  predicate SeesPods(c: Config, s: State, i: Inputs) {
    i.backends == Backends(c, s.spec, s.pods) && i.nodes == Nodes(c, s.spec, s.pods)
  }

  /** What it has read of the pods is current too. */
  predicate PodsInv(c: Config, s: State) {
    s.podQueued ||
    match s.pod
    case PIdle => s.disk.Some? ==> SeesPods(c, s, s.disk.value.inputs)
    case PHasBackends(_, _, _, backends) => backends == Backends(c, s.spec, s.pods)
    case PHasNodes(inputs, _) => SeesPods(c, s, inputs)
    case PGot(_) | PFiltered(_) | PHasCm(_, _, _) => true
  }

  /** Every pod that the rendering uses passes the filter of that spec. */
  lemma UsedPodsAreWatched(c: Config, spec: Spec, p: Pod)
    requires IsBackend(c, spec, p) || IsNode(c, spec, p)
    ensures Watched(c, FilterOf(c, spec), p)
  {
    if IsNode(c, spec, p) {
      forall k | k in c.component
        ensures k in p.labels && p.labels[k] == c.component[k]
      {
        assert k in spec.labels + c.component;
      }
    }
  }

  /** A pod goes into or out of what the rendering is made from. */
  predicate ChangesUse(c: Config, spec: Spec, p: Pod, q: Pod) {
    IsBackend(c, spec, p) != IsBackend(c, spec, q) || IsNode(c, spec, p) != IsNode(c, spec, q)
  }

  lemma DroppedKeepsAddress(c: Config, spec: Spec, p: Pod, q: Pod)
    requires IsBackend(c, spec, q) || IsNode(c, spec, q)
    requires !(Watched(c, FilterOf(c, spec), q) && UpdatePasses(p, q))
    ensures p.ip == q.ip && p.node == q.node
  {
    UsedPodsAreWatched(c, spec, q);
  }

  /** An update that the filters drop, whatever it changes but the namespace, leaves the
      rendering as it is exactly if the pod neither joins nor leaves what is rendered. */
  lemma DroppedUpdateIff(c: Config, spec: Spec, pods: map<string, Pod>, id: string, q: Pod)
    requires id in pods
    requires !(Watched(c, FilterOf(c, spec), q) && UpdatePasses(pods[id], q))
    ensures Backends(c, spec, pods[id := q]) == Backends(c, spec, pods)
       <==> (IsBackend(c, spec, pods[id]) <==> IsBackend(c, spec, q))
    ensures Nodes(c, spec, pods[id := q]) == Nodes(c, spec, pods)
       <==> (IsNode(c, spec, pods[id]) <==> IsNode(c, spec, q))
  {
    if IsBackend(c, spec, q) || IsNode(c, spec, q) {
      DroppedKeepsAddress(c, spec, pods[id], q);
    }
    UpdatedBackends(c, spec, pods, id, q);
    UpdatedNodes(c, spec, pods, id, q);
  }

  lemma UpdatedBackends(c: Config, spec: Spec, pods: map<string, Pod>, id: string, q: Pod)
    requires id in pods
    requires IsBackend(c, spec, pods[id]) && IsBackend(c, spec, q) ==> pods[id].ip == q.ip && pods[id].node == q.node
    ensures Backends(c, spec, pods[id := q]) == Backends(c, spec, pods)
       <==> (IsBackend(c, spec, pods[id]) <==> IsBackend(c, spec, q))
  {
    var before, after := Backends(c, spec, pods), Backends(c, spec, pods[id := q]);
    assert id in before <==> IsBackend(c, spec, pods[id]);
    assert id in after <==> IsBackend(c, spec, q);
  }

  lemma UpdatedNodes(c: Config, spec: Spec, pods: map<string, Pod>, id: string, q: Pod)
    requires id in pods
    requires IsNode(c, spec, pods[id]) && IsNode(c, spec, q) ==> pods[id].ip == q.ip && pods[id].node == q.node
    ensures Nodes(c, spec, pods[id := q]) == Nodes(c, spec, pods)
       <==> (IsNode(c, spec, pods[id]) <==> IsNode(c, spec, q))
  {
    var before, after := Nodes(c, spec, pods), Nodes(c, spec, pods[id := q]);
    assert id in before <==> IsNode(c, spec, pods[id]);
    assert id in after <==> IsNode(c, spec, q);
  }

  /** A new label set alone passes no filter, into the selection or out of it. */
  lemma RelabelIsDropped(c: Config, spec: Spec, pods: map<string, Pod>, id: string, labels: Labels)
    requires id in pods && ChangesUse(c, spec, pods[id], pods[id].(labels := labels))
    ensures var q := pods[id].(labels := labels);
            && !UpdatePasses(pods[id], q)
            && (|| Backends(c, spec, pods[id := q]) != Backends(c, spec, pods)
                || Nodes(c, spec, pods[id := q]) != Nodes(c, spec, pods))
  {
    DroppedUpdateIff(c, spec, pods, id, pods[id].(labels := labels));
  }

  /** Neither does taking the address of a used backend away. */
  lemma UnsetAddressIsDropped(c: Config, spec: Spec, pods: map<string, Pod>, id: string)
    requires id in pods && IsBackend(c, spec, pods[id])
    ensures !UpdatePasses(pods[id], pods[id].(ip := ""))
    ensures Backends(c, spec, pods[id := pods[id].(ip := "")]) != Backends(c, spec, pods)
  {
    assert id in Backends(c, spec, pods);
  }

  lemma DroppedCreateIsIrrelevant(c: Config, spec: Spec, pods: map<string, Pod>, id: string, p: Pod)
    requires id !in pods && !Watched(c, FilterOf(c, spec), p)
    ensures Backends(c, spec, pods[id := p]) == Backends(c, spec, pods)
    ensures Nodes(c, spec, pods[id := p]) == Nodes(c, spec, pods)
  {
    if IsBackend(c, spec, p) || IsNode(c, spec, p) { UsedPodsAreWatched(c, spec, p); }
  }

  lemma DroppedDeleteIsIrrelevant(c: Config, spec: Spec, pods: map<string, Pod>, id: string)
    requires id in pods && !Watched(c, FilterOf(c, spec), pods[id])
    ensures Backends(c, spec, pods - {id}) == Backends(c, spec, pods)
    ensures Nodes(c, spec, pods - {id}) == Nodes(c, spec, pods)
  {
    if IsBackend(c, spec, pods[id]) || IsNode(c, spec, pods[id]) { UsedPodsAreWatched(c, spec, pods[id]); }
  }

  /** With the filter of the present spec in place, only a change of labels or a loss of the
      address or of the node can be such an update: readiness, a new address and a new
      node always pass. */
  lemma HarmfulOnlyBy(c: Config, s: State, step: Step)
    requires Harmful(c, s, step) && s.filter == FilterOf(c, s.spec) && step.p.namespace == s.pods[step.id].namespace
    ensures var p, q := s.pods[step.id], step.p;
            p.labels != q.labels || (p.ip != "" && q.ip == "") || (p.node != "" && q.node == "")
  {
    var p, q := s.pods[step.id], step.p;
    if IsBackend(c, s.spec, q) || IsNode(c, s.spec, q) {
      UsedPodsAreWatched(c, s.spec, q);
    }
    if IsBackend(c, s.spec, p) || IsNode(c, s.spec, p) {
      UsedPodsAreWatched(c, s.spec, p);
    }
  }

  /** Storing any ConfigMap, present or not, keeps what the pod relies on. */
  lemma StoreCmKeepsInv(c: Config, s: State, name: string, data: string, owned: bool)
    requires Inv(c, s)
    ensures Inv(c, StoreCm(s, name, data, owned))
  {
  }

  lemma OperatorStepKeepsInv(c: Config, s: State, step: Step, s': State)
    requires Inv(c, s) && Next(c, s, step, s')
    requires step.OBegin? || step.OReadCm? || step.OWriteStatus? || step.OFail?
    ensures Inv(c, s')
  {
    if step.OReadCm? {
      ReadCmKeepsInv(c, s, s');
    }
  }

  lemma ReadCmKeepsInv(c: Config, s: State, s': State)
    requires Inv(c, s) && Next(c, s, OReadCm, s')
    ensures Inv(c, s')
  {
    var name := s.operator.spec.cmName;
    if name !in s.cms {
      OwnCmKeepsInv(c, s, name, DEFAULT_VCL);
    } else if !s.cms[name].owned {
      OwnCmKeepsInv(c, s, name, s.cms[name].data);
    }
  }

  lemma OwnCmKeepsInv(c: Config, s: State, name: string, data: string)
    requires Inv(c, s) && s.operator.OStarted? && s.operator.spec.cmName == name
    ensures Inv(c, StoreCm(s, name, data, true).(operator := OHasCm(s.versions)))
  {
    StoreCmKeepsInv(c, s, name, data, true);
  }

  predicate IsPodStep(step: Step) {
    || step.PBegin? || step.PSetFilter? || step.PReadCm? || step.PListBackends?
    || step.PListNodes? || step.PWrite? || step.PFail?
  }

  lemma PodStepKeepsInv(c: Config, s: State, step: Step, s': State)
    requires Inv(c, s) && Next(c, s, step, s') && IsPodStep(step)
    ensures Inv(c, s')
  {
  }

  /** Whatever happens. */
  lemma InvStep(c: Config, s: State, step: Step, s': State)
    requires Inv(c, s) && Next(c, s, step, s')
    ensures Inv(c, s')
  {
    match step
    case OBegin | OReadCm | OWriteStatus | OFail => OperatorStepKeepsInv(c, s, step, s');
    case EditCm(name, data, owned) => StoreCmKeepsInv(c, s, name, data, owned);
    case DeleteCm(name) =>
    case EditSpec(spec) =>
    case CreatePod(_, _) | UpdatePod(_, _) | DeletePod(_) =>
    case _ => PodStepKeepsInv(c, s, step, s');
  }

  lemma {:induction false} InvAlways(c: Config, ss: seq<State>, steps: seq<Step>, k: nat)
    requires Run(c, ss, steps) && k < |ss|
    ensures Inv(c, ss[k])
  {
    if k > 0 {
      InvAlways(c, ss, steps, k - 1);
      assert Next(c, ss[k - 1], steps[k - 1], ss[k]);
      InvStep(c, ss[k - 1], steps[k - 1], ss[k]);
    }
  }

  /** An update that the filters drop although the pod joins or leaves what is rendered. */
  predicate Harmful(c: Config, s: State, step: Step) {
    && step.UpdatePod? && step.id in s.pods
    && !(Watched(c, s.filter, step.p) && UpdatePasses(s.pods[step.id], step.p))
    && ChangesUse(c, s.spec, s.pods[step.id], step.p)
  }

  lemma PodEventKeepsPods(c: Config, s: State, step: Step, s': State)
    requires Inv(c, s) && PodsInv(c, s) && Next(c, s, step, s')
    requires step.CreatePod? || step.UpdatePod? || step.DeletePod?
    requires !Harmful(c, s, step)
    ensures PodsInv(c, s')
  {
    if !s'.podQueued && s.filter == FilterOf(c, s.spec) {
      match step
      case CreatePod(id, p) => DroppedCreateIsIrrelevant(c, s.spec, s.pods, id, p);
      case UpdatePod(id, p) => DroppedUpdateIff(c, s.spec, s.pods, id, p);
      case DeletePod(id) => DroppedDeleteIsIrrelevant(c, s.spec, s.pods, id);
    }
  }

  /** Every other step keeps what has been read of the pods current. */
  lemma PodsStep(c: Config, s: State, step: Step, s': State)
    requires Inv(c, s) && PodsInv(c, s) && Next(c, s, step, s') && !Harmful(c, s, step)
    ensures PodsInv(c, s')
  {
    if step.CreatePod? || step.UpdatePod? || step.DeletePod? {
      PodEventKeepsPods(c, s, step, s');
    }
  }

  /** Listing the backends makes it current again, whatever was missed before. */
  lemma ListingRestores(c: Config, s: State, s': State)
    requires Inv(c, s) && Next(c, s, PListBackends, s')
    ensures PodsInv(c, s')
  {
  }

  /** Step `i` was such an update, and the backends have not been listed since. */
  predicate MissedSince(c: Config, ss: seq<State>, steps: seq<Step>, i: nat, k: nat)
    requires |ss| == |steps| + 1 && i < k < |ss|
  {
    Harmful(c, ss[i], steps[i]) && forall m :: i < m < k ==> !steps[m].PListBackends?
  }

  predicate Missed(c: Config, ss: seq<State>, steps: seq<Step>, k: nat)
    requires |ss| == |steps| + 1 && k < |ss|
  {
    exists i | 0 <= i < k :: MissedSince(c, ss, steps, i, k)
  }

  lemma MissedStays(c: Config, ss: seq<State>, steps: seq<Step>, k: nat)
    requires |ss| == |steps| + 1 && k < |steps|
    requires Harmful(c, ss[k], steps[k]) || (Missed(c, ss, steps, k) && !steps[k].PListBackends?)
    ensures Missed(c, ss, steps, k + 1)
  {
    if Harmful(c, ss[k], steps[k]) {
      assert MissedSince(c, ss, steps, k, k + 1);
    } else {
      var i :| 0 <= i < k && MissedSince(c, ss, steps, i, k);
      assert MissedSince(c, ss, steps, i, k + 1);
    }
  }

  lemma RunPodsStep(c: Config, ss: seq<State>, steps: seq<Step>, k: nat)
    requires Run(c, ss, steps) && k < |steps| && !Harmful(c, ss[k], steps[k])
    requires steps[k].PListBackends? || PodsInv(c, ss[k])
    ensures PodsInv(c, ss[k + 1])
  {
    InvAlways(c, ss, steps, k);
    assert Next(c, ss[k], steps[k], ss[k + 1]);
    if steps[k].PListBackends? {
      ListingRestores(c, ss[k], ss[k + 1]);
    } else {
      PodsStep(c, ss[k], steps[k], ss[k + 1]);
    }
  }

  lemma {:induction false} PodsInvUnlessMissed(c: Config, ss: seq<State>, steps: seq<Step>, k: nat)
    requires Run(c, ss, steps) && k < |ss|
    ensures PodsInv(c, ss[k]) || Missed(c, ss, steps, k)
  {
    if k > 0 {
      var last := k - 1;
      PodsInvUnlessMissed(c, ss, steps, last);
      if !Harmful(c, ss[last], steps[last]) && (steps[last].PListBackends? || PodsInv(c, ss[last])) {
        RunPodsStep(c, ss, steps, last);
      } else {
        MissedStays(c, ss, steps, last);
      }
    }
  }

  predicate OperatorBusy(s: State) {
    s.operatorQueued || s.operator != OIdle
  }

  predicate PodBusy(s: State) {
    s.podQueued || s.pod != PIdle
  }

  /** Nobody is going to do anything, and the disk is not what the present state renders to. */
  predicate Lost(c: Config, s: State) {
    !OperatorBusy(s) && !PodBusy(s) && !(s.disk.Some? && Current(c, s) == Some(s.disk.value.inputs))
  }

  lemma AtRestIff(c: Config, s: State)
    requires Inv(c, s) && !OperatorBusy(s) && !PodBusy(s)
    ensures Lost(c, s) <==> !PodsInv(c, s)
  {
  }

  /** No lost change: in every reachable state the files on disk were rendered from the
      present ConfigMap, cluster object and pods, or a reconcile is queued or running at
      the operator or at the pod controller, or else some pod joined or left what is
      rendered by an update that the filters drop, and the backends have not been listed
      since. */
  lemma NoLostChange(c: Config, ss: seq<State>, steps: seq<Step>, k: nat)
    requires Run(c, ss, steps) && k < |ss|
    ensures Lost(c, ss[k]) ==> Missed(c, ss, steps, k)
  {
    if Lost(c, ss[k]) {
      InvAlways(c, ss, steps, k);
      PodsInvUnlessMissed(c, ss, steps, k);
      AtRestIff(c, ss[k]);
    }
  }

  /** In any run, whatever was missed before: from a state at rest that has lost nothing, a
      step loses a change exactly if it is such an update. */
  lemma LostIff(c: Config, ss: seq<State>, steps: seq<Step>, k: nat)
    requires Run(c, ss, steps) && k < |steps|
    requires !OperatorBusy(ss[k]) && !PodBusy(ss[k]) && !Lost(c, ss[k])
    ensures Lost(c, ss[k + 1]) <==> Harmful(c, ss[k], steps[k])
  {
    var s, step, s' := ss[k], steps[k], ss[k + 1];
    InvAlways(c, ss, steps, k);
    InvAlways(c, ss, steps, k + 1);
    AtRestIff(c, s);
    assert Next(c, s, step, s');
    if Harmful(c, s, step) {
      DroppedUpdateIff(c, s.spec, s.pods, step.id, step.p);
    } else {
      PodsStep(c, s, step, s');
      if !OperatorBusy(s') && !PodBusy(s') {
        AtRestIff(c, s');
      }
    }
  }

  lemma Extend(c: Config, ss: seq<State>, steps: seq<Step>, step: Step, s': State)
    requires Run(c, ss, steps) && Next(c, ss[|steps|], step, s')
    ensures Run(c, ss + [s'], steps + [step])
  {
    var ts, more := ss + [s'], steps + [step];
    forall k | 0 <= k < |more|
      ensures Next(c, ts[k], more[k], ts[k + 1])
    {
      if k < |steps| {
        assert Next(c, ss[k], steps[k], ss[k + 1]);
      }
    }
  }

  /** A run that was put together step by step. */
  ghost predicate Reaches(c: Config, s: State) {
    exists ss, steps :: Run(c, ss, steps) && ss[|steps|] == s
  }

  lemma ReachesNext(c: Config, s: State, step: Step, s': State)
    requires Reaches(c, s) && Next(c, s, step, s')
    ensures Reaches(c, s')
  {
    var ss, steps :| Run(c, ss, steps) && ss[|steps|] == s;
    Extend(c, ss, steps, step, s');
    assert (ss + [s'])[|steps + [step]|] == s';
  }

  lemma ReachableInit(c: Config, s: State)
    requires Init(c, s)
    ensures Reaches(c, s)
  {
    var none: seq<Step> := [];
    assert Run(c, [s], none) && [s][|none|] == s;
  }

  /** One undisturbed pass of the operator over an owned ConfigMap. */
  lemma OperatorPass(c: Config, s: State) returns (s': State)
    requires Reaches(c, s) && s.operatorQueued && s.operator == OIdle && HasCm(s) && Cm(s).owned
    ensures Reaches(c, s')
    ensures s' == if s.status == Some(Cm(s).version) then s.(operatorQueued := false)
                  else s.(status := Some(Cm(s).version), podQueued := true)
  {
    var s1 := s.(operatorQueued := false, operator := OStarted(s.spec));
    ReachesNext(c, s, OBegin, s1);
    var s2 := s1.(operator := OHasCm(Cm(s).version));
    ReachesNext(c, s1, OReadCm, s2);
    s' := if s.status == Some(Cm(s).version) then s.(operatorQueued := false)
          else s.(status := Some(Cm(s).version), podQueued := true);
    ReachesNext(c, s2, OWriteStatus, s');
  }

  /** One undisturbed pass of the pod controller. */
  lemma PodPass(c: Config, s: State) returns (s': State)
    requires Reaches(c, s) && s.podQueued && s.pod == PIdle && HasCm(s)
    ensures Reaches(c, s') && Current(c, s).Some?
    ensures s' == s.(podQueued := false, filter := FilterOf(c, s.spec),
          disk := Some(Disk(Current(c, s).value, Cm(s).version)))
  {
    var cm, backends := Cm(s), Backends(c, s.spec, s.pods);
    var s1 := s.(podQueued := false, pod := PGot(s.spec));
    ReachesNext(c, s, PBegin, s1);
    var s2 := s1.(filter := FilterOf(c, s.spec), pod := PFiltered(s.spec));
    ReachesNext(c, s1, PSetFilter, s2);
    var s3 := s2.(pod := PHasCm(s.spec, cm.data, cm.version));
    ReachesNext(c, s2, PReadCm, s3);
    var s4 := s3.(pod := PHasBackends(s.spec, cm.data, cm.version, backends));
    ReachesNext(c, s3, PListBackends, s4);
    var s5 := s4.(pod := PHasNodes(Current(c, s).value, cm.version));
    ReachesNext(c, s4, PListNodes, s5);
    s' := s5.(disk := Some(Disk(Current(c, s).value, cm.version)), pod := PIdle);
    ReachesNext(c, s5, PWrite, s');
  }

  /** Both controllers go to work on a fresh cluster and come to rest. */
  lemma ComesToRest(c: Config, spec: Spec, pods: map<string, Pod>) returns (s: State)
    ensures Reaches(c, s) && !OperatorBusy(s) && !PodBusy(s) && !Lost(c, s)
    ensures s.spec == spec && s.pods == pods && s.filter == FilterOf(c, spec)
  {
    var s0 := State(map[spec.cmName := ConfigMap(0, "", true)], spec, None, pods, 1, true, OIdle, true, PIdle,
                    Filter(map[], [c.namespace]), None);
    ReachableInit(c, s0);
    var s1 := OperatorPass(c, s0);
    var s2 := OperatorPass(c, s1);
    s := PodPass(c, s2);
  }

  /** A change can get lost: a used backend is relabelled out of the selection. */
  lemma SomeChangeIsLost(c: Config, spec: Spec, id: string, p: Pod, labels: Labels) returns (s: State, s': State)
    requires IsBackend(c, spec, p) && !Matches(spec.selector, labels)
    ensures Reaches(c, s) && !Lost(c, s) && Next(c, s, UpdatePod(id, p.(labels := labels)), s')
    ensures Reaches(c, s') && Lost(c, s')
  {
    s := ComesToRest(c, spec, map[id := p]);
    var q := p.(labels := labels);
    s' := s.(pods := s.pods[id := q]);
    assert !UpdatePasses(p, q);
    ReachesNext(c, s, UpdatePod(id, q), s');
    DroppedUpdateIff(c, spec, s.pods, id, q);
  }
}
