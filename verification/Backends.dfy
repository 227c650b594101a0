/** From the listed pods to the weighted backends and to the files on disk: with backends
    that IPs identify, listing them again in another order touches no file. */
module Backends {
  import opened Text
  import opened FileSync
  import opened Rendering
  import opened ZoneBalancing
  import opened ZoneWeights
  import E = Endpoints
  import W = WakeUp

  /** The template executor for a list of backends and their port. */
  type ExecutorOf = (seq<PodInfo>, int) -> Executor

  ghost predicate Balanced(before: seq<PodInfo>, after: seq<PodInfo>, current: string, balancing: Balancing) {
    exists local, remote :: Outcome(before, after, current, balancing, local, remote)
  }

  /** The zone of a node as a map lookup gives it. */
  function ZoneIn(labels: map<string, string>, zoneLabel: string): string {
    if zoneLabel in labels then labels[zoneLabel] else ""
  }

  /** The deprecated label, if the own node has it, and otherwise the present one. */
  lemma OwnZoneMeans(own: map<string, string>)
    ensures "failure-domain.beta.kubernetes.io/zone" in own ==>
              ZoneIn(own, E.ZoneLabelOf(own)) == own["failure-domain.beta.kubernetes.io/zone"]
    ensures "failure-domain.beta.kubernetes.io/zone" !in own && "topology.kubernetes.io/zone" in own ==>
              ZoneIn(own, E.ZoneLabelOf(own)) == own["topology.kubernetes.io/zone"]
    ensures "failure-domain.beta.kubernetes.io/zone" !in own && "topology.kubernetes.io/zone" !in own ==>
              ZoneIn(own, E.ZoneLabelOf(own)) == ""
  {
  }

  /** The backends in the end, their port and the reported weights. */
  datatype Endpoints = Endpoints(backends: seq<PodInfo>, port: int, local: real, remote: real)

  /** Fails if the own node or that of a backend is not found; otherwise looks the pods up
      under the zone label in use and balances them around the own zone. */
  method GetBackendEndpoints(ownNode: string, labels: map<string, map<string, string>>,
                             namespaces: seq<string>, ownNamespace: string, list: string -> seq<E.Pod>,
                             port: E.PortRef, onlyReady: bool, balancing: Balancing)
    returns (r: Option<Endpoints>)
    ensures ownNode !in labels ==> r == None
    ensures ownNode in labels ==>
              var nodes := E.Nodes(labels, E.ZoneLabelOf(labels[ownNode]));
              var pods := E.Gather(if namespaces == [] then [ownNamespace] else namespaces, list);
              if r.None? then E.Answers(pods, port, onlyReady, nodes, None)
              else exists found ::
                && E.Answers(pods, port, onlyReady, nodes, Some((found, r.value.port)))
                && Outcome(found, r.value.backends, ZoneIn(labels[ownNode], nodes.zoneLabel), balancing,
                                r.value.local, r.value.remote)
  {
    if ownNode !in labels {
      return None;
    }
    var zoneLabel := E.ZoneLabelOf(labels[ownNode]);
    var current := ZoneIn(labels[ownNode], zoneLabel);
    var ns := [ownNamespace];
    if |namespaces| > 0 {
      ns := namespaces;
    }
    var found := E.GetPodsInfo(ns, list, port, onlyReady, E.Nodes(labels, zoneLabel));
    if found.None? {
      return None;
    }
    var backends, local, remote := BalanceFound(found.value.0, current, balancing);
    r := Some(Endpoints(backends, found.value.1, local, remote));
  }

  /** The list is balanced in place. */
  method BalanceFound(found: seq<PodInfo>, current: string, balancing: Balancing)
    returns (backends: seq<PodInfo>, local: real, remote: real)
    ensures Outcome(found, backends, current, balancing, local, remote)
  {
    var list := new PodInfo[|found|](i requires 0 <= i < |found| => found[i]);
    assert list[..] == found;
    local, remote := BalanceZones(list, current, balancing);
    backends := list[..];
  }

  /** A listed pod as the wake-up protocol sees it. */
  function Seen(p: E.Pod, labels: W.Labels): W.Pod {
    W.Pod(labels, p.namespace, p.ip, p.node, E.IsReady(p))
  }

  /** The backends of the wake-up protocol, in terms of labels, namespaces, address and
      readiness: those that the lookup takes. */
  lemma ConsideredIff(c: W.Config, spec: W.Spec, p: E.Pod, labels: W.Labels)
    ensures W.IsBackend(c, spec, Seen(p, labels)) <==>
            && (forall k <- spec.selector :: k in labels && labels[k] == spec.selector[k])
            && (if spec.namespaces == [] then p.namespace == c.namespace else p.namespace in spec.namespaces)
            && p.ip != "" && p.node != ""
            && (spec.onlyReady ==> p.ready != [] && forall r <- p.ready :: r)
    ensures W.IsBackend(c, spec, Seen(p, labels)) ==> E.Considered(p, spec.onlyReady)
  {
  }

  /** And its Varnish pods: in the namespace of the cluster, with the labels of the component
      and, under other keys, those of the cluster object. */
  lemma NodeIff(c: W.Config, spec: W.Spec, p: E.Pod, labels: W.Labels)
    ensures W.IsNode(c, spec, Seen(p, labels)) <==>
            && (forall k <- c.component :: k in labels && labels[k] == c.component[k])
            && (forall k <- spec.labels :: k !in c.component ==> k in labels && labels[k] == spec.labels[k])
            && p.namespace == c.namespace && p.ip != "" && p.node != ""
  {
    var all := spec.labels + c.component;
    if W.Matches(all, labels) {
      assert forall k <- c.component :: k in all;
      assert forall k <- spec.labels :: k in all;
    }
  }

  predicate DistinctThresholds(balancing: Balancing) {
    balancing.Thresholds? ==>
      forall v <- balancing.thresholds, w <- balancing.thresholds :: v.threshold == w.threshold ==> v == w
  }

  lemma {:induction false} BalancedIsDetermined(before: seq<PodInfo>, a: seq<PodInfo>, b: seq<PodInfo>,
                                                current: string, balancing: Balancing)
    requires DistinctThresholds(balancing)
    requires Balanced(before, a, current, balancing) && Balanced(before, b, current, balancing)
    ensures a == b
  {
    if Balances(before, current, balancing) {
      var local, remote :| Outcome(before, a, current, balancing, local, remote);
      var local', remote' :| Outcome(before, b, current, balancing, local', remote');
      if balancing.Thresholds? {
        WeightsAreDetermined(before, current, balancing.thresholds, balancing.thresholds,
                             a, local, remote, b, local', remote');
      }
    }
  }

  /** Once the rendering for one listing is on disk, another listing of the same pods
      renders the same files and has nothing to write or remove. */
  lemma {:induction false} RelistingTouchesNothing(
    ns: seq<string>, list: string -> seq<E.Pod>, r: (seq<PodInfo>, int), a: seq<PodInfo>,
    ms: seq<string>, other: string -> seq<E.Pod>, s: (seq<PodInfo>, int), b: seq<PodInfo>,
    port: E.PortRef, onlyReady: bool, nodes: E.Nodes,
    current: string, balancing: Balancing, data: Files, exec: ExecutorOf, entry: string, disk: Files)
    requires multiset(ns) == multiset(ms)
    requires forall n <- ns :: multiset(list(n)) == multiset(other(n))
    requires E.IpsIdentify(E.Gather(ns, list), port, onlyReady, nodes)
    requires E.OnePort(E.Gather(ns, list), port, onlyReady)
    requires E.Answers(E.Gather(ns, list), port, onlyReady, nodes, Some(r))
    requires E.Answers(E.Gather(ms, other), port, onlyReady, nodes, Some(s))
    requires DistinctThresholds(balancing)
    requires Balanced(r.0, a, current, balancing) && Balanced(s.0, b, current, balancing)
    requires Rendered(data, exec(a, r.1), entry).Some? && AllVcl(Rendered(data, exec(a, r.1), entry).value)
    ensures Rendered(data, exec(b, s.1), entry) == Rendered(data, exec(a, r.1), entry)
    ensures !Touches(Synced(disk, Rendered(data, exec(a, r.1), entry).value), Rendered(data, exec(b, s.1), entry).value)
  {
    E.OrderIndependence(ns, ms, list, other, port, onlyReady, nodes, Some(r), Some(s));
    BalancedIsDetermined(r.0, a, b, current, balancing);
    SecondRunTouchesIff(disk, Rendered(data, exec(a, r.1), entry).value);
  }
}
