/** The backend list and the backend port from the pods the API lists, and when they do not
    depend on the order in which it lists them. */
module Endpoints {
  import opened Text
  import opened Ordering
  import opened ZoneBalancing

  datatype ContainerPort = ContainerPort(number: int, name: string)

  datatype Container = Container(ports: seq<ContainerPort>)

  /** `ready` holds the readiness of each container that has a status. */
  datatype Pod = Pod(namespace: string, name: string, ip: string, node: string,
                     containers: seq<Container>, ready: seq<bool>)

  /** A port by number or by name: the other half is zero or empty. */
  datatype PortRef = PortRef(number: int, name: string)

  /** The labels of the nodes of the cluster, and the label that names the zone of a node. */
  datatype Nodes = Nodes(labels: map<string, map<string, string>>, zoneLabel: string)

  const ZONE_LABEL := "topology.kubernetes.io/zone"
  const OLD_ZONE_LABEL := "failure-domain.beta.kubernetes.io/zone"

  /** The deprecated label is used if the own node has it. */
  function ZoneLabelOf(own: map<string, string>): string {
    if OLD_ZONE_LABEL in own then OLD_ZONE_LABEL else ZONE_LABEL
  }

  // ---- Which pods are backends, and on which port ----

  predicate IsReady(pod: Pod) {
    pod.ready != [] && forall r <- pod.ready :: r
  }

  method PodReady(pod: Pod) returns (r: bool)
    ensures r <==> IsReady(pod)
  {
    if |pod.ready| == 0 {
      return false;
    }
    for i := 0 to |pod.ready|
      invariant forall k :: 0 <= k < i ==> pod.ready[k]
    {
      if !pod.ready[i] {
        assert pod.ready[i] in pod.ready;
        return false;
      }
    }
    return true;
  }

  predicate Considered(pod: Pod, onlyReady: bool) {
    pod.ip != "" && pod.node != "" && (onlyReady ==> IsReady(pod))
  }

  predicate Matches(p: ContainerPort, port: PortRef) {
    p.number == port.number || p.name == port.name
  }

  function FirstMatch(ports: seq<ContainerPort>, port: PortRef): Option<int> {
    if ports == [] then None
    else if Matches(ports[0], port) then Some(ports[0].number)
    else FirstMatch(ports[1..], port)
  }

  /** The first matching port of every container that has one. */
  function MatchedPorts(containers: seq<Container>, port: PortRef): seq<int> {
    if containers == [] then [] else
      var last := |containers| - 1;
      var found := FirstMatch(containers[last].ports, port);
      MatchedPorts(containers[..last], port) + if found.Some? then [found.value] else []
  }

  function Ports(pod: Pod, port: PortRef, onlyReady: bool): seq<int> {
    if Considered(pod, onlyReady) then MatchedPorts(pod.containers, port) else []
  }

  function Entry(pod: Pod, nodes: Nodes): PodInfo {
    var labels := if pod.node in nodes.labels then nodes.labels[pod.node] else map[];
    PodInfo(pod.ip, pod.name, labels, if nodes.zoneLabel in labels then Some(labels[nodes.zoneLabel]) else None, 1.0)
  }

  function Ip(b: PodInfo): string {
    b.ip
  }

  function Copies(b: PodInfo, n: nat): seq<PodInfo> {
    if n == 0 then [] else Copies(b, n - 1) + [b]
  }

  /** One entry for every container with a matching port. */
  function Entries(port: PortRef, onlyReady: bool, nodes: Nodes): Pod -> seq<PodInfo> {
    pod => Copies(Entry(pod, nodes), |Ports(pod, port, onlyReady)|)
  }

  /** A backend whose node is not found fails the whole lookup. */
  predicate NodeMissing(pod: Pod, port: PortRef, onlyReady: bool, nodes: Nodes) {
    Ports(pod, port, onlyReady) != [] && pod.node !in nodes.labels
  }

  function Gather<S, T>(xs: seq<S>, f: S -> seq<T>): seq<T> {
    if xs == [] then [] else Gather(xs[..|xs| - 1], f) + f(xs[|xs| - 1])
  }

  /** The port of the last pod that has a matching one, and of its last container. */
  function PortOf(pods: seq<Pod>, port: PortRef, onlyReady: bool): int {
    if pods == [] then 0 else
      var ports := Ports(pods[|pods| - 1], port, onlyReady);
      if ports != [] then ports[|ports| - 1] else PortOf(pods[..|pods| - 1], port, onlyReady)
  }

  /** What the lookup may answer for these pods. */
  ghost predicate Answers(pods: seq<Pod>, port: PortRef, onlyReady: bool, nodes: Nodes,
                          r: Option<(seq<PodInfo>, int)>) {
    if exists p <- pods :: NodeMissing(p, port, onlyReady, nodes) then r == None
    else
      && r.Some? && r.value.1 == PortOf(pods, port, onlyReady)
      && IsStableSort(Gather(pods, Entries(port, onlyReady, nodes)), r.value.0, Ip)
  }

  /** The container has the port `number`, which is the one asked for or has the name asked
      for. */
  ghost predicate HasPort(c: Container, port: PortRef, number: int) {
    exists q <- c.ports :: q.number == number && (q.number == port.number || q.name == port.name)
  }

  /** A backend, in terms of its pod, containers and ports: it has an address and a node and
      the readiness asked for, and such a port. */
  ghost predicate IsBackendOn(pod: Pod, port: PortRef, onlyReady: bool, number: int) {
    && pod.ip != "" && pod.node != ""
    && (onlyReady ==> pod.ready != [] && forall r <- pod.ready :: r)
    && exists c <- pod.containers :: HasPort(c, port, number)
  }

  /** The pod is a backend, on whichever port. */
  ghost predicate IsBackendPod(pod: Pod, port: PortRef, onlyReady: bool) {
    exists n: int :: IsBackendOn(pod, port, onlyReady, n)
  }

  ghost predicate AllListed(pods: seq<Pod>, port: PortRef, onlyReady: bool, nodes: Nodes, infos: seq<PodInfo>) {
    forall p <- pods :: IsBackendPod(p, port, onlyReady) ==>
      p.node in nodes.labels && exists b <- infos :: b.ip == p.ip
  }

  ghost predicate OnlyBackends(pods: seq<Pod>, port: PortRef, onlyReady: bool, nodes: Nodes, infos: seq<PodInfo>) {
    forall b <- infos :: exists p <- pods :: IsBackendPod(p, port, onlyReady) && IsEntryOf(b, p, nodes)
  }

  ghost predicate HasBackend(pods: seq<Pod>, port: PortRef, onlyReady: bool) {
    exists p <- pods :: IsBackendPod(p, port, onlyReady)
  }

  ghost predicate PortOfBackend(pods: seq<Pod>, port: PortRef, onlyReady: bool, listed: bool, number: int) {
    if listed then exists p <- pods :: IsBackendOn(p, port, onlyReady, number) else number == 0
  }

  /** The addresses are those of the backends among the pods, each entry is made of the pod
      and the node of one, and the port is one of theirs. */
  ghost predicate ListMeans(pods: seq<Pod>, port: PortRef, onlyReady: bool, nodes: Nodes,
                            infos: seq<PodInfo>, number: int) {
    && AllListed(pods, port, onlyReady, nodes, infos)
    && OnlyBackends(pods, port, onlyReady, nodes, infos)
    && PortOfBackend(pods, port, onlyReady, infos != [], number)
  }

  /** What an answer means; there is none exactly if the node of some backend is missing. */
  ghost predicate AnswerMeans(pods: seq<Pod>, port: PortRef, onlyReady: bool, nodes: Nodes,
                              r: Option<(seq<PodInfo>, int)>) {
    && (r == None <==> exists p <- pods :: IsBackendPod(p, port, onlyReady) && p.node !in nodes.labels)
    && (r.Some? ==> ListMeans(pods, port, onlyReady, nodes, r.value.0, r.value.1))
  }

  /** An entry carries the address and the name of its pod, the labels of its node with the
      zone under the zone label, and the weight one. */
  predicate IsEntryOf(b: PodInfo, p: Pod, nodes: Nodes) {
    && b.ip == p.ip && b.name == p.name && b.weight == 1.0
    && p.node in nodes.labels && b.labels == nodes.labels[p.node]
    && (nodes.zoneLabel in b.labels ==> b.zone == Some(b.labels[nodes.zoneLabel]))
    && (nodes.zoneLabel !in b.labels ==> b.zone == None)
  }

  lemma {:induction false} FirstMatchIff(ports: seq<ContainerPort>, port: PortRef)
    ensures FirstMatch(ports, port) == None <==> forall q <- ports :: q.number != port.number && q.name != port.name
    ensures FirstMatch(ports, port).Some? ==>
              exists q <- ports ::
                q.number == FirstMatch(ports, port).value && (q.number == port.number || q.name == port.name)
  {
    if ports != [] {
      FirstMatchIff(ports[1..], port);
      assert ports == [ports[0]] + ports[1..];
    }
  }

  /** The matched ports are matching ports, and there are some if any port matches. */
  lemma {:induction false} MatchedPortsMean(containers: seq<Container>, port: PortRef)
    ensures forall n <- MatchedPorts(containers, port) :: exists c <- containers :: HasPort(c, port, n)
    ensures forall c <- containers, n: int :: HasPort(c, port, n) ==> MatchedPorts(containers, port) != []
  {
    if containers != [] {
      var last := |containers| - 1;
      MatchedPortsMean(containers[..last], port);
      FirstMatchIff(containers[last].ports, port);
      forall n | n in MatchedPorts(containers, port)
        ensures exists c <- containers :: HasPort(c, port, n)
      {
        if n in MatchedPorts(containers[..last], port) {
          var c :| c in containers[..last] && HasPort(c, port, n);
          assert c in containers;
        } else {
          assert HasPort(containers[last], port, n) && containers[last] in containers;
        }
      }
      forall c, n: int | c in containers && HasPort(c, port, n)
        ensures MatchedPorts(containers, port) != []
      {
        assert c in containers[..last] || c == containers[last];
      }
    }
  }

  lemma {:induction false} PortsMean(pod: Pod, port: PortRef, onlyReady: bool)
    ensures Ports(pod, port, onlyReady) != [] <==> IsBackendPod(pod, port, onlyReady)
    ensures forall n <- Ports(pod, port, onlyReady) :: IsBackendOn(pod, port, onlyReady, n)
  {
    MatchedPortsMean(pod.containers, port);
    forall n | n in Ports(pod, port, onlyReady)
      ensures IsBackendOn(pod, port, onlyReady, n)
    {
      var c :| c in pod.containers && HasPort(c, port, n);
    }
    var ports := Ports(pod, port, onlyReady);
    if ports != [] {
      assert ports[0] in ports && IsBackendOn(pod, port, onlyReady, ports[0]);
    }
    if n: int :| IsBackendOn(pod, port, onlyReady, n) {
      var c :| c in pod.containers && HasPort(c, port, n);
      assert MatchedPorts(pod.containers, port) != [];
      assert Considered(pod, onlyReady);
    }
  }

  // ---- The lookup ----

  method FindPort(ports: seq<ContainerPort>, port: PortRef) returns (r: Option<int>)
    ensures r == FirstMatch(ports, port)
  {
    for i := 0 to |ports|
      invariant FirstMatch(ports, port) == FirstMatch(ports[i..], port)
    {
      if ports[i].number == port.number || ports[i].name == port.name {
        return Some(ports[i].number);
      }
    }
    return None;
  }

  /** The containers of one pod have been gone through. */
  ghost predicate Through(pod: Pod, containers: seq<Container>, port: PortRef, nodes: Nodes,
                          infos: seq<PodInfo>, number: int, infos': seq<PodInfo>, number': int) {
    var ports := MatchedPorts(containers, port);
    && infos' == infos + Copies(Entry(pod, nodes), |ports|)
    && number' == (if ports == [] then number else ports[|ports| - 1])
    && (ports != [] ==> pod.node in nodes.labels)
  }

  lemma {:induction false} NextContainer(pod: Pod, i: nat, port: PortRef, nodes: Nodes,
                                         infos: seq<PodInfo>, number: int, infos': seq<PodInfo>, number': int)
    requires i < |pod.containers|
    requires Through(pod, pod.containers[..i], port, nodes, infos, number, infos', number')
    ensures var found := FirstMatch(pod.containers[i].ports, port);
            if found.None? then Through(pod, pod.containers[..i + 1], port, nodes, infos, number, infos', number')
            else
              && MatchedPorts(pod.containers, port) != []
              && (pod.node in nodes.labels ==>
                    Through(pod, pod.containers[..i + 1], port, nodes, infos, number,
                            infos' + [Entry(pod, nodes)], found.value))
  {
    assert pod.containers[..i + 1][..i] == pod.containers[..i];
    if FirstMatch(pod.containers[i].ports, port).Some? {
      MatchesStay(pod.containers, i + 1, port);
    }
  }

  /** The loop over the containers of one pod. */
  method AddPod(pod: Pod, port: PortRef, nodes: Nodes, infos: seq<PodInfo>, number: int)
    returns (infos': seq<PodInfo>, number': int, missing: bool)
    ensures missing <==> MatchedPorts(pod.containers, port) != [] && pod.node !in nodes.labels
    ensures !missing ==> Through(pod, pod.containers, port, nodes, infos, number, infos', number')
  {
    infos', number', missing := infos, number, false;
    for i := 0 to |pod.containers|
      invariant Through(pod, pod.containers[..i], port, nodes, infos, number, infos', number')
    {
      var found := FindPort(pod.containers[i].ports, port);
      NextContainer(pod, i, port, nodes, infos, number, infos', number');
      if found.Some? {
        number' := found.value;
        if pod.node !in nodes.labels {
          missing := true;
          return;
        }
        infos' := infos' + [Entry(pod, nodes)];
      }
    }
    assert pod.containers[..|pod.containers|] == pod.containers;
  }

  lemma {:induction false} MatchesStay(containers: seq<Container>, i: nat, port: PortRef)
    requires i <= |containers| && MatchedPorts(containers[..i], port) != []
    ensures MatchedPorts(containers, port) != []
    decreases |containers|
  {
    if i < |containers| {
      assert containers[..|containers| - 1][..i] == containers[..i];
      MatchesStay(containers[..|containers| - 1], i, port);
    } else {
      assert containers[..i] == containers;
    }
  }

  ghost predicate Collected(pods: seq<Pod>, port: PortRef, onlyReady: bool, nodes: Nodes,
                            infos: seq<PodInfo>, number: int) {
    && (forall p <- pods :: !NodeMissing(p, port, onlyReady, nodes))
    && infos == Gather(pods, Entries(port, onlyReady, nodes))
    && number == PortOf(pods, port, onlyReady)
  }

  lemma {:induction false} NextPod(pods: seq<Pod>, i: nat, port: PortRef, onlyReady: bool, nodes: Nodes,
                                   infos: seq<PodInfo>, number: int)
    requires i < |pods| && Collected(pods[..i], port, onlyReady, nodes, infos, number)
    ensures !Considered(pods[i], onlyReady) ==> Collected(pods[..i + 1], port, onlyReady, nodes, infos, number)
    ensures forall infos', number' ::
              && Considered(pods[i], onlyReady)
              && Through(pods[i], pods[i].containers, port, nodes, infos, number, infos', number')
              ==> Collected(pods[..i + 1], port, onlyReady, nodes, infos', number')
  {
    var more := pods[..i + 1];
    assert more[..i] == pods[..i] && more[i] == pods[i];
    assert forall p :: p in more ==> p in pods[..i] || p == pods[i];
  }

  /** The loop over the pods. */
  method Collect(pods: seq<Pod>, port: PortRef, onlyReady: bool, nodes: Nodes)
    returns (infos: seq<PodInfo>, number: int, missing: bool)
    ensures missing <==> exists p <- pods :: NodeMissing(p, port, onlyReady, nodes)
    ensures !missing ==> Collected(pods, port, onlyReady, nodes, infos, number)
  {
    infos, number, missing := [], 0, false;
    for i := 0 to |pods|
      invariant !missing && Collected(pods[..i], port, onlyReady, nodes, infos, number)
    {
      NextPod(pods, i, port, onlyReady, nodes, infos, number);
      var skip := pods[i].ip == "" || pods[i].node == "";
      if !skip && onlyReady {
        var ready := PodReady(pods[i]);
        skip := !ready;
      }
      if !skip {
        infos, number, missing := AddPod(pods[i], port, nodes, infos, number);
        if missing {
          assert pods[i] in pods;
          return;
        }
      }
    }
    assert pods[..|pods|] == pods;
  }

  /** `list` is what the API lists for each namespace. */
  method GetPodsInfo(namespaces: seq<string>, list: string -> seq<Pod>, port: PortRef, onlyReady: bool, nodes: Nodes)
    returns (r: Option<(seq<PodInfo>, int)>)
    ensures Answers(Gather(namespaces, list), port, onlyReady, nodes, r)
    ensures forall p :: p in Gather(namespaces, list) <==> exists n <- namespaces :: p in list(n)
    ensures AnswerMeans(Gather(namespaces, list), port, onlyReady, nodes, r)
  {
    var pods: seq<Pod> := [];
    for i := 0 to |namespaces|
      invariant pods == Gather(namespaces[..i], list)
    {
      assert namespaces[..i + 1][..i] == namespaces[..i];
      pods := pods + list(namespaces[i]);
    }
    assert namespaces[..|namespaces|] == namespaces;
    GatheredIff(namespaces, list);
    var infos, number, missing := Collect(pods, port, onlyReady, nodes);
    if missing {
      AnswersMean(pods, port, onlyReady, nodes, None);
      return None;
    }
    infos := SortStable(infos, Ip);
    r := Some((infos, number));
    AnswersMean(pods, port, onlyReady, nodes, r);
  }

  lemma {:induction false} GatheredIff<S, T(!new)>(xs: seq<S>, f: S -> seq<T>)
    ensures forall y :: y in Gather(xs, f) <==> exists x <- xs :: y in f(x)
  {
    forall y
      ensures y in Gather(xs, f) <==> exists x <- xs :: y in f(x)
    {
      if y in Gather(xs, f) {
        GatherMember(xs, f, y);
      }
      if x :| x in xs && y in f(x) {
        MemberGathered(xs, f, x, y);
      }
    }
  }

  lemma {:induction false} MemberGathered<S, T>(xs: seq<S>, f: S -> seq<T>, x: S, y: T)
    requires x in xs && y in f(x)
    ensures y in Gather(xs, f)
  {
    if xs[|xs| - 1] != x {
      MemberGathered(xs[..|xs| - 1], f, x, y);
    }
  }

  lemma {:induction false} EntryIsThere(pods: seq<Pod>, port: PortRef, onlyReady: bool, nodes: Nodes, p: Pod)
    requires p in pods && Ports(p, port, onlyReady) != []
    ensures Entry(p, nodes) in Gather(pods, Entries(port, onlyReady, nodes))
  {
    var f := Entries(port, onlyReady, nodes);
    CopiesAreEqual(Entry(p, nodes), |Ports(p, port, onlyReady)|);
    assert f(p)[0] in f(p);
    MemberGathered(pods, f, p, Entry(p, nodes));
  }

  lemma BackendsHavePorts(pods: seq<Pod>, port: PortRef, onlyReady: bool)
    ensures forall p <- pods :: Ports(p, port, onlyReady) != [] <==> IsBackendPod(p, port, onlyReady)
    ensures forall p <- pods, n <- Ports(p, port, onlyReady) :: IsBackendOn(p, port, onlyReady, n)
  {
    forall p | p in pods
      ensures Ports(p, port, onlyReady) != [] <==> IsBackendPod(p, port, onlyReady)
      ensures forall n <- Ports(p, port, onlyReady) :: IsBackendOn(p, port, onlyReady, n)
    {
      PortsMean(p, port, onlyReady);
    }
  }

  lemma {:induction false} AddressesMean(pods: seq<Pod>, port: PortRef, onlyReady: bool, nodes: Nodes,
                                         infos: seq<PodInfo>)
    requires multiset(infos) == multiset(Gather(pods, Entries(port, onlyReady, nodes)))
    requires forall p <- pods :: !NodeMissing(p, port, onlyReady, nodes)
    ensures AllListed(pods, port, onlyReady, nodes, infos)
  {
    SameMembers(infos, Gather(pods, Entries(port, onlyReady, nodes)));
    BackendsHavePorts(pods, port, onlyReady);
    forall p | p in pods && IsBackendPod(p, port, onlyReady)
      ensures p.node in nodes.labels && exists b <- infos :: b.ip == p.ip
    {
      EntryIsThere(pods, port, onlyReady, nodes, p);
    }
  }

  lemma {:induction false} EntriesMean(pods: seq<Pod>, port: PortRef, onlyReady: bool, nodes: Nodes,
                                       infos: seq<PodInfo>)
    requires multiset(infos) == multiset(Gather(pods, Entries(port, onlyReady, nodes)))
    requires forall p <- pods :: !NodeMissing(p, port, onlyReady, nodes)
    ensures OnlyBackends(pods, port, onlyReady, nodes, infos)
  {
    SameMembers(infos, Gather(pods, Entries(port, onlyReady, nodes)));
    forall b | b in infos
      ensures exists p <- pods :: IsBackendPod(p, port, onlyReady) && IsEntryOf(b, p, nodes)
    {
      EntryOrigin(pods, port, onlyReady, nodes, b);
      var p :| p in pods && Ports(p, port, onlyReady) != [] && b == Entry(p, nodes);
      PortsMean(p, port, onlyReady);
      assert !NodeMissing(p, port, onlyReady, nodes);
    }
  }

  lemma {:induction false} PortMeans(pods: seq<Pod>, port: PortRef, onlyReady: bool)
    ensures PortOfBackend(pods, port, onlyReady, HasBackend(pods, port, onlyReady), PortOf(pods, port, onlyReady))
  {
    PortOrigin(pods, port, onlyReady);
    BackendsHavePorts(pods, port, onlyReady);
  }

  ghost predicate HasSome(c: Container, port: PortRef) {
    exists q <- c.ports :: q.number == port.number || q.name == port.name
  }

  /** `ports[m]` is the first one that is asked for. */
  predicate IsFirstAsked(ports: seq<ContainerPort>, port: PortRef, m: int) {
    && 0 <= m < |ports| && (ports[m].number == port.number || ports[m].name == port.name)
    && forall i :: 0 <= i < m ==> ports[i].number != port.number && ports[i].name != port.name
  }

  lemma {:induction false} FirstMatchIsFirst(ports: seq<ContainerPort>, port: PortRef) returns (m: int)
    requires exists q <- ports :: q.number == port.number || q.name == port.name
    ensures IsFirstAsked(ports, port, m) && FirstMatch(ports, port) == Some(ports[m].number)
  {
    if ports[0].number == port.number || ports[0].name == port.name {
      m := 0;
    } else {
      assert ports == [ports[0]] + ports[1..];
      m := FirstMatchIsFirst(ports[1..], port);
      m := m + 1;
    }
  }

  ghost function Asked(containers: seq<Container>, port: PortRef): set<int> {
    set i | 0 <= i < |containers| && HasSome(containers[i], port)
  }

  lemma AskedGrows(containers: seq<Container>, c: Container, port: PortRef)
    ensures Asked(containers + [c], port) == Asked(containers, port) + if HasSome(c, port) then {|containers|} else {}
  {
  }

  /** A pod has an entry for every container with such a port. */
  lemma {:induction false} EntriesPerContainer(containers: seq<Container>, port: PortRef)
    ensures |MatchedPorts(containers, port)| == |Asked(containers, port)|
  {
    if containers == [] {
      assert Asked(containers, port) == {};
    } else {
      var last := |containers| - 1;
      EntriesPerContainer(containers[..last], port);
      FirstMatchIff(containers[last].ports, port);
      assert containers == containers[..last] + [containers[last]];
      AskedGrows(containers[..last], containers[last], port);
      Cardinality(Asked(containers[..last], port), last);
    }
  }

  /** The first port asked for of the last container that has one. */
  ghost predicate IsLastAsked(containers: seq<Container>, port: PortRef, i: int, m: int) {
    && 0 <= i < |containers| && IsFirstAsked(containers[i].ports, port, m)
    && forall j :: i < j < |containers| ==> !HasSome(containers[j], port)
  }

  lemma {:induction false} LastMatched(containers: seq<Container>, port: PortRef) returns (i: int, m: int)
    requires MatchedPorts(containers, port) != []
    ensures IsLastAsked(containers, port, i, m)
    ensures var ports := MatchedPorts(containers, port); containers[i].ports[m].number == ports[|ports| - 1]
  {
    i := |containers| - 1;
    FirstMatchIff(containers[i].ports, port);
    if HasSome(containers[i], port) {
      m := FirstMatchIsFirst(containers[i].ports, port);
    } else {
      var init := containers[..i];
      assert containers == init + [containers[i]];
      i, m := LastMatched(init, port);
    }
  }

  /** The port of the answer is that of the last backend among the pods. */
  lemma {:induction false} PortIsOfLast(pods: seq<Pod>, port: PortRef, onlyReady: bool) returns (k: int, i: int, m: int)
    requires exists p <- pods :: IsBackendPod(p, port, onlyReady)
    ensures 0 <= k < |pods| && IsBackendPod(pods[k], port, onlyReady)
    ensures forall j :: k < j < |pods| ==> !IsBackendPod(pods[j], port, onlyReady)
    ensures IsLastAsked(pods[k].containers, port, i, m)
    ensures PortOf(pods, port, onlyReady) == pods[k].containers[i].ports[m].number
  {
    k := |pods| - 1;
    PortsMean(pods[k], port, onlyReady);
    if Ports(pods[k], port, onlyReady) != [] {
      i, m := LastMatched(pods[k].containers, port);
    } else {
      var init := pods[..k];
      assert pods == init + [pods[k]];
      k, i, m := PortIsOfLast(init, port, onlyReady);
    }
  }

  lemma {:induction false} ListIsMeant(pods: seq<Pod>, port: PortRef, onlyReady: bool, nodes: Nodes,
                                       infos: seq<PodInfo>)
    requires multiset(infos) == multiset(Gather(pods, Entries(port, onlyReady, nodes)))
    requires forall p <- pods :: !NodeMissing(p, port, onlyReady, nodes)
    ensures ListMeans(pods, port, onlyReady, nodes, infos, PortOf(pods, port, onlyReady))
  {
    AddressesMean(pods, port, onlyReady, nodes, infos);
    EntriesMean(pods, port, onlyReady, nodes, infos);
    PortMeans(pods, port, onlyReady);
    SomeListed(pods, port, onlyReady, nodes, infos);
  }

  lemma SomeListed(pods: seq<Pod>, port: PortRef, onlyReady: bool, nodes: Nodes, infos: seq<PodInfo>)
    requires AllListed(pods, port, onlyReady, nodes, infos) && OnlyBackends(pods, port, onlyReady, nodes, infos)
    ensures infos != [] <==> HasBackend(pods, port, onlyReady)
  {
    if infos != [] {
      assert infos[0] in infos;
    }
  }

  /** Whatever the lookup may answer means that. */
  lemma {:induction false} AnswersMean(pods: seq<Pod>, port: PortRef, onlyReady: bool, nodes: Nodes,
                                       r: Option<(seq<PodInfo>, int)>)
    requires Answers(pods, port, onlyReady, nodes, r)
    ensures AnswerMeans(pods, port, onlyReady, nodes, r)
  {
    BackendsHavePorts(pods, port, onlyReady);
    if r.Some? {
      ListIsMeant(pods, port, onlyReady, nodes, r.value.0);
    }
  }

  // ---- A port given by its number ----

  /** The reference to a port by number leaves the name empty. */
  function ByNumber(number: int): PortRef {
    PortRef(number, "")
  }

  /** Every port without a name and of another number stands behind one of that number. */
  ghost predicate NumberFirst(c: Container, number: int) {
    forall i :: 0 <= i < |c.ports| && c.ports[i].name == "" && c.ports[i].number != number ==>
      exists j :: 0 <= j < i && c.ports[j].number == number
  }

  /** An empty name matches ports without a name: a container is taken for the port of that
      number, or not at all, exactly if none of them stands before it. */
  lemma {:induction false} FirstIsNumberIff(c: Container, number: int)
    ensures (FirstMatch(c.ports, ByNumber(number)).Some? ==> FirstMatch(c.ports, ByNumber(number)).value == number)
       <==> NumberFirst(c, number)
  {
    FirstMatchIff(c.ports, ByNumber(number));
    if HasSome(c, ByNumber(number)) {
      var m := FirstMatchIsFirst(c.ports, ByNumber(number));
      if c.ports[m].number != number {
        assert !NumberFirst(c, number);
      }
    }
  }

  ghost predicate AllAre(numbers: seq<int>, number: int) {
    forall i :: 0 <= i < |numbers| ==> numbers[i] == number
  }

  ghost predicate NumbersFirst(containers: seq<Container>, number: int) {
    forall i :: 0 <= i < |containers| ==> NumberFirst(containers[i], number)
  }

  lemma AllAreConcat(a: seq<int>, b: seq<int>, number: int)
    ensures AllAre(a + b, number) <==> AllAre(a, number) && AllAre(b, number)
  {
    assert forall i :: 0 <= i < |a| ==> a[i] == (a + b)[i];
    assert forall i :: 0 <= i < |b| ==> b[i] == (a + b)[|a| + i];
  }

  /** A pod is listed for ports of that number only exactly if this holds for all its
      containers. */
  lemma {:induction false} ListedByNumberIff(containers: seq<Container>, number: int)
    ensures AllAre(MatchedPorts(containers, ByNumber(number)), number) <==> NumbersFirst(containers, number)
  {
    if containers != [] {
      var init, last := containers[..|containers| - 1], containers[|containers| - 1];
      ListedByNumberIff(init, number);
      FirstIsNumberIff(last, number);
      var found := FirstMatch(last.ports, ByNumber(number));
      var own := if found.Some? then [found.value] else [];
      AllAreConcat(MatchedPorts(init, ByNumber(number)), own, number);
      assert AllAre(own, number) <==> NumberFirst(last, number) by {
        assert own != [] ==> own[0] == found.value;
      }
      assert NumbersFirst(containers, number) <==> NumbersFirst(init, number) && NumberFirst(last, number) by {
        assert forall i :: 0 <= i < |init| ==> init[i] == containers[i];
      }
    }
  }

  lemma {:induction false} PodByNumber(p: Pod, number: int, onlyReady: bool)
    requires Considered(p, onlyReady) ==> NumbersFirst(p.containers, number)
    ensures AllAre(Ports(p, ByNumber(number), onlyReady), number)
    ensures IsBackendPod(p, ByNumber(number), onlyReady) <==> Considered(p, onlyReady) && HasNumber(p, number)
  {
    PortsMean(p, ByNumber(number), onlyReady);
    if Considered(p, onlyReady) {
      ListedByNumberIff(p.containers, number);
      if HasNumber(p, number) {
        var c :| c in p.containers && exists q <- c.ports :: q.number == number;
        assert HasPort(c, ByNumber(number), number);
        assert IsBackendOn(p, ByNumber(number), onlyReady, number);
      }
      var ports := Ports(p, ByNumber(number), onlyReady);
      if ports != [] {
        assert ports[0] in ports && ports[0] == number;
      }
    }
  }

  ghost predicate HasNumber(p: Pod, number: int) {
    exists c <- p.containers :: exists q <- c.ports :: q.number == number
  }

  /** Then every answer has that port, and lists exactly the pods that have it. */
  lemma {:induction false} ByNumberIsRight(pods: seq<Pod>, number: int, onlyReady: bool, nodes: Nodes,
                                           infos: seq<PodInfo>, answered: int)
    requires forall p <- pods :: Considered(p, onlyReady) ==> NumbersFirst(p.containers, number)
    requires Answers(pods, ByNumber(number), onlyReady, nodes, Some((infos, answered)))
    ensures infos != [] ==> answered == number
    ensures forall p <- pods ::
              IsBackendPod(p, ByNumber(number), onlyReady) <==> Considered(p, onlyReady) && HasNumber(p, number)
  {
    forall p | p in pods
      ensures AllAre(Ports(p, ByNumber(number), onlyReady), number)
      ensures IsBackendPod(p, ByNumber(number), onlyReady) <==> Considered(p, onlyReady) && HasNumber(p, number)
    {
      PodByNumber(p, number, onlyReady);
    }
    if infos != [] {
      SomeHasPort(pods, ByNumber(number), onlyReady, nodes, infos);
      PortOrigin(pods, ByNumber(number), onlyReady);
    }
  }

  lemma SomeHasPort(pods: seq<Pod>, port: PortRef, onlyReady: bool, nodes: Nodes, infos: seq<PodInfo>)
    requires multiset(infos) == multiset(Gather(pods, Entries(port, onlyReady, nodes))) && infos != []
    ensures exists p <- pods :: Ports(p, port, onlyReady) != []
  {
    SameMembers(infos, Gather(pods, Entries(port, onlyReady, nodes)));
    assert infos[0] in infos;
    EntryOrigin(pods, port, onlyReady, nodes, infos[0]);
  }

  /** Otherwise it may have another one: a pod with the wanted port behind an unnamed one is
      listed for that. */
  lemma {:induction false} WrongPortAnswered(ip: string, name: string, node: string, other: int, number: int,
                                             nodes: Nodes)
    requires ip != "" && node in nodes.labels && node != "" && other != number
    ensures var c := Container([ContainerPort(other, ""), ContainerPort(number, "web")]);
            var pod := Pod("default", name, ip, node, [c], [true]);
            Answers([pod], ByNumber(number), true, nodes, Some(([Entry(pod, nodes)], other)))
  {
    var c := Container([ContainerPort(other, ""), ContainerPort(number, "web")]);
    var pod := Pod("default", name, ip, node, [c], [true]);
    assert MatchedPorts([c][..0], ByNumber(number)) == [];
    assert Ports(pod, ByNumber(number), true) == [other];
    GatherOne(pod, Entries(ByNumber(number), true, nodes));
    assert Copies(Entry(pod, nodes), 1) == Copies(Entry(pod, nodes), 0) + [Entry(pod, nodes)] == [Entry(pod, nodes)];
    assert IsStableSort([Entry(pod, nodes)], [Entry(pod, nodes)], Ip);
  }

  // ---- Reordering ----

  lemma {:induction false} GatherConcat<S, T>(xs: seq<S>, ys: seq<S>, f: S -> seq<T>)
    ensures Gather(xs + ys, f) == Gather(xs, f) + Gather(ys, f)
  {
    if ys == [] {
      assert xs + ys == xs;
    } else {
      assert (xs + ys)[..|xs + ys| - 1] == xs + ys[..|ys| - 1];
      GatherConcat(xs, ys[..|ys| - 1], f);
    }
  }

  lemma {:induction false} GatherOne<S, T>(x: S, f: S -> seq<T>)
    ensures Gather([x], f) == f(x)
  {
    assert [x][..0] == [];
    assert Gather<S, T>([x][..0], f) == [];
  }

  lemma {:induction false} GatherMember<S, T>(xs: seq<S>, f: S -> seq<T>, y: T)
    requires y in Gather(xs, f)
    ensures exists x <- xs :: y in f(x)
  {
    var last := |xs| - 1;
    if y in f(xs[last]) {
      assert xs[last] in xs;
    } else {
      GatherMember(xs[..last], f, y);
      var x :| x in xs[..last] && y in f(x);
      assert x in xs;
    }
  }

  /** Gathering in any order from answers in any order gathers the same elements. */
  lemma {:induction false} GatherPermutes<S, T>(xs: seq<S>, ys: seq<S>, f: S -> seq<T>, g: S -> seq<T>)
    requires multiset(xs) == multiset(ys)
    requires forall x <- xs :: multiset(f(x)) == multiset(g(x))
    ensures multiset(Gather(xs, f)) == multiset(Gather(ys, g))
    decreases |xs|
  {
    SameLength(xs, ys);
    if xs != [] {
      var last := |xs| - 1;
      var i := Position(xs, ys);
      var rest := ys[..i] + ys[i + 1..];
      RemoveAt(ys, i);
      assert ys == ys[..i] + [ys[i]] + ys[i + 1..];
      assert xs == xs[..last] + [xs[last]];
      GatherPermutes(xs[..last], rest, f, g);
      GatherConcat(ys[..i], [ys[i]], g);
      GatherConcat(ys[..i] + [ys[i]], ys[i + 1..], g);
      GatherConcat(ys[..i], ys[i + 1..], g);
      GatherOne(ys[i], g);
    }
  }

  lemma Position<S>(xs: seq<S>, ys: seq<S>) returns (i: nat)
    requires multiset(xs) == multiset(ys) && xs != []
    ensures i < |ys| && ys[i] == xs[|xs| - 1]
  {
    assert xs[|xs| - 1] in multiset(ys);
    i :| 0 <= i < |ys| && ys[i] == xs[|xs| - 1];
  }

  // ---- When the order does not matter ----

  /** Backends with one IP look the same. */
  ghost predicate IpsIdentify(pods: seq<Pod>, port: PortRef, onlyReady: bool, nodes: Nodes) {
    forall p <- pods, q <- pods ::
      Ports(p, port, onlyReady) != [] && Ports(q, port, onlyReady) != [] && p.ip == q.ip
      ==> Entry(p, nodes) == Entry(q, nodes)
  }

  /** The last matching port of every backend is the same. */
  ghost predicate OnePort(pods: seq<Pod>, port: PortRef, onlyReady: bool) {
    forall p <- pods, q <- pods ::
      var ps, qs := Ports(p, port, onlyReady), Ports(q, port, onlyReady);
      ps != [] && qs != [] ==> ps[|ps| - 1] == qs[|qs| - 1]
  }

  lemma {:induction false} CopiesAreEqual(b: PodInfo, n: nat)
    ensures |Copies(b, n)| == n && forall x <- Copies(b, n) :: x == b
  {
    if n > 0 {
      CopiesAreEqual(b, n - 1);
    }
  }

  /** Entries come from the pods that have a matching port. */
  lemma {:induction false} EntryOrigin(pods: seq<Pod>, port: PortRef, onlyReady: bool, nodes: Nodes, b: PodInfo)
    requires b in Gather(pods, Entries(port, onlyReady, nodes))
    ensures exists p <- pods :: Ports(p, port, onlyReady) != [] && b == Entry(p, nodes)
  {
    var f := Entries(port, onlyReady, nodes);
    GatherMember(pods, f, b);
    var p :| p in pods && b in f(p);
    CopiesAreEqual(Entry(p, nodes), |Ports(p, port, onlyReady)|);
  }

  lemma {:induction false} IpsGiveKeys(pods: seq<Pod>, port: PortRef, onlyReady: bool, nodes: Nodes)
    requires IpsIdentify(pods, port, onlyReady, nodes)
    ensures KeyIdentifies(multiset(Gather(pods, Entries(port, onlyReady, nodes))), Ip)
  {
    var all := Gather(pods, Entries(port, onlyReady, nodes));
    forall x, y | x in multiset(all) && y in multiset(all) && Ip(x) == Ip(y)
      ensures x == y
    {
      EntryOrigin(pods, port, onlyReady, nodes, x);
      EntryOrigin(pods, port, onlyReady, nodes, y);
    }
  }

  /** The port found is that of some backend, or zero without any. */
  lemma {:induction false} PortOrigin(pods: seq<Pod>, port: PortRef, onlyReady: bool)
    ensures (forall p <- pods :: Ports(p, port, onlyReady) == []) ==> PortOf(pods, port, onlyReady) == 0
    ensures (exists p <- pods :: Ports(p, port, onlyReady) != []) ==>
              exists p <- pods ::
                var ps := Ports(p, port, onlyReady); ps != [] && ps[|ps| - 1] == PortOf(pods, port, onlyReady)
  {
    if pods != [] {
      var last := |pods| - 1;
      var p := pods[last];
      assert p in pods;
      if Ports(p, port, onlyReady) == [] {
        PortOrigin(pods[..last], port, onlyReady);
        assert forall q :: q in pods <==> q in pods[..last] || q == p;
      }
    }
  }

  lemma {:induction false} SamePort(a: seq<Pod>, b: seq<Pod>, port: PortRef, onlyReady: bool)
    requires multiset(a) == multiset(b) && OnePort(a, port, onlyReady)
    ensures PortOf(a, port, onlyReady) == PortOf(b, port, onlyReady)
  {
    SameMembers(a, b);
    PortOrigin(a, port, onlyReady);
    PortOrigin(b, port, onlyReady);
  }

  /** In any order of the same pods the answer is the same. */
  lemma {:induction false} ReorderedPods(a: seq<Pod>, b: seq<Pod>, port: PortRef, onlyReady: bool, nodes: Nodes,
                                         r: Option<(seq<PodInfo>, int)>, s: Option<(seq<PodInfo>, int)>)
    requires multiset(a) == multiset(b)
    requires IpsIdentify(a, port, onlyReady, nodes) && OnePort(a, port, onlyReady)
    requires Answers(a, port, onlyReady, nodes, r) && Answers(b, port, onlyReady, nodes, s)
    ensures r == s
  {
    SameMembers(a, b);
    if r.Some? {
      var f := Entries(port, onlyReady, nodes);
      GatherPermutes(a, b, f, f);
      IpsGiveKeys(a, port, onlyReady, nodes);
      SortedIsUnique(r.value.0, s.value.0, Ip);
      SamePort(a, b, port, onlyReady);
    }
  }

  /** Listing the namespaces in another order, and the pods of each in another order,
      changes nothing. */
  lemma {:induction false} OrderIndependence(
    ns: seq<string>, ms: seq<string>, list: string -> seq<Pod>, other: string -> seq<Pod>,
    port: PortRef, onlyReady: bool, nodes: Nodes,
    r: Option<(seq<PodInfo>, int)>, s: Option<(seq<PodInfo>, int)>)
    requires multiset(ns) == multiset(ms)
    requires forall n <- ns :: multiset(list(n)) == multiset(other(n))
    requires IpsIdentify(Gather(ns, list), port, onlyReady, nodes) && OnePort(Gather(ns, list), port, onlyReady)
    requires Answers(Gather(ns, list), port, onlyReady, nodes, r)
    requires Answers(Gather(ms, other), port, onlyReady, nodes, s)
    ensures r == s
  {
    GatherPermutes(ns, ms, list, other);
    ReorderedPods(Gather(ns, list), Gather(ms, other), port, onlyReady, nodes, r, s);
  }

  // ---- When it does ----

  /** The first of the backends with its IP stays the first. */
  lemma {:induction false} FirstStaysFirst(p: Pod, rest: seq<Pod>, port: PortRef, onlyReady: bool, nodes: Nodes,
                                           r: seq<PodInfo>)
    requires Ports(p, port, onlyReady) != []
    requires IsStableSort(Gather([p] + rest, Entries(port, onlyReady, nodes)), r, Ip)
    ensures var same := WithKey(r, Ip, p.ip); same != [] && same[0] == Entry(p, nodes)
  {
    var f := Entries(port, onlyReady, nodes);
    GatherConcat([p], rest, f);
    GatherOne(p, f);
    CopiesAreEqual(Entry(p, nodes), |Ports(p, port, onlyReady)|);
    var all := Gather([p] + rest, f);
    var own := Copies(Entry(p, nodes), |Ports(p, port, onlyReady)|);
    assert own[0] in own && all[0] == own[0];
    assert WithKey(all, Ip, p.ip) == WithKey(r, Ip, p.ip);
  }

  ghost predicate Differ(a: seq<Pod>, b: seq<Pod>, port: PortRef, onlyReady: bool, nodes: Nodes) {
    forall r, s :: Answers(a, port, onlyReady, nodes, r) && Answers(b, port, onlyReady, nodes, s) ==> r != s
  }

  lemma {:induction false} SharedIpShows(pods: seq<Pod>, p: Pod, q: Pod, port: PortRef, onlyReady: bool, nodes: Nodes)
    returns (a: seq<Pod>, b: seq<Pod>)
    requires forall x <- pods :: !NodeMissing(x, port, onlyReady, nodes)
    requires p in pods && q in pods && Ports(p, port, onlyReady) != [] && Ports(q, port, onlyReady) != []
    requires p.ip == q.ip && Entry(p, nodes) != Entry(q, nodes)
    ensures multiset(a) == multiset(pods) == multiset(b) && Differ(a, b, port, onlyReady, nodes)
  {
    var rest := SetApart(pods, p, q);
    a, b := [p] + ([q] + rest), [q] + ([p] + rest);
    assert a == [p, q] + rest && b == [q, p] + rest;
    SameMembers(a, pods);
    SameMembers(b, pods);
    forall r, s | Answers(a, port, onlyReady, nodes, r) && Answers(b, port, onlyReady, nodes, s)
      ensures r != s
    {
      FirstStaysFirst(p, [q] + rest, port, onlyReady, nodes, r.value.0);
      FirstStaysFirst(q, [p] + rest, port, onlyReady, nodes, s.value.0);
    }
  }

  lemma {:induction false} OtherPortShows(pods: seq<Pod>, p: Pod, q: Pod, port: PortRef, onlyReady: bool, nodes: Nodes)
    returns (a: seq<Pod>, b: seq<Pod>)
    requires forall x <- pods :: !NodeMissing(x, port, onlyReady, nodes)
    requires p in pods && q in pods && Ports(p, port, onlyReady) != [] && Ports(q, port, onlyReady) != []
    requires var ps, qs := Ports(p, port, onlyReady), Ports(q, port, onlyReady); ps[|ps| - 1] != qs[|qs| - 1]
    ensures multiset(a) == multiset(pods) == multiset(b) && Differ(a, b, port, onlyReady, nodes)
  {
    var rest := SetApart(pods, p, q);
    a, b := rest + [p, q], rest + [q, p];
    SameMembers(a, pods);
    SameMembers(b, pods);
    assert a[|a| - 1] == q && b[|b| - 1] == p;
    LastPodGivesPort(a, port, onlyReady);
    LastPodGivesPort(b, port, onlyReady);
    PortsDiffer(a, b, port, onlyReady, nodes);
  }

  lemma {:induction false} PortsDiffer(a: seq<Pod>, b: seq<Pod>, port: PortRef, onlyReady: bool, nodes: Nodes)
    requires forall x <- a :: !NodeMissing(x, port, onlyReady, nodes)
    requires PortOf(a, port, onlyReady) != PortOf(b, port, onlyReady)
    ensures Differ(a, b, port, onlyReady, nodes)
  {
  }

  lemma {:induction false} LastPodGivesPort(pods: seq<Pod>, port: PortRef, onlyReady: bool)
    requires pods != [] && Ports(pods[|pods| - 1], port, onlyReady) != []
    ensures var ps := Ports(pods[|pods| - 1], port, onlyReady); PortOf(pods, port, onlyReady) == ps[|ps| - 1]
  {
  }

  /** No order of these pods gives another answer. */
  ghost predicate OrderIrrelevant(pods: seq<Pod>, port: PortRef, onlyReady: bool, nodes: Nodes) {
    forall a, b, r, s ::
      && multiset(a) == multiset(pods) == multiset(b)
      && Answers(a, port, onlyReady, nodes, r) && Answers(b, port, onlyReady, nodes, s)
      ==> r == s
  }

  /** The order in which pods are listed is irrelevant exactly if backends that share an IP
      look the same and the last matching ports of all backends agree. */
  lemma {:induction false} OrderIrrelevantIff(pods: seq<Pod>, port: PortRef, onlyReady: bool, nodes: Nodes)
    requires forall p <- pods :: !NodeMissing(p, port, onlyReady, nodes)
    ensures OrderIrrelevant(pods, port, onlyReady, nodes)
       <==> IpsIdentify(pods, port, onlyReady, nodes) && OnePort(pods, port, onlyReady)
  {
    if IpsIdentify(pods, port, onlyReady, nodes) && OnePort(pods, port, onlyReady) {
      forall a, b, r, s |
        && multiset(a) == multiset(pods) == multiset(b)
        && Answers(a, port, onlyReady, nodes, r) && Answers(b, port, onlyReady, nodes, s)
        ensures r == s
      {
        SameMembers(a, pods);
        ReorderedPods(a, b, port, onlyReady, nodes, r, s);
      }
    } else {
      var a, b := SomeOrdersDiffer(pods, port, onlyReady, nodes);
      var r := AnswerExists(a, port, onlyReady, nodes);
      var s := AnswerExists(b, port, onlyReady, nodes);
    }
  }

  lemma {:induction false} SomeOrdersDiffer(pods: seq<Pod>, port: PortRef, onlyReady: bool, nodes: Nodes)
    returns (a: seq<Pod>, b: seq<Pod>)
    requires forall p <- pods :: !NodeMissing(p, port, onlyReady, nodes)
    requires !IpsIdentify(pods, port, onlyReady, nodes) || !OnePort(pods, port, onlyReady)
    ensures multiset(a) == multiset(pods) == multiset(b) && Differ(a, b, port, onlyReady, nodes)
  {
    if !IpsIdentify(pods, port, onlyReady, nodes) {
      var p, q :|
        && p in pods && q in pods && Ports(p, port, onlyReady) != [] && Ports(q, port, onlyReady) != []
        && p.ip == q.ip && Entry(p, nodes) != Entry(q, nodes);
      a, b := SharedIpShows(pods, p, q, port, onlyReady, nodes);
    } else {
      var p, q :|
        && p in pods && q in pods && Ports(p, port, onlyReady) != [] && Ports(q, port, onlyReady) != []
        && var ps, qs := Ports(p, port, onlyReady), Ports(q, port, onlyReady); ps[|ps| - 1] != qs[|qs| - 1];
      a, b := OtherPortShows(pods, p, q, port, onlyReady, nodes);
    }
  }

  lemma {:induction false} AnswerExists(pods: seq<Pod>, port: PortRef, onlyReady: bool, nodes: Nodes)
    returns (r: Option<(seq<PodInfo>, int)>)
    ensures Answers(pods, port, onlyReady, nodes, r)
  {
    if exists p <- pods :: NodeMissing(p, port, onlyReady, nodes) {
      r := None;
    } else {
      var sorted := StableSortExists(Gather(pods, Entries(port, onlyReady, nodes)), Ip);
      r := Some((sorted, PortOf(pods, port, onlyReady)));
    }
  }
}
