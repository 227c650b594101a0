/** The life of the cluster object and of its cluster-scoped resources: every API call of
    the operator is a step, after each of which it may crash or give up, while users
    create, edit and delete the object. */
module Finalizers {
  import opened Text

  /** The operator's four finalizers, and those that others put on the object. */
  datatype Finalizer = ROLE | BINDING | MONITOR | DASHBOARD | Foreign(name: string)

  const OURS := {ROLE, BINDING, MONITOR, DASHBOARD}

  /** `version` is the resource version, used up by one write. */
  datatype Object = Object(version: nat, deleting: bool, finalizers: set<Finalizer>)

  /** Where the operator's one worker is. `base` is its copy of the object as last read
      or written; `monitor` says whether the spec asks for the monitoring finalizer. */
  datatype Pc =
    | Idle
    | Adding(base: Object, monitor: bool)
    | CreatingRole
    | CreatingBinding
    | DeletingRole(base: Object)
    | DroppingRole(base: Object)
    | DeletingBinding(base: Object)
    | DroppingBinding(base: Object)
    | DroppingMonitor(base: Object)
    | DroppingDashboard(base: Object)
    | OrphanRole
    | OrphanBinding

  /** `queued` says that a reconcile is waiting in the work queue. */
  datatype State = State(cluster: Option<Object>, role: bool, binding: bool, versions: nat, queued: bool, pc: Pc)

  /** The API server stores an object; one that is being deleted goes with its last
      finalizer. The operator watches the object, so every write queues a reconcile. */
  function Stored(s: State, deleting: bool, finalizers: set<Finalizer>): State {
    s.(cluster := if deleting && finalizers == {} then None else Some(Object(s.versions, deleting, finalizers)),
       versions := s.versions + 1, queued := true)
  }

  /** The operator watches the cluster-scoped resources too. */
  function WithRole(s: State, exists_: bool): State {
    s.(role := exists_, queued := s.queued || s.role != exists_)
  }

  function WithBinding(s: State, exists_: bool): State {
    s.(binding := exists_, queued := s.queued || s.binding != exists_)
  }

  /** An error ends the pass; one that reaches the work queue has the pass repeated. */
  function Ended(s: State, reported: bool): State {
    s.(pc := Idle, queued := s.queued || reported)
  }

  /** An update with the version of `base`: refused unless that is the current version. */
  function Updated(s: State, base: Object, finalizers: set<Finalizer>, next: Object -> Pc, reported: bool): State {
    if s.cluster.Some? && s.cluster.value.version == base.version then
      Stored(s, base.deleting, finalizers).(pc := next(Object(s.versions, base.deleting, finalizers)))
    else Ended(s, reported)
  }

  /** The errors of removing these two are swallowed: the cleanup then returns none. */
  predicate Swallows(finalizer: Finalizer) {
    finalizer == MONITOR || finalizer == DASHBOARD
  }

  /** `removeFinalizer`: no call at all if the finalizer is not there. */
  function Drop(s: State, base: Object, finalizer: Finalizer, next: Object -> Pc): State {
    if finalizer in base.finalizers then
      Updated(s, base, base.finalizers - {finalizer}, next, !Swallows(finalizer))
    else s.(pc := next(base))
  }

  function Wanted(base: Object, monitor: bool): set<Finalizer> {
    base.finalizers + {ROLE, BINDING} + if monitor then {MONITOR} else {}
  }

  /** The next call of the worker, when it succeeds. */
  function Go(s: State, monitor: bool): State {
    match s.pc
    case Idle =>
      if !s.queued then s
      else if s.cluster.None? then s.(queued := false, pc := OrphanRole)
      else if s.cluster.value.deleting then s.(queued := false, pc := DeletingRole(s.cluster.value))
      else if Wanted(s.cluster.value, monitor) == s.cluster.value.finalizers then
        s.(queued := false, pc := CreatingRole)
      else s.(queued := false, pc := Adding(s.cluster.value, monitor))
    case Adding(base, m) => Updated(s, base, Wanted(base, m), _ => CreatingRole, true)
    case CreatingRole => WithRole(s, true).(pc := CreatingBinding)
    case CreatingBinding => WithBinding(s, true).(pc := Idle)
    case DeletingRole(base) => WithRole(s, false).(pc := DroppingRole(base))
    case DroppingRole(base) => Drop(s, base, ROLE, o => DeletingBinding(o))
    case DeletingBinding(base) => WithBinding(s, false).(pc := DroppingBinding(base))
    case DroppingBinding(base) => Drop(s, base, BINDING, o => DroppingMonitor(o))
    case DroppingMonitor(base) => Drop(s, base, MONITOR, o => DroppingDashboard(o))
    case DroppingDashboard(base) => Drop(s, base, DASHBOARD, o => Idle)
    case OrphanRole => WithRole(s, false).(pc := OrphanBinding)
    case OrphanBinding => WithBinding(s, false).(pc := Idle)
  }

  /** `Fail` is an error of a call that had no effect or, right after another step, of one
      that took effect. `SwallowedFail` is a failed removal of the monitoring or dashboard
      finalizer. A crash is followed by a restart, which queues everything. */
  datatype Step =
    | Operator(monitor: bool)
    | Fail
    | SwallowedFail
    | Crash
    | UserCreates(finalizers: set<Finalizer>)
    | UserDeletes
    | UserEdits(finalizers: set<Finalizer>)

  ghost predicate Next(s: State, step: Step, s': State) {
    match step
    case Operator(monitor) => s' == Go(s, monitor)
    case Fail => s' == Ended(s, s.pc != Idle)
    case SwallowedFail =>
      && (|| (s.pc.DroppingMonitor? && MONITOR in s.pc.base.finalizers)
          || (s.pc.DroppingDashboard? && DASHBOARD in s.pc.base.finalizers))
      && s' == Ended(s, false)
    case Crash => s' == Ended(s, true)
    case UserCreates(f) => s.cluster.None? && s' == Stored(s, false, f)
    case UserDeletes => s.cluster.Some? && s' == Stored(s, true, s.cluster.value.finalizers)
    case UserEdits(f) =>
      // others may add and remove their own finalizers, not the operator's
      s.cluster.Some? && OURS * s.cluster.value.finalizers <= f && s' == Stored(s, s.cluster.value.deleting, f)
  }

  const INIT := State(None, false, false, 0, false, Idle)

  ghost predicate Run(ss: seq<State>, steps: seq<Step>) {
    && |ss| == |steps| + 1 && ss[0] == INIT
    && forall k :: 0 <= k < |steps| ==> Next(ss[k], steps[k], ss[k + 1])
  }

  predicate Carries(s: State, finalizer: Finalizer) {
    s.cluster.Some? && finalizer in s.cluster.value.finalizers
  }

  /** Whatever exists of the cluster-scoped resources is guarded by a finalizer. */
  predicate Safe(s: State) {
    && (s.role ==> Carries(s, ROLE))
    && (s.binding ==> Carries(s, BINDING))
  }

  /** A copy with the current version is the current object. */
  predicate Fresh(s: State, base: Object) {
    && base.version < s.versions
    && (s.cluster.Some? && s.cluster.value.version == base.version ==> s.cluster.value == base)
  }

  predicate ServerInv(s: State) {
    && Safe(s)
    && (s.cluster.Some? ==> s.cluster.value.version < s.versions)
    && (s.cluster.Some? && s.cluster.value.deleting ==> s.cluster.value.finalizers != {})
  }

  /** A cleanup works on a copy of an object that is being deleted. */
  predicate CleanupCopy(s: State, base: Object) {
    Fresh(s, base) && base.deleting
  }

  predicate Inv(s: State) {
    && ServerInv(s)
    && match s.pc
       case Idle | OrphanRole | OrphanBinding => true
       case CreatingRole | CreatingBinding => Carries(s, ROLE) && Carries(s, BINDING)
       case Adding(base, _) => Fresh(s, base) && !base.deleting
       case DroppingRole(base) => CleanupCopy(s, base) && !s.role
       case DroppingBinding(base) => CleanupCopy(s, base) && !s.binding
       case DeletingRole(base) => CleanupCopy(s, base)
       case DeletingBinding(base) => CleanupCopy(s, base)
       case DroppingMonitor(base) => CleanupCopy(s, base)
       case DroppingDashboard(base) => CleanupCopy(s, base)
  }

  /** The copy that the API server hands back when `x` is dropped. */
  function After(s: State, base: Object, x: Finalizer): Object {
    if x in base.finalizers then Object(s.versions, true, base.finalizers - {x}) else base
  }

  lemma DropStep(s: State, base: Object, x: Finalizer, next: Object -> Pc)
    requires ServerInv(s) && CleanupCopy(s, base)
    requires (x == ROLE ==> !s.role) && (x == BINDING ==> !s.binding)
    ensures var t := Drop(s, base, x, next);
            && ServerInv(t) && t.role == s.role && t.binding == s.binding
            && (t.pc == Idle || (t.pc == next(After(s, base, x)) && CleanupCopy(t, After(s, base, x))))
  {
    if s.cluster.Some? && s.cluster.value.version == base.version {
      assert s.cluster.value == base;
      assert s.role ==> ROLE in base.finalizers - {x};
      assert s.binding ==> BINDING in base.finalizers - {x};
    }
  }

  predicate Drops(pc: Pc) {
    pc.DroppingRole? || pc.DroppingBinding? || pc.DroppingMonitor? || pc.DroppingDashboard?
  }

  lemma DroppingStep(s: State, monitor: bool)
    requires Inv(s) && Drops(s.pc)
    ensures Inv(Go(s, monitor))
  {
    match s.pc
    case DroppingRole(base) => DropStep(s, base, ROLE, o => DeletingBinding(o));
    case DroppingBinding(base) => DropStep(s, base, BINDING, o => DroppingMonitor(o));
    case DroppingMonitor(base) => DropStep(s, base, MONITOR, o => DroppingDashboard(o));
    case DroppingDashboard(base) => DropStep(s, base, DASHBOARD, o => Idle);
  }

  lemma AddingStep(s: State, monitor: bool)
    requires Inv(s) && s.pc.Adding?
    ensures Inv(Go(s, monitor))
  {
  }

  lemma OperatorStep(s: State, monitor: bool)
    requires Inv(s)
    ensures Inv(Go(s, monitor))
  {
    if Drops(s.pc) {
      DroppingStep(s, monitor);
    } else if s.pc.Adding? {
      AddingStep(s, monitor);
    }
  }

  lemma InvStep(s: State, step: Step, s': State)
    requires Inv(s) && Next(s, step, s')
    ensures Inv(s')
  {
    match step
    case Operator(monitor) => OperatorStep(s, monitor);
    case UserEdits(f) =>
      var kept := OURS * s.cluster.value.finalizers;
      assert ROLE in s.cluster.value.finalizers ==> ROLE in kept;
      assert BINDING in s.cluster.value.finalizers ==> BINDING in kept;
    case _ =>
  }

  lemma {:induction false} InvAlways(ss: seq<State>, steps: seq<Step>, k: nat)
    requires Run(ss, steps) && k < |ss|
    ensures Inv(ss[k])
  {
    if k > 0 {
      InvAlways(ss, steps, k - 1);
      assert Next(ss[k - 1], steps[k - 1], ss[k]);
      InvStep(ss[k - 1], steps[k - 1], ss[k]);
    }
  }

  /** Finalizer safety: in every reachable state an existing ClusterRole or
      ClusterRoleBinding means that the cluster object exists and carries the matching
      finalizer; so when the object disappears, both are gone already. */
  lemma FinalizerSafety(ss: seq<State>, steps: seq<Step>, k: nat)
    requires Run(ss, steps) && k < |ss|
    ensures Safe(ss[k])
    ensures ss[k].cluster.None? ==> !ss[k].role && !ss[k].binding
  {
    InvAlways(ss, steps, k);
  }

  /** What is left to clean up. */
  function Remaining(s: State): nat {
    (if s.role then 1 else 0) + (if s.binding then 1 else 0)
    + if s.cluster.Some? then |OURS * s.cluster.value.finalizers| else 0
  }

  predicate CleansUp(pc: Pc) {
    pc.DeletingRole? || pc.DroppingRole? || pc.DeletingBinding? || pc.DroppingBinding?
    || pc.DroppingMonitor? || pc.DroppingDashboard? || pc.OrphanRole? || pc.OrphanBinding?
  }

  /** Dropping a finalizer through a current copy takes at most that one away. */
  lemma DropDecreases(s: State, base: Object, x: Finalizer, next: Object -> Pc)
    requires Fresh(s, base) && x in OURS
    ensures Remaining(Drop(s, base, x, next)) <= Remaining(s)
    ensures Drop(s, base, x, next).(pc := s.pc, queued := s.queued) != s ==>
          Remaining(Drop(s, base, x, next)) < Remaining(s)
  {
    if s.cluster.Some? && x in base.finalizers {
      var f := s.cluster.value.finalizers;
      if f == base.finalizers {
        assert OURS * (f - {x}) == OURS * f - {x};
        assert x in OURS * f;
      }
    }
  }

  /** No step of a cleanup, however the pass ends, adds to what is left; deleting a
      resource that exists or dropping a finalizer that is there takes one away. */
  lemma CleanupDecreases(s: State, monitor: bool)
    requires Inv(s) && CleansUp(s.pc)
    ensures Remaining(Go(s, monitor)) <= Remaining(s)
    ensures Go(s, monitor).(pc := s.pc, queued := s.queued) != s ==> Remaining(Go(s, monitor)) < Remaining(s)
  {
    match s.pc
    case DroppingRole(base) => DropDecreases(s, base, ROLE, o => DeletingBinding(o));
    case DroppingBinding(base) => DropDecreases(s, base, BINDING, o => DroppingMonitor(o));
    case DroppingMonitor(base) => DropDecreases(s, base, MONITOR, o => DroppingDashboard(o));
    case DroppingDashboard(base) => DropDecreases(s, base, DASHBOARD, o => Idle);
    case _ =>
  }

  /** `n` successful calls for a spec that asks for monitoring or not. */
  function Passes(s: State, n: nat, monitor: bool): State {
    if n == 0 then s else Go(Passes(s, n - 1, monitor), monitor)
  }

  /** Of the finalizers `f` of an object being deleted, `dropped` are gone; `base` is the
      worker's copy, and the object is gone once nothing is left. */
  predicate Dropped(s: State, base: Object, f: set<Finalizer>, dropped: set<Finalizer>) {
    && base.finalizers == f - dropped && base.deleting
    && s.cluster == if base.finalizers == {} then None else Some(base)
  }

  lemma DropStage(s: State, base: Object, f: set<Finalizer>, dropped: set<Finalizer>, x: Finalizer, next: Object -> Pc)
    requires Dropped(s, base, f, dropped)
    ensures var t := Drop(s, base, x, next);
            && t.pc == next(After(s, base, x)) && Dropped(t, After(s, base, x), f, dropped + {x})
            && t.role == s.role && t.binding == s.binding
  {
    assert f - (dropped + {x}) == f - dropped - {x};
  }

  lemma PassToBinding(s: State, f: set<Finalizer>)
    requires Inv(s) && s.pc == Idle && s.queued && s.cluster.Some? && s.cluster.value.deleting
    requires f == s.cluster.value.finalizers
    ensures var t := Go(Go(Go(s, false), false), false);
            t.pc.DeletingBinding? && Dropped(t, t.pc.base, f, {ROLE}) && !t.role
  {
    var s2 := Go(Go(s, false), false);
    assert {} + {ROLE} == {ROLE} && f - {} == f;
    DropStage(s2, s.cluster.value, f, {}, ROLE, o => DeletingBinding(o));
  }

  lemma PassToMonitor(s: State, f: set<Finalizer>)
    requires s.pc.DeletingBinding? && Dropped(s, s.pc.base, f, {ROLE}) && !s.role
    ensures var t := Go(Go(s, false), false);
            t.pc.DroppingMonitor? && Dropped(t, t.pc.base, f, {ROLE, BINDING}) && !t.role && !t.binding
  {
    assert {ROLE} + {BINDING} == {ROLE, BINDING};
    DropStage(Go(s, false), s.pc.base, f, {ROLE}, BINDING, o => DroppingMonitor(o));
  }

  lemma PassToEnd(s: State, f: set<Finalizer>)
    requires s.pc.DroppingMonitor? && Dropped(s, s.pc.base, f, {ROLE, BINDING}) && !s.role && !s.binding
    ensures var t := Go(Go(s, false), false);
            t.pc == Idle && Remaining(t) == 0 && (t.cluster.None? <==> f <= OURS)
  {
    var base := s.pc.base;
    DropStage(s, base, f, {ROLE, BINDING}, MONITOR, o => DroppingDashboard(o));
    var s1, b1 := Go(s, false), After(s, base, MONITOR);
    DropStage(s1, b1, f, {ROLE, BINDING} + {MONITOR}, DASHBOARD, o => Idle);
    var b2 := After(s1, b1, DASHBOARD);
    assert {ROLE, BINDING} + {MONITOR} + {DASHBOARD} == OURS;
    assert OURS * b2.finalizers == {};
    assert f - OURS == {} <==> f <= OURS;
  }

  /** One undisturbed pass over an object that is being deleted leaves none of the
      operator's finalizers and resources; the object is gone unless it carries a
      finalizer of somebody else. */
  lemma PassCompletes(s: State)
    requires Inv(s) && s.pc == Idle && s.queued && s.cluster.Some? && s.cluster.value.deleting
    ensures Passes(s, 7, false).pc == Idle && Remaining(Passes(s, 7, false)) == 0
    ensures Passes(s, 7, false).cluster.None? <==> s.cluster.value.finalizers <= OURS
  {
    var f := s.cluster.value.finalizers;
    var s3 := Go(Go(Go(s, false), false), false);
    PassToBinding(s, f);
    PassToMonitor(s3, f);
    PassToEnd(Go(Go(s3, false), false), f);
    PassUnfolds(s);
  }

  lemma PassUnfolds(s: State)
    ensures Passes(s, 7, false) == Go(Go(Go(Go(Go(Go(Go(s, false), false), false), false), false), false), false)
  {
    assert Passes(s, 0, false) == s && Passes(s, 1, false) == Go(s, false);
    assert Passes(s, 2, false) == Go(Passes(s, 1, false), false);
    assert Passes(s, 4, false) == Go(Go(Passes(s, 2, false), false), false);
    assert Passes(s, 6, false) == Go(Go(Passes(s, 4, false), false), false);
  }

  /** And one over an object that stays leaves it with both resources and, besides the
      finalizers it had, with those of the operator that the spec asks for. */
  lemma LivePassCompletes(s: State, monitor: bool) returns (t: State)
    requires Inv(s) && s.pc == Idle && s.queued && s.cluster.Some? && !s.cluster.value.deleting
    ensures t == Passes(s, if Wanted(s.cluster.value, monitor) == s.cluster.value.finalizers then 3 else 4, monitor)
    ensures t.pc == Idle && t.role && t.binding && t.cluster.Some? && !t.cluster.value.deleting
    ensures forall x :: x in t.cluster.value.finalizers <==>
              x in s.cluster.value.finalizers || x == ROLE || x == BINDING || (monitor && x == MONITOR)
  {
    Calls(s, monitor);
    t := Passes(s, if Wanted(s.cluster.value, monitor) == s.cluster.value.finalizers then 3 else 4, monitor);
  }

  // ---- Is a deletion pursued to its end? ----

  /** An object that is to go carries a finalizer of the operator, and nobody is going to
      take it off. */
  predicate Forgotten(s: State) {
    s.cluster.Some? && s.cluster.value.deleting && OURS * s.cluster.value.finalizers != {} && !s.queued && s.pc == Idle
  }

  /** A failed removal whose error is swallowed, with no reconcile queued meanwhile. */
  predicate Forgets(s: State, step: Step) {
    step.SwallowedFail? && !s.queued
  }

  /** With nothing queued, a cleanup works on the present object, and what it has passed is
      off; any other pass does not concern an object that is to go. */
  predicate PursuedInv(s: State) {
    s.queued ||
    match s.pc
    case Idle => !Forgotten(s)
    case Adding(_, _) | CreatingRole | CreatingBinding | OrphanRole | OrphanBinding =>
      !(s.cluster.Some? && s.cluster.value.deleting)
    case DeletingRole(base) => s.cluster == Some(base)
    case DroppingRole(base) => s.cluster == Some(base)
    case DeletingBinding(base) => s.cluster == Some(base) && ROLE !in base.finalizers
    case DroppingBinding(base) => s.cluster == Some(base) && ROLE !in base.finalizers
    case DroppingMonitor(base) => s.cluster == Some(base) && {ROLE, BINDING} !! base.finalizers
    case DroppingDashboard(base) => s.cluster == Some(base) && {ROLE, BINDING, MONITOR} !! base.finalizers
  }

  lemma OperatorPursues(s: State, monitor: bool)
    requires Inv(s) && PursuedInv(s)
    ensures PursuedInv(Go(s, monitor))
  {
  }

  /** Only a swallowed error with nothing queued lets a deletion be forgotten. */
  lemma ForgottenStepIff(s: State, step: Step, s': State)
    requires Inv(s) && PursuedInv(s) && Next(s, step, s')
    ensures Forgotten(s') <==> Forgets(s, step)
    ensures !Forgets(s, step) ==> PursuedInv(s')
  {
    if step.Operator? {
      OperatorPursues(s, step.monitor);
    } else if Forgets(s, step) {
      var left := OURS * s.cluster.value.finalizers;
      assert s.pc.DroppingMonitor? ==> MONITOR in left;
      assert s.pc.DroppingDashboard? ==> DASHBOARD in left;
    }
  }

  /** What is forgotten stays so until somebody touches the object or the operator restarts. */
  lemma ForgottenStep(s: State, step: Step, s': State)
    requires Forgotten(s) && Next(s, step, s')
    ensures s' == s || s'.queued
  {
  }

  lemma {:induction false} PursuedUnlessForgotten(ss: seq<State>, steps: seq<Step>, k: nat)
    requires Run(ss, steps) && k < |ss|
    ensures PursuedInv(ss[k]) || Forgotten(ss[k])
  {
    if k > 0 {
      PursuedUnlessForgotten(ss, steps, k - 1);
      InvAlways(ss, steps, k - 1);
      assert Next(ss[k - 1], steps[k - 1], ss[k]);
      if Forgotten(ss[k - 1]) {
        ForgottenStep(ss[k - 1], steps[k - 1], ss[k]);
      } else {
        ForgottenStepIff(ss[k - 1], steps[k - 1], ss[k]);
      }
    }
  }

  /** Step `i` forgot the deletion, and nothing has happened since. */
  ghost predicate ForgottenSince(ss: seq<State>, steps: seq<Step>, i: nat, k: nat)
    requires Run(ss, steps) && i < k < |ss|
  {
    Forgets(ss[i], steps[i]) && forall m :: i < m <= k ==> ss[m] == ss[k]
  }

  /** In every run an object that is to go and still carries a finalizer of the operator has
      no reconcile queued or running exactly if the last thing that happened was a failed
      removal of the monitoring or dashboard finalizer, whose error is swallowed, with no
      reconcile queued by any other change. */
  lemma {:induction false} ForgottenIff(ss: seq<State>, steps: seq<Step>, k: nat)
    requires Run(ss, steps) && k < |ss|
    ensures Forgotten(ss[k]) <==> exists i: nat :: i < k && ForgottenSince(ss, steps, i, k)
  {
    if exists i: nat :: i < k && ForgottenSince(ss, steps, i, k) {
      var i: nat :| i < k && ForgottenSince(ss, steps, i, k);
      ForgetsForgets(ss, steps, i);
    } else if k > 0 && Forgotten(ss[k]) {
      assert Next(ss[k - 1], steps[k - 1], ss[k]);
      ForgottenIff(ss, steps, k - 1);
      PursuedUnlessForgotten(ss, steps, k - 1);
      InvAlways(ss, steps, k - 1);
      if Forgotten(ss[k - 1]) {
        ForgottenStep(ss[k - 1], steps[k - 1], ss[k]);
        var i: nat :| i < k - 1 && ForgottenSince(ss, steps, i, k - 1);
        assert ForgottenSince(ss, steps, i, k);
      } else {
        ForgottenStepIff(ss[k - 1], steps[k - 1], ss[k]);
        assert ForgottenSince(ss, steps, k - 1, k);
      }
      assert false;
    }
  }

  lemma ForgetsForgets(ss: seq<State>, steps: seq<Step>, i: nat)
    requires Run(ss, steps) && i < |steps| && Forgets(ss[i], steps[i])
    ensures Forgotten(ss[i + 1])
  {
    assert Next(ss[i], steps[i], ss[i + 1]);
    InvAlways(ss, steps, i);
    PursuedUnlessForgotten(ss, steps, i);
    ForgottenStepIff(ss[i], steps[i], ss[i + 1]);
  }

  ghost predicate Reaches(s: State) {
    exists ss, steps :: Run(ss, steps) && ss[|steps|] == s
  }

  lemma ReachesNext(s: State, step: Step, s': State)
    requires Reaches(s) && Next(s, step, s')
    ensures Reaches(s')
  {
    var ss, steps :| Run(ss, steps) && ss[|steps|] == s;
    var ts, more := ss + [s'], steps + [step];
    forall k | 0 <= k < |more|
      ensures Next(ts[k], more[k], ts[k + 1])
    {
      if k < |steps| {
        assert Next(ss[k], steps[k], ss[k + 1]);
      }
    }
    assert ts[|more|] == s';
  }

  lemma ReachesGo(s: State, n: nat, monitor: bool) returns (t: State)
    requires Reaches(s)
    ensures Reaches(t) && t == Passes(s, n, monitor)
  {
    t := s;
    for k := 0 to n
      invariant Reaches(t) && t == Passes(s, k, monitor)
    {
      ReachesNext(t, Operator(monitor), Go(t, monitor));
      t := Go(t, monitor);
    }
  }

  lemma Calls(s: State, monitor: bool)
    ensures Passes(s, 3, monitor) == Go(Go(Go(s, monitor), monitor), monitor)
    ensures Passes(s, 4, monitor) == Go(Go(Go(Go(s, monitor), monitor), monitor), monitor)
    ensures Passes(s, 5, monitor) == Go(Go(Go(Go(Go(s, monitor), monitor), monitor), monitor), monitor)
  {
    assert Passes(s, 1, monitor) == Go(Passes(s, 0, monitor), monitor) && Passes(s, 0, monitor) == s;
    assert Passes(s, 2, monitor) == Go(Passes(s, 1, monitor), monitor);
    assert Passes(s, 3, monitor) == Go(Passes(s, 2, monitor), monitor);
  }

  lemma BecomesMonitored() returns (s: State)
    ensures Reaches(s) && s.pc == Idle && s.queued && s.cluster == Some(Object(1, false, {ROLE, BINDING, MONITOR}))
    ensures s.role && s.binding && s.versions == 2
  {
    assert Run([INIT], []) && [INIT][0] == INIT;
    assert Reaches(INIT);
    var s1 := Stored(INIT, false, {});
    ReachesNext(INIT, UserCreates({}), s1);
    Calls(s1, true);
    assert Wanted(s1.cluster.value, true) == {ROLE, BINDING, MONITOR};
    s := ReachesGo(s1, 4, true);
  }

  lemma RoleIsDropped(s: State)
    requires s.pc == Idle && s.queued && s.versions == 3 && s.cluster == Some(Object(2, true, {ROLE, BINDING, MONITOR}))
    ensures var o, t := Object(3, true, {BINDING, MONITOR}), Go(Go(Go(s, true), true), true);
            t == s.(cluster := Some(o), role := false, versions := 4, queued := true, pc := DeletingBinding(o))
  {
    assert {ROLE, BINDING, MONITOR} - {ROLE} == {BINDING, MONITOR};
  }

  lemma BindingIsDropped(s: State)
    requires s.queued && s.versions == 4 && s.cluster == Some(Object(3, true, {BINDING, MONITOR}))
    requires s.pc == DeletingBinding(s.cluster.value)
    ensures var o, t := Object(4, true, {MONITOR}), Go(Go(s, true), true);
            t == s.(cluster := Some(o), binding := false, versions := 5, pc := DroppingMonitor(o))
  {
    assert {BINDING, MONITOR} - {BINDING} == {MONITOR};
  }

  lemma TwoAreDropped(s: State)
    requires s.pc == Idle && s.queued && s.versions == 3 && s.cluster == Some(Object(2, true, {ROLE, BINDING, MONITOR}))
    ensures var o, t := Object(4, true, {MONITOR}), Passes(s, 5, true);
            && t.pc == DroppingMonitor(o) && t.cluster == Some(o) && t.queued && !t.role && !t.binding
  {
    Calls(s, true);
    RoleIsDropped(s);
    BindingIsDropped(Go(Go(Go(s, true), true), true));
  }

  lemma FirstSwallow() returns (s: State)
    ensures Reaches(s) && s.pc == Idle && s.queued && s.cluster == Some(Object(4, true, {MONITOR}))
    ensures !s.role && !s.binding
  {
    var s0 := BecomesMonitored();
    var s1 := Stored(s0, true, s0.cluster.value.finalizers);
    ReachesNext(s0, UserDeletes, s1);
    var s2 := ReachesGo(s1, 5, true);
    TwoAreDropped(s1);
    s := Ended(s2, false);
    ReachesNext(s2, SwallowedFail, s);
  }

  /** It does happen: two failed removals of the monitoring finalizer in a row. The first is
      made up for by the changes of its own pass; after the second nothing is queued. */
  lemma SomeDeletionIsForgotten() returns (s: State)
    ensures Reaches(s) && Forgotten(s)
  {
    var s0 := FirstSwallow();
    Calls(s0, true);
    var s1 := ReachesGo(s0, 5, true);
    assert s1.pc == DroppingMonitor(s0.cluster.value) && !s1.queued;
    s := Ended(s1, false);
    ReachesNext(s1, SwallowedFail, s);
    assert MONITOR in OURS * s.cluster.value.finalizers;
  }
}
