/** The timer table that paces the delayed rolling update, and the protocol between the
    reconcile worker of each cluster and the asynchronous timer callbacks. */
module Triggerer {
  import opened Text

  /** Cluster name to key to timer. */
  type Timetable = map<string, map<string, nat>>

  const KEY := "DelayedRollingUpdate"

  function Lookup(t: Timetable, name: string, key: string): Option<nat> {
    if name in t && key in t[name] then Some(t[name][key]) else None
  }

  /** The table after `id` was put under `name` and `key`. */
  function Inserted(t: Timetable, name: string, key: string, id: nat): (r: Timetable)
    ensures Lookup(r, name, key) == Some(id)
    ensures forall n, k :: n != name ==> Lookup(r, n, k) == Lookup(t, n, k)
    ensures forall k :: k != key ==>
              Lookup(r, name, k) == if Lookup(t, name, key).Some? then None else Lookup(t, name, k)
  {
    var cleared := if Lookup(t, name, key).Some? then t - {name} else t;
    cleared[name := (if name in cleared then cleared[name] else map[])[key := id]]
  }

  /** The callback clears the whole entry of its cluster, whichever timers it holds. */
  function Cleared(t: Timetable, name: string): (r: Timetable)
    ensures forall k :: Lookup(r, name, k) == None
    ensures forall n, k :: n != name ==> Lookup(r, n, k) == Lookup(t, n, k)
  {
    t - {name}
  }

  /** A timer is armed, may be stopped while armed, and once fired its callback clears the
      table entry and then sends the event. */
  datatype Phase = Armed | Stopped | Fired | Clearing | Sent

  datatype Timer = Timer(name: string, due: int, phase: Phase)

  function Stop(ts: seq<Timer>, id: nat): seq<Timer>
    requires id < |ts|
  {
    if ts[id].phase == Armed then ts[id := ts[id].(phase := Stopped)] else ts
  }

  /** `time.AfterFunc`: a delay that is not positive is due at once. */
  function NewTimer(name: string, now: int, wait: int): Timer {
    Timer(name, now + (if wait > 0 then wait else 0), Armed)
  }

  class ReconcileTriggerer {
    var timetable: Timetable
    var timers: seq<Timer>
    var events: seq<string>

    constructor ()
      ensures timetable == map[] && timers == [] && events == []
    {
      timetable, timers, events := map[], [], [];
    }

    ghost predicate Valid()
      reads this
    {
      forall n, k :: Lookup(timetable, n, k).Some? ==> Lookup(timetable, n, k).value < |timers|
    }

    method TimerExists(key: string, name: string) returns (exists_: bool)
      ensures exists_ <==> Lookup(timetable, name, key).Some?
    {
      if name in timetable {
        if key in timetable[name] {
          return true;
        }
      }
      return false;
    }

    /** First half of `TriggerAfter`, before the lock is taken. */
    method AfterFunc(name: string, now: int, wait: int) returns (id: nat)
      requires Valid()
      modifies this`timers
      ensures Valid()
      ensures id == |old(timers)| && timers == old(timers) + [NewTimer(name, now, wait)]
      ensures timers[id].name == name && timers[id].phase == Armed
      ensures timers[id].due == (if wait < 0 then now else now + wait)
    {
      id := |timers|;
      timers := timers + [NewTimer(name, now, wait)];
    }

    /** Second half, under the lock: stop a timer that is in the way and insert. */
    method Insert(key: string, name: string, id: nat)
      requires Valid() && id < |timers|
      modifies this`timetable, this`timers
      ensures Valid()
      ensures timetable == Inserted(old(timetable), name, key, id)
      ensures timers == match Lookup(old(timetable), name, key)
                        case Some(before) => Stop(old(timers), before)
                        case None => old(timers)
      ensures |timers| == |old(timers)|
      ensures forall i :: 0 <= i < |timers| ==>
                if Lookup(old(timetable), name, key) == Some(i) && old(timers)[i].phase == Armed
                then timers[i] == old(timers)[i].(phase := Stopped) else timers[i] == old(timers)[i]
    {
      if name in timetable {
        var inner := timetable[name];
        if key in inner {
          assert Lookup(timetable, name, key) == Some(inner[key]);
          timers := Stop(timers, inner[key]);
          timetable := timetable - {name};
        }
      }
      if name !in timetable {
        timetable := timetable[name := map[]];
      }
      var timersOfCluster: map<string, nat> := timetable[name];
      timersOfCluster := timersOfCluster[key := id];
      timetable := timetable[name := timersOfCluster];
      assert timetable == Inserted(old(timetable), name, key, id);
      forall n, k | Lookup(timetable, n, k).Some?
        ensures Lookup(timetable, n, k).value < |timers|
      {
        if n == name && k != key && Lookup(old(timetable), name, key).None? {
          assert Lookup(timetable, n, k) == Lookup(old(timetable), n, k);
        }
      }
    }

    /** Without a callback in between: every other cluster's entries stay. */
    method TriggerAfter(key: string, wait: int, name: string, now: int)
      requires Valid()
      modifies this`timetable, this`timers
      ensures Valid()
      ensures timetable == Inserted(old(timetable), name, key, |old(timers)|)
      ensures |timers| == |old(timers)| + 1 && timers[|old(timers)|] == NewTimer(name, now, wait)
    {
      var id := AfterFunc(name, now, wait);
      Insert(key, name, id);
    }

    /** The callback's locked section. */
    method ClearEntry(id: nat)
      requires Valid() && id < |timers| && timers[id].phase == Fired
      modifies this`timetable, this`timers
      ensures Valid()
      ensures timetable == Cleared(old(timetable), old(timers)[id].name)
      ensures timers == old(timers)[id := old(timers)[id].(phase := Clearing)]
    {
      assert forall n, k :: n != timers[id].name ==>
            Lookup(Cleared(timetable, timers[id].name), n, k) == Lookup(timetable, n, k);
      timetable := Cleared(timetable, timers[id].name);
      timers := timers[id := timers[id].(phase := Clearing)];
    }

    /** The callback's last act: ask for a reconcile. */
    method SendEvent(id: nat)
      requires Valid() && id < |timers| && timers[id].phase == Clearing
      modifies this`timers, this`events
      ensures Valid() && events == old(events) + [old(timers)[id].name]
      ensures timers == old(timers)[id := old(timers)[id].(phase := Sent)]
    {
      events := events + [timers[id].name];
      timers := timers[id := timers[id].(phase := Sent)];
    }

    /** The whole callback, with nobody else in between. */
    method Callback(id: nat)
      requires Valid() && id < |timers| && timers[id].phase == Fired
      modifies this
      ensures Valid()
      ensures timetable == Cleared(old(timetable), old(timers)[id].name)
      ensures timers == old(timers)[id := old(timers)[id].(phase := Sent)]
      ensures events == old(events) + [old(timers)[id].name]
    {
      ClearEntry(id);
      SendEvent(id);
    }
  }

  // ---- The protocol ----

  /** The reconcile worker of a cluster: it saw no timer, it is about to create one, it
      has created one that is not in the table yet. */
  datatype Pc = Idle | Looking | Arming(wait: int) | Placing(id: nat)

  /** `release` is the time before which no further pod of the cluster may go: the time
      of its last deletion plus the delay that was in force then. */
  datatype State = State(now: int, table: Timetable, timers: seq<Timer>,
                         pcs: map<string, Pc>, release: map<string, int>)

  datatype Step =
    | Tick(to: int)
    | Begin(name: string)
    | GiveUp(name: string)
    | DeletePod(name: string, delay: int)
    | DeleteLost(name: string, delay: int)
    | Wait(name: string, wait: int)
    | Create(name: string)
    | Place(name: string)
    | Fire(id: nat)
    | Clear(id: nat)
    | Send(id: nat)

  const INIT := State(0, map[], [], map[], map[])

  function PcOf(s: State, name: string): Pc {
    if name in s.pcs then s.pcs[name] else Idle
  }

  function EntryOf(s: State, name: string): Option<nat> {
    Lookup(s.table, name, KEY)
  }

  function SetPc(s: State, name: string, pc: Pc): State {
    s.(pcs := s.pcs[name := pc])
  }

  function SetPhase(s: State, id: nat, phase: Phase): State
    requires id < |s.timers|
  {
    s.(timers := s.timers[id := s.timers[id].(phase := phase)])
  }

  /** One step of a worker, of a callback, or of the clock. Workers of different clusters
      and all callbacks interleave freely. The delay is validated to be positive. A delete
      whose reply is lost takes effect and returns an error: the worker leaves at once. */
  ghost predicate Next(s: State, step: Step, s': State) {
    match step
    case Tick(to) => s.now <= to && s' == s.(now := to)
    case Begin(n) =>
      PcOf(s, n) == Idle && s' == if EntryOf(s, n).Some? then s else SetPc(s, n, Looking)
    case GiveUp(n) => PcOf(s, n) == Looking && s' == SetPc(s, n, Idle)
    case DeletePod(n, delay) =>
      PcOf(s, n) == Looking && delay > 0 && s' == SetPc(s, n, Arming(delay)).(release := s.release[n := s.now + delay])
    case DeleteLost(n, delay) => PcOf(s, n) == Looking && delay > 0 && s' == SetPc(s, n, Idle)
    case Wait(n, wait) => PcOf(s, n) == Looking && s' == SetPc(s, n, Arming(wait))
    case Create(n) =>
      && PcOf(s, n).Arming?
      && s' == SetPc(s, n, Placing(|s.timers|)).(timers := s.timers + [NewTimer(n, s.now, PcOf(s, n).wait)])
    case Place(n) =>
      && PcOf(s, n).Placing?
      && s'.timers == (if EntryOf(s, n).Some? && EntryOf(s, n).value < |s.timers|
                       then Stop(s.timers, EntryOf(s, n).value) else s.timers)
      && s' == SetPc(s, n, Idle).(table := Inserted(s.table, n, KEY, PcOf(s, n).id), timers := s'.timers)
    case Fire(id) =>
      id < |s.timers| && s.timers[id].phase == Armed && s.timers[id].due <= s.now && s' == SetPhase(s, id, Fired)
    case Clear(id) =>
      && id < |s.timers| && s.timers[id].phase == Fired
      && s' == SetPhase(s, id, Clearing).(table := Cleared(s.table, s.timers[id].name))
    case Send(id) =>
      id < |s.timers| && s.timers[id].phase == Clearing && s' == SetPhase(s, id, Sent)
  }

  ghost predicate Run(ss: seq<State>, steps: seq<Step>) {
    && |ss| == |steps| + 1
    && ss[0] == INIT
    && forall k :: 0 <= k < |steps| ==> Next(ss[k], steps[k], ss[k + 1])
  }

  predicate Live(s: State, id: nat) {
    id < |s.timers| && (s.timers[id].phase == Armed || s.timers[id].phase == Fired)
  }

  /** `id` is a timer of `n` that cannot clear the table before time `t`. */
  predicate Holds(s: State, n: string, id: nat, t: int) {
    id < |s.timers| && s.timers[id].name == n && s.timers[id].due >= t
  }

  /** No callback of cluster `n` is outstanding while its worker is past the check, and
      until the release time something keeps the worker out. */
  ghost predicate Guarded(s: State, n: string) {
    && (forall id: nat :: Live(s, id) && s.timers[id].name == n ==>
          EntryOf(s, n) == Some(id) || PcOf(s, n) == Placing(id))
    && (PcOf(s, n) != Idle ==> EntryOf(s, n) == None)
    && (PcOf(s, n).Placing? ==> PcOf(s, n).id < |s.timers| && s.timers[PcOf(s, n).id].name == n)
    && (EntryOf(s, n).Some? ==> EntryOf(s, n).value < |s.timers| && s.timers[EntryOf(s, n).value].name == n)
    && (n in s.release && s.now < s.release[n] ==>
          match PcOf(s, n)
          case Idle => EntryOf(s, n).Some? && Holds(s, n, EntryOf(s, n).value, s.release[n])
          case Looking => false
          case Arming(wait) => s.now + wait >= s.release[n]
          case Placing(id) => Holds(s, n, id, s.release[n]))
  }

  ghost predicate Inv(s: State) {
    && (forall id :: 0 <= id < |s.timers| && s.timers[id].phase in {Fired, Clearing, Sent} ==>
          s.timers[id].due <= s.now)
    && forall n :: Guarded(s, n)
  }

  predicate IsTimerStep(step: Step) {
    step.Fire? || step.Clear? || step.Send?
  }

  lemma TimerStepKeepsGuard(s: State, step: Step, s': State, n: string)
    requires Inv(s) && Next(s, step, s') && IsTimerStep(step)
    ensures Guarded(s', n)
  {
    if step.Clear? && s.timers[step.id].name == n {
      ClearKeepsGuard(s, step.id, s', n);
    } else {
      assert Guarded(s, n);
      assert forall id: nat :: Live(s', id) ==> Live(s, id);
      assert EntryOf(s', n) == EntryOf(s, n);
    }
  }

  lemma ClearKeepsGuard(s: State, id: nat, s': State, n: string)
    requires Inv(s) && Next(s, Clear(id), s') && s.timers[id].name == n
    ensures Guarded(s', n)
  {
    assert Guarded(s, n) && Live(s, id);
    assert forall i: nat :: Live(s', i) ==> Live(s, i) && i != id;
    assert EntryOf(s', n) == None;
  }

  lemma CreateKeepsGuard(s: State, c: string, s': State, n: string)
    requires Inv(s) && Next(s, Create(c), s')
    ensures Guarded(s', n)
  {
    assert Guarded(s, n) && EntryOf(s', n) == EntryOf(s, n);
    assert forall id: nat :: id < |s.timers| ==> s'.timers[id] == s.timers[id];
  }

  lemma PlaceKeepsGuard(s: State, c: string, s': State, n: string)
    requires Inv(s) && Next(s, Place(c), s')
    ensures Guarded(s', n)
    ensures s'.timers == s.timers
  {
    assert Guarded(s, n) && Guarded(s, c);
    assert EntryOf(s, c) == None;
    if n != c {
      assert EntryOf(s', n) == EntryOf(s, n);
    }
  }

  lemma WorkerStepKeepsGuard(s: State, step: Step, s': State, n: string)
    requires Inv(s) && Next(s, step, s')
    requires !IsTimerStep(step) && !step.Create? && !step.Place?
    ensures Guarded(s', n)
  {
    assert Guarded(s, n);
    assert EntryOf(s', n) == EntryOf(s, n) && s'.timers == s.timers;
    assert forall id: nat :: Live(s', id) <==> Live(s, id);
  }

  lemma InvStep(s: State, step: Step, s': State)
    requires Inv(s) && Next(s, step, s')
    ensures Inv(s')
  {
    forall n
      ensures Guarded(s', n)
    {
      if IsTimerStep(step) {
        TimerStepKeepsGuard(s, step, s', n);
      } else if step.Create? {
        CreateKeepsGuard(s, step.name, s', n);
      } else if step.Place? {
        PlaceKeepsGuard(s, step.name, s', n);
      } else {
        WorkerStepKeepsGuard(s, step, s', n);
      }
    }
    if step.Place? {
      PlaceKeepsGuard(s, step.name, s', step.name);
    }
    FiredAreDue(s, step, s');
  }

  lemma FiredAreDue(s: State, step: Step, s': State)
    requires Inv(s) && Next(s, step, s')
    ensures forall id :: 0 <= id < |s'.timers| && s'.timers[id].phase in {Fired, Clearing, Sent} ==>
          s'.timers[id].due <= s'.now
  {
    if step.Place? {
      PlaceKeepsGuard(s, step.name, s', step.name);
    }
  }

  lemma {:induction false} InvAlways(ss: seq<State>, steps: seq<Step>, k: nat)
    requires Run(ss, steps) && k < |ss|
    ensures Inv(ss[k])
  {
    if k > 0 {
      InvAlways(ss, steps, k - 1);
      assert Next(ss[k - 1], steps[k - 1], ss[k]);
      InvStep(ss[k - 1], steps[k - 1], ss[k]);
    }
  }

  // ---- Spacing ----

  lemma {:induction false} ReleaseCovers(ss: seq<State>, steps: seq<Step>, j: nat, k: nat)
    requires Run(ss, steps) && j < k <= |steps| && steps[j].DeletePod?
    ensures steps[j].name in ss[k].release
    ensures ss[j].now + steps[j].delay <= ss[k].release[steps[j].name]
    decreases k
  {
    assert Next(ss[k - 1], steps[k - 1], ss[k]);
    if j < k - 1 {
      ReleaseCovers(ss, steps, j, k - 1);
      InvAlways(ss, steps, k - 1);
      assert Guarded(ss[k - 1], steps[j].name);
    }
  }

  /** A pod of cluster `name` is deleted, whether or not the reply arrives. */
  predicate Deletes(step: Step, name: string) {
    (step.DeletePod? || step.DeleteLost?) && step.name == name
  }

  /** After a deletion whose reply arrived the next one of that cluster comes at least the
      delay later, in every interleaving, whatever stale status the reconciles in between
      acted on. */
  lemma DelaySpacing(ss: seq<State>, steps: seq<Step>, j: nat, k: nat)
    requires Run(ss, steps) && j < k < |steps|
    requires steps[j].DeletePod? && Deletes(steps[k], steps[j].name)
    ensures ss[k].now >= ss[j].now + steps[j].delay
  {
    ReleaseCovers(ss, steps, j, k);
    InvAlways(ss, steps, k);
    assert Next(ss[k], steps[k], ss[k + 1]);
    assert Guarded(ss[k], steps[k].name);
  }

  /** So `k` deletions under one delay, the replies of all but the last having arrived, span
      at least `k - 1` times that delay. */
  lemma {:induction false} DeletionsSpan(ss: seq<State>, steps: seq<Step>, at: seq<nat>, name: string, delay: int)
    requires Run(ss, steps) && at != []
    requires forall i :: 0 <= i < |at| ==> at[i] < |steps| && Deletes(steps[at[i]], name)
    requires forall i :: 0 <= i < |at| - 1 ==> at[i] < at[i + 1] && steps[at[i]] == DeletePod(name, delay)
    ensures ss[at[|at| - 1]].now - ss[at[0]].now >= (|at| - 1) * delay
  {
    var n := |at| - 1;
    if n > 0 {
      var init := at[..n];
      DeletionsSpan(ss, steps, init, name, delay);
      DelaySpacing(ss, steps, at[n - 1], at[n]);
      assert ss[at[n - 1]].now - ss[at[0]].now >= (n - 1) * delay;
      assert n * delay == (n - 1) * delay + delay;
    }
  }

  lemma Extend(ss: seq<State>, steps: seq<Step>, step: Step, s': State)
    requires Run(ss, steps) && Next(ss[|steps|], step, s')
    ensures Run(ss + [s'], steps + [step])
  {
    var ts, more := ss + [s'], steps + [step];
    forall k | 0 <= k < |more|
      ensures Next(ts[k], more[k], ts[k + 1])
    {
      if k < |steps| {
        assert Next(ss[k], steps[k], ss[k + 1]);
      }
    }
  }

  /** The reply is needed: every run that ends with a deletion whose reply was lost goes on
      with another deletion in the same instant. */
  lemma LostReplyIsUnspaced(ss: seq<State>, steps: seq<Step>, name: string, delay: int)
    returns (ts: seq<State>, more: seq<Step>)
    requires Run(ss, steps) && steps != [] && delay > 0
    requires steps[|steps| - 1].DeleteLost? && steps[|steps| - 1].name == name
    ensures Run(ts, more) && more == steps + [Begin(name), DeletePod(name, delay)] && ss <= ts
    ensures ts[|more| - 1].now == ss[|steps| - 1].now
  {
    var n := |steps|;
    InvAlways(ss, steps, n - 1);
    assert Next(ss[n - 1], steps[n - 1], ss[n]) && Guarded(ss[n - 1], name);
    var s := ss[n];
    assert EntryOf(s, name) == EntryOf(ss[n - 1], name) == None;
    var s1 := SetPc(s, name, Looking);
    var s2 := SetPc(s1, name, Arming(delay)).(release := s1.release[name := s1.now + delay]);
    Extend(ss, steps, Begin(name), s1);
    Extend(ss + [s1], steps + [Begin(name)], DeletePod(name, delay), s2);
    ts, more := ss + [s1] + [s2], steps + [Begin(name)] + [DeletePod(name, delay)];
  }

  /** Such a run exists. */
  lemma TwoDeletionsAtOnce(name: string, delay: int) returns (ss: seq<State>, steps: seq<Step>)
    requires delay > 0
    ensures Run(ss, steps) && |steps| == 4
    ensures Deletes(steps[1], name) && Deletes(steps[3], name) && ss[1].now == ss[3].now
  {
    var s1 := SetPc(INIT, name, Looking);
    var s2 := SetPc(s1, name, Idle);
    ss, steps := [INIT, s1, s2], [Begin(name), DeleteLost(name, delay)];
    assert Next(INIT, steps[0], s1) && Next(s1, steps[1], s2);
    ss, steps := LostReplyIsUnspaced(ss, steps, name, delay);
  }

  // ---- Progress ----

  /** The table holds a timer that will never clear its entry. */
  ghost predicate Dead(s: State, n: string) {
    EntryOf(s, n).Some? && !Live(s, EntryOf(s, n).value)
  }

  /** A callback takes the lock before the worker that created its timer does. */
  predicate EarlyFor(s: State, step: Step, n: string) {
    step.Clear? && PcOf(s, n) == Placing(step.id)
  }

  lemma DeadStep(s: State, step: Step, s': State, n: string)
    requires Inv(s) && Dead(s, n) && Next(s, step, s')
    ensures Dead(s', n)
  {
    assert Guarded(s, n);
    if step.Clear? && s.timers[step.id].name == n {
      assert Live(s, step.id);
      assert false;
    } else if step.Place? && step.name != n {
      PlaceKeepsGuard(s, step.name, s', n);
      assert EntryOf(s', n) == EntryOf(s, n);
    } else {
      assert EntryOf(s', n) == EntryOf(s, n);
    }
  }

  /** A dead entry stops the rollout for good: no pod of the cluster is deleted again,
      however the run goes on. */
  lemma {:induction false} DeadForever(ss: seq<State>, steps: seq<Step>, n: string, j: nat, k: nat)
    requires Run(ss, steps) && j <= k < |ss| && Dead(ss[j], n)
    ensures Dead(ss[k], n)
    ensures k < |steps| ==> !Deletes(steps[k], n)
    decreases k
  {
    if j < k {
      DeadForever(ss, steps, n, j, k - 1);
      InvAlways(ss, steps, k - 1);
      assert Next(ss[k - 1], steps[k - 1], ss[k]);
      DeadStep(ss[k - 1], steps[k - 1], ss[k], n);
    }
    InvAlways(ss, steps, k);
    assert Guarded(ss[k], n);
    if k < |steps| {
      assert Next(ss[k], steps[k], ss[k + 1]);
    }
  }

  /** The entry of `n`, and the timer about to become it, can still fire and clear. */
  ghost predicate Lively(s: State, n: string) {
    && (EntryOf(s, n).Some? ==> Live(s, EntryOf(s, n).value))
    && (PcOf(s, n).Placing? ==> Live(s, PcOf(s, n).id))
  }

  lemma LivelyStep(s: State, step: Step, s': State, n: string)
    requires Inv(s) && Lively(s, n) && Next(s, step, s') && !EarlyFor(s, step, n)
    ensures Lively(s', n)
  {
    assert Guarded(s, n);
    if step.Place? {
      PlaceKeepsGuard(s, step.name, s', n);
      assert step.name != n ==> EntryOf(s', n) == EntryOf(s, n);
    } else if step.Clear? && s.timers[step.id].name == n {
      assert Live(s, step.id);
      assert EntryOf(s', n) == None;
    } else {
      assert EntryOf(s', n) == EntryOf(s, n);
    }
  }

  lemma EarlyStep(s: State, step: Step, s': State, n: string)
    requires Next(s, step, s') && EarlyFor(s, step, n)
    ensures !Lively(s', n)
  {
  }

  lemma NotLivelyStep(s: State, step: Step, s': State, n: string)
    requires Inv(s) && !Lively(s, n) && Next(s, step, s')
    ensures !Lively(s', n)
  {
    assert Guarded(s, n);
    if Dead(s, n) {
      DeadStep(s, step, s', n);
    } else if step.Place? {
      PlaceKeepsGuard(s, step.name, s', n);
    } else {
      assert PcOf(s', n) == PcOf(s, n);
    }
  }

  /** Every entry of a cluster, and every timer about to become one, can still fire and
      clear, exactly as long as no callback of that cluster took the lock before its timer
      was in the table. */
  lemma {:induction false} LivelyIff(ss: seq<State>, steps: seq<Step>, n: string, k: nat)
    requires Run(ss, steps) && k < |ss|
    ensures Lively(ss[k], n) <==> forall i :: 0 <= i < k ==> !EarlyFor(ss[i], steps[i], n)
  {
    if k > 0 {
      var s, step, s' := ss[k - 1], steps[k - 1], ss[k];
      LivelyIff(ss, steps, n, k - 1);
      InvAlways(ss, steps, k - 1);
      assert Next(s, step, s');
      if !Lively(s, n) {
        NotLivelyStep(s, step, s', n);
      } else if EarlyFor(s, step, n) {
        EarlyStep(s, step, s', n);
      } else {
        LivelyStep(s, step, s', n);
      }
    }
  }

  ghost predicate Chain(ss: seq<State>, steps: seq<Step>) {
    |ss| == |steps| + 1 && forall k :: 0 <= k < |steps| ==> Next(ss[k], steps[k], ss[k + 1])
  }

  /** Then waiting can end: by the time the timer is due, its own steps clear the entry and
      the worker finds no timer. */
  lemma WaitingEnds(s: State, n: string) returns (ss: seq<State>, steps: seq<Step>)
    requires Lively(s, n) && PcOf(s, n) == Idle && EntryOf(s, n).Some?
    requires s.timers[EntryOf(s, n).value].name == n
    ensures Chain(ss, steps) && ss[0] == s && |steps| <= 3
    ensures var t, due := ss[|steps|], s.timers[EntryOf(s, n).value].due;
            EntryOf(t, n) == None && PcOf(t, n) == Idle && (t.now <= s.now || t.now <= due)
  {
    var id := EntryOf(s, n).value;
    if s.timers[id].phase == Fired {
      var s1 := SetPhase(s, id, Clearing).(table := Cleared(s.table, n));
      ss, steps := [s, s1], [Clear(id)];
    } else {
      var to := if s.now < s.timers[id].due then s.timers[id].due else s.now;
      var s1 := s.(now := to);
      var s2 := SetPhase(s1, id, Fired);
      var s3 := SetPhase(s2, id, Clearing).(table := Cleared(s2.table, n));
      assert Next(s, Tick(to), s1) && Next(s1, Fire(id), s2) && Next(s2, Clear(id), s3);
      ss, steps := [s, s1, s2, s3], [Tick(to), Fire(id), Clear(id)];
    }
  }

  lemma FiresAtOnce(n: string) returns (ss: seq<State>, steps: seq<Step>)
    ensures Run(ss, steps) && |steps| == 4
    ensures ss[4] == State(0, map[], [Timer(n, 0, Fired)], map[n := Placing(0)], map[])
  {
    var s1 := SetPc(INIT, n, Looking);
    var s2 := SetPc(s1, n, Arming(0));
    var s3 := State(0, map[], [NewTimer(n, 0, 0)], map[n := Placing(0)], map[]);
    var s4 := State(0, map[], [Timer(n, 0, Fired)], map[n := Placing(0)], map[]);
    assert s2.pcs == map[n := Arming(0)];
    assert Next(s2, Create(n), s3);
    assert Next(s3, Fire(0), s4);
    ss, steps := [INIT, s1, s2, s3, s4], [Begin(n), Wait(n, 0), Create(n), Fire(0)];
  }

  /** The early callback does happen: a wait that is over when the timer is created. */
  lemma EarlyCallback(n: string) returns (ss: seq<State>, steps: seq<Step>)
    ensures Run(ss, steps) && |steps| == 6 && EarlyFor(ss[4], steps[4], n) && Dead(ss[6], n)
  {
    ss, steps := FiresAtOnce(n);
    var s4 := ss[4];
    var s5 := SetPhase(s4, 0, Clearing).(table := Cleared(s4.table, n));
    var s6 := SetPc(s5, n, Idle).(table := Inserted(s5.table, n, KEY, 0));
    Extend(ss, steps, Clear(0), s5);
    ss, steps := ss + [s5], steps + [Clear(0)];
    Extend(ss, steps, Place(n), s6);
    ss, steps := ss + [s6], steps + [Place(n)];
  }
}
