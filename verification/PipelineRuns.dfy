/** Runs of the pod controller's reconcile, with arbitrary inputs for every reconcile and
    restarts of Varnish between and within reconciles: when the incremental controller
    agrees with one that reloads everything, when its annotation is truthful, and how it
    goes stale. */
module PipelineRuns {
  import opened Text
  import opened FileSync
  import opened Rendering
  import opened Varnishd
  import opened Pipeline
  import VclName

  /** Where within a reconcile Varnish may restart, by the calls to it. */
  datatype Point = BeforeQuery | AfterQuery | AfterReload | AfterSecondQuery

  /** `RestartedIn` is a reconcile with restarts in it; `seen` is the table that its second
      query saw. */
  datatype Event =
    | Restarted
    | Reconciled(i: Inputs, o: Outcome)
    | RestartedIn(i: Inputs, at: set<Point>, p: Phase, seen: Table, annotated: bool)

  function Restart(t: Table, happens: bool): Table {
    if happens then BOOT_TABLE else t
  }

  lemma BootIsActive()
    ensures OneActive(BOOT_TABLE) && ActiveName(BOOT_TABLE) == "boot" && ActiveProgram(BOOT_TABLE) == Boot
  {
    assert IsActive(BOOT_TABLE, "boot");
    assert forall n :: IsActive(BOOT_TABLE, n) ==> n == "boot";
  }

  /** What the first query sees. */
  function Queried(l: Local, at: set<Point>): Table {
    Restart(l.table, BeforeQuery in at)
  }

  /** The reload phase leaves `ran`; what the first query sees decides on it. */
  ghost predicate PhaseIn(l: Local, i: Inputs, at: set<Point>, p: Phase, disk: Files, ran: Table)
    requires Target(i).Some? && OneActive(Queried(l, at))
  {
    PhaseRan(Restart(Queried(l, at), AfterQuery in at), i, disk,
             Touches(l.disk, Target(i).value) || ActiveName(Queried(l, at)) == "boot", p, ran)
  }

  /** What the second query sees goes into the annotation. */
  ghost predicate RestartedStep(l: Local, i: Inputs, at: set<Point>, p: Phase, seen: Table, annotated: bool, l': Local)
    requires OneActive(l.table)
  {
    && Target(i).Some? && OneActive(Queried(l, at))
    && l'.disk == Synced(l.disk, Target(i).value)
    && (exists ran :: PhaseIn(l, i, at, p, l'.disk, ran) && seen == Restart(ran, AfterReload in at))
    && OneActive(seen) && l'.table == Restart(seen, AfterSecondQuery in at)
    && (annotated ==> Continues(p))
    && l'.annotations == if annotated
                         then Annotated(l.annotations, i.cm, Touches(l.disk, Target(i).value), ActiveName(seen))
                         else l.annotations
  }

  ghost predicate Next(l: Local, e: Event, l': Local)
    requires OneActive(l.table)
  {
    match e
    case Restarted => l' == l.(table := BOOT_TABLE)
    case Reconciled(i, o) => ReconcileStep(l, i, o, l')
    case RestartedIn(i, at, p, seen, annotated) => RestartedStep(l, i, at, p, seen, annotated, l')
  }

  ghost predicate Run(ls: seq<Local>, es: seq<Event>) {
    && |ls| == |es| + 1
    && (forall k :: 0 <= k < |ls| ==> OneActive(ls[k].table))
    && forall k :: 0 <= k < |es| ==> Next(ls[k], es[k], ls[k + 1])
  }

  /** The load and the use went through, or were not needed. */
  predicate IsClean(p: Phase) {
    p == Skipped || p.reload.Reloaded? || p.reload.ListError?
  }

  /** No write, query, load, use or compile failed. Rejected inputs, restarts, failed
      list and discard commands and refused pod updates are all clean. */
  predicate Clean(e: Event) {
    match e
    case Restarted => true
    case RestartedIn(_, _, p, _, _) => IsClean(p)
    case Reconciled(_, o) =>
      match o
      case Rejected => true
      case ApplyFailed | QueryFailed => false
      case ReloadFailed(r) => r.ListError?
      case AnnotateFailed(p) => IsClean(p)
      case Done(p) => IsClean(p)
  }

  /** The reconcile goes through to the annotation, and that is accepted. */
  predicate Completes(e: Event) {
    (e.Reconciled? && e.o.Done?) || (e.RestartedIn? && e.annotated)
  }

  /** Without a restart it is the plain reconcile. */
  lemma NoRestartIff(l: Local, i: Inputs, p: Phase, l': Local)
    requires OneActive(l.table)
    ensures ReconcileStep(l, i, Done(p), l') <==> RestartedStep(l, i, {}, p, l'.table, true, l')
  {
    if ReconcileStep(l, i, Done(p), l') {
      assert PhaseIn(l, i, {}, p, l'.disk, l'.table);
    }
  }

  ghost predicate Serves(l: Local, disk: Files)
    requires OneActive(l.table)
  {
    ActiveProgram(l.table).Compiled? && ActiveProgram(l.table).files == disk
  }

  /** Varnish runs what is on disk, or waits on `boot` for its first load. */
  ghost predicate InSync(l: Local)
    requires OneActive(l.table)
  {
    ActiveName(l.table) == "boot" || Serves(l, l.disk)
  }

  /** What the controller sees of the directory is the rendering. */
  predicate Shows(disk: Files, target: Files) {
    && (forall n <- target :: n in disk && disk[n] == target[n])
    && (forall n <- disk :: IsVcl(n) ==> n in target)
  }

  lemma SyncedShows(disk: Files, target: Files)
    ensures Shows(Synced(disk, target), target)
    ensures !Touches(disk, target) ==> Synced(disk, target) == disk
  {
    if !Touches(disk, target) {
      assert forall n :: n in target <==> n in disk && IsVcl(n);
      assert forall n :: n in target ==> target[n] == disk[n];
    }
  }

  /** What the reload phase leaves active, by how it went. */
  lemma TableProgram(before: Table, i: Inputs, disk: Files, needed: bool, p: Phase, after: Table)
    requires OneActive(before) && PhaseRan(before, i, disk, needed, p, after)
    ensures OneActive(after)
    ensures p.Ran? && (p.reload.Reloaded? || p.reload.ListError?) ==>
              ActiveName(after) == ConfigName(i) && ActiveProgram(after) == Compiled(i.entry, disk)
    ensures !(p.Ran? && (p.reload.Reloaded? || p.reload.ListError?)) ==>
              ActiveName(after) == ActiveName(before) && ActiveProgram(after) == ActiveProgram(before)
  {
    if p.Ran? {
      ReloadKeepsOneActive(before, i.cm.version, i.second, Compiled(i.entry, disk), p.reload, after);
    }
  }

  lemma PhaseProgram(l: Local, i: Inputs, target: Files, p: Phase, table: Table)
    requires OneActive(l.table) && PhaseStep(l, i, target, p, table)
    ensures OneActive(table)
    ensures p.Ran? && (p.reload.Reloaded? || p.reload.ListError?) ==>
              ActiveName(table) == ConfigName(i) && ActiveProgram(table) == Compiled(i.entry, Synced(l.disk, target))
    ensures !(p.Ran? && (p.reload.Reloaded? || p.reload.ListError?)) ==>
              ActiveName(table) == ActiveName(l.table) && ActiveProgram(table) == ActiveProgram(l.table)
  {
    TableProgram(l.table, i, Synced(l.disk, target), NeedsReload(l, target), p, table);
  }

  /** A completed reconcile leaves Varnish running the wanted program exactly when it
      reloaded, or when that very program was active already. The same holds for the
      files alone. Where it had to reload, it did exactly if the program compiles. */
  lemma CompletedServesIff(l: Local, i: Inputs, p: Phase, l': Local)
    requires OneActive(l.table) && ReconcileStep(l, i, Done(p), l')
    ensures l'.disk == Synced(l.disk, Target(i).value) && Shows(l'.disk, Target(i).value)
    ensures ActiveProgram(l'.table) == Compiled(i.entry, l'.disk) <==>
            || (p.Ran? && p.reload.Reloaded?)
            || ActiveProgram(l.table) == Compiled(i.entry, Synced(l.disk, Target(i).value))
    ensures Serves(l', l'.disk) <==>
            (p.Ran? && p.reload.Reloaded?) || Serves(l, Synced(l.disk, Target(i).value))
    ensures p.Ran? ==> (p.reload.Reloaded? <==> i.compiles(Compiled(i.entry, l'.disk)))
  {
    PhaseProgram(l, i, Target(i).value, p, l'.table);
    SyncedShows(l.disk, Target(i).value);
  }

  /** A restart that no reload of the same reconcile makes good, before or after its end. */
  predicate Undone(at: set<Point>, p: Phase) {
    AfterReload in at || (AfterQuery in at && p == Skipped)
  }

  predicate Survives(e: Event) {
    e.RestartedIn? ==> !Undone(e.at, e.p) && AfterSecondQuery !in e.at
  }

  ghost predicate RunsIn(t: Table, disk: Files)
    requires OneActive(t)
  {
    ActiveProgram(t).Compiled? && ActiveProgram(t).files == disk
  }

  /** Restarts within a clean reconcile: it keeps Varnish on the disk or on `boot`. Its second
      query sees the files of the disk in use exactly if no restart is left undone by then,
      and Varnish runs them afterwards exactly if there is none after it either. */
  lemma RestartServesIff(l: Local, i: Inputs, at: set<Point>, p: Phase, seen: Table, annotated: bool, l': Local)
    requires OneActive(l.table) && InSync(l) && IsClean(p)
    requires RestartedStep(l, i, at, p, seen, annotated, l')
    ensures OneActive(l'.table) && InSync(l') && Shows(l'.disk, Target(i).value)
    ensures RunsIn(seen, l'.disk) <==> !Undone(at, p)
    ensures Undone(at, p) ==> seen == BOOT_TABLE
    ensures Serves(l', l'.disk) <==> !Undone(at, p) && AfterSecondQuery !in at
  {
    BootIsActive();
    SyncedShows(l.disk, Target(i).value);
    var queried := Queried(l, at);
    var needed := Touches(l.disk, Target(i).value) || ActiveName(queried) == "boot";
    var ran :| PhaseIn(l, i, at, p, l'.disk, ran) && seen == Restart(ran, AfterReload in at);
    TableProgram(Restart(queried, AfterQuery in at), i, l'.disk, needed, p, ran);
  }

  lemma ReconcileKeepsSync(l: Local, i: Inputs, o: Outcome, l': Local)
    requires OneActive(l.table) && OneActive(l'.table) && ReconcileStep(l, i, o, l')
    requires InSync(l) && Clean(Reconciled(i, o))
    ensures InSync(l')
    ensures o.Done? ==> Serves(l', l'.disk) && Shows(l'.disk, Target(i).value)
  {
    if o != Rejected {
      var target := Target(i).value;
      SyncedShows(l.disk, target);
      match o
      case ReloadFailed(r) => PhaseProgram(l, i, target, Ran(r), l'.table);
      case AnnotateFailed(p) => PhaseProgram(l, i, target, p, l'.table);
      case Done(p) => PhaseProgram(l, i, target, p, l'.table);
    }
  }

  /** Clean steps and restarts keep Varnish on the disk or on `boot`; a completed reconcile
      leaves it on the disk exactly if it survives its restarts. */
  lemma CleanStepKeepsSync(l: Local, e: Event, l': Local)
    requires OneActive(l.table) && OneActive(l'.table) && Next(l, e, l')
    requires InSync(l) && Clean(e)
    ensures InSync(l')
    ensures Completes(e) ==> Shows(l'.disk, Target(e.i).value) && (Serves(l', l'.disk) <==> Survives(e))
  {
    match e
    case Restarted => BootIsActive();
    case Reconciled(i, o) => ReconcileKeepsSync(l, i, o, l');
    case RestartedIn(i, at, p, seen, annotated) => RestartServesIff(l, i, at, p, seen, annotated, l');
  }

  lemma {:induction false} CleanRunStaysInSync(ls: seq<Local>, es: seq<Event>, k: nat)
    requires Run(ls, es) && InSync(ls[0]) && forall e <- es :: Clean(e)
    requires k <= |es|
    ensures InSync(ls[k])
  {
    if k > 0 {
      CleanRunStaysInSync(ls, es, k - 1);
      CleanStepKeepsSync(ls[k - 1], es[k - 1], ls[k]);
    }
  }

  lemma DiskIsSynced(l: Local, e: Event, l': Local)
    requires OneActive(l.table) && Next(l, e, l') && Completes(e)
    ensures Target(e.i).Some? && l'.disk == Synced(l.disk, Target(e.i).value)
  {
  }

  /** Incremental equals full: over every clean run, wherever Varnish restarts, after each
      completed reconcile it runs the files that a full write and reload of the fresh
      rendering would have given it, although untouched reconciles skip the reload; exactly
      unless a restart within that very reconcile put it on `boot`, from where the next one
      reloads. */
  lemma IncrementalEqualsFull(ls: seq<Local>, es: seq<Event>, k: nat)
    requires Run(ls, es) && InSync(ls[0]) && forall e <- es :: Clean(e)
    requires k < |es| && Completes(es[k])
    ensures Target(es[k].i).Some?
    ensures ls[k + 1].disk == Synced(ls[k].disk, Target(es[k].i).value)
    ensures Shows(ls[k + 1].disk, Target(es[k].i).value)
    ensures Serves(ls[k + 1], ls[k + 1].disk) <==> Survives(es[k])
    ensures InSync(ls[k + 1])
  {
    CleanRunStaysInSync(ls, es, k);
    assert Next(ls[k], es[k], ls[k + 1]);
    CleanStepKeepsSync(ls[k], es[k], ls[k + 1]);
    DiskIsSynced(ls[k], es[k], ls[k + 1]);
  }

  // ---- The version annotation ----

  const VERSION := "configMapVersion"

  /** No restart leaves the second query on `boot` in a reconcile that touched no file. */
  ghost predicate Truthful(l: Local, e: Event)
    requires Completes(e) && Target(e.i).Some?
  {
    e.RestartedIn? && Undone(e.at, e.p) ==> Touches(l.disk, Target(e.i).value)
  }

  function SeenTable(e: Event, l': Local): Table {
    if e.RestartedIn? then e.seen else l'.table
  }

  /** The annotation of `ls[j]` was set by the completed reconcile of step `k` and names its
      ConfigMap; the rendering of that was on disk at that moment, and running exactly if
      the reconcile was truthful. */
  ghost predicate SetAt(ls: seq<Local>, es: seq<Event>, j: nat, k: nat)
    requires Run(ls, es) && k < j <= |es|
  {
    && Completes(es[k]) && Target(es[k].i).Some?
    && At(ls[j].annotations, VERSION) == At(ls[k + 1].annotations, VERSION) == Some(es[k].i.cm.version)
    && Shows(ls[k + 1].disk, Target(es[k].i).value)
    && OneActive(SeenTable(es[k], ls[k + 1]))
    && (RunsIn(SeenTable(es[k], ls[k + 1]), ls[k + 1].disk) <==> Truthful(ls[k], es[k]))
  }

  lemma AnnotationStep(l: Local, e: Event, l': Local)
    requires OneActive(l.table) && Next(l, e, l')
    ensures At(l'.annotations, VERSION) != At(l.annotations, VERSION) ==>
              Completes(e) && At(l'.annotations, VERSION) == Some(e.i.cm.version)
  {
  }

  lemma BootHasNoVersion()
    ensures VclName.ExtractVersion("boot") == ""
  {
    SplitWithoutSeparator("boot", '-');
  }

  /** A restart within a clean reconcile whose annotation is new makes it untruthful exactly
      if no file was touched and no reload of the reconcile made the restart good. A
      resource version is never empty. */
  lemma RestartMisleadsIff(l: Local, e: Event, l': Local)
    requires OneActive(l.table) && InSync(l) && Next(l, e, l') && e.RestartedIn? && Clean(e)
    requires e.i.cm.version != "" && At(l'.annotations, VERSION) != At(l.annotations, VERSION)
    ensures Completes(e) && (RunsIn(e.seen, l'.disk) <==> Truthful(l, e))
  {
    RestartServesIff(l, e.i, e.at, e.p, e.seen, e.annotated, l');
    BootIsActive();
    BootHasNoVersion();
  }

  lemma AnnotationIsSet(l: Local, e: Event, l': Local)
    requires OneActive(l.table) && OneActive(l'.table) && InSync(l) && Next(l, e, l') && Clean(e)
    requires At(l'.annotations, VERSION) != At(l.annotations, VERSION)
    requires e.Restarted? || e.i.cm.version != ""
    ensures Completes(e) && Target(e.i).Some? && Shows(l'.disk, Target(e.i).value)
    ensures At(l'.annotations, VERSION) == Some(e.i.cm.version)
    ensures OneActive(SeenTable(e, l')) && (RunsIn(SeenTable(e, l'), l'.disk) <==> Truthful(l, e))
  {
    AnnotationStep(l, e, l');
    CleanStepKeepsSync(l, e, l');
    DiskIsSynced(l, e, l');
    if e.RestartedIn? {
      RestartMisleadsIff(l, e, l');
    }
  }

  /** Over every clean run the annotation is the initial one, or it was set by a completed
      reconcile whose rendering was on disk and, exactly if that was truthful, running. */
  lemma {:induction false} TruthfulAnnotation(ls: seq<Local>, es: seq<Event>, j: nat)
    requires Run(ls, es) && InSync(ls[0]) && forall e <- es :: Clean(e)
    requires forall e <- es :: e.Restarted? || e.i.cm.version != ""
    requires j <= |es|
    ensures At(ls[j].annotations, VERSION) == At(ls[0].annotations, VERSION)
         || exists k: nat :: k < j && SetAt(ls, es, j, k)
  {
    if j > 0 {
      var last := j - 1;
      TruthfulAnnotation(ls, es, last);
      assert Next(ls[last], es[last], ls[j]);
      if At(ls[j].annotations, VERSION) != At(ls[last].annotations, VERSION) {
        CleanRunStaysInSync(ls, es, last);
        AnnotationIsSet(ls[last], es[last], ls[j]);
        assert SetAt(ls, es, j, last);
      } else if k: nat :| k < last && SetAt(ls, es, last, k) {
        assert SetAt(ls, es, j, k);
      }
    }
  }

  /** A completed clean reconcile always brings the annotation up to date, although after
      a metadata-only edit the active VCL still carries an older version: resource
      versions have no dash, so the version is read back from the name of a fresh VCL. */
  lemma AnnotationIsLatest(l: Local, i: Inputs, p: Phase, l': Local)
    requires OneActive(l.table) && ReconcileStep(l, i, Done(p), l')
    requires Clean(Reconciled(i, Done(p)))
    requires '-' !in i.cm.version
    ensures At(l'.annotations, VERSION) == Some(i.cm.version)
  {
    PhaseProgram(l, i, Target(i).value, p, l'.table);
    VclName.ExtractOfCreate(i.cm.version, i.second);
  }

  // ---- Runs that are not clean ----

  /** Everything is written, Varnish runs something else, and nothing is left to touch. */
  ghost predicate Stale(l: Local, target: Files) {
    && OneActive(l.table)
    && Visible(l.disk) == target
    && ActiveName(l.table) != "boot"
    && !Serves(l, l.disk)
  }

  /** A reconcile that wrote files but then did not bring them into Varnish. */
  predicate MissesReload(o: Outcome) {
    match o
    case Rejected | ApplyFailed => false
    case QueryFailed => true
    case ReloadFailed(r) => !r.ListError?
    case AnnotateFailed(p) => p.Ran? && p.reload.CompileFailed?
    case Done(p) => p.Ran? && p.reload.CompileFailed?
  }

  /** `boot` is not one of the controller's programs. */
  ghost predicate BootIsForeign(l: Local)
    requires OneActive(l.table)
  {
    ActiveName(l.table) == "boot" ==> ActiveProgram(l.table) == Boot
  }

  ghost predicate WouldCompile(l: Local, i: Inputs)
    requires Target(i).Some?
  {
    i.compiles(Compiled(i.entry, Synced(l.disk, Target(i).value)))
  }

  /** When no call fails by itself, Varnish runs what is on disk afterwards exactly if there
      is something to load, its name is free and it compiles, or if it ran just that before.
      In a state in sync the latter means that no file changes and Varnish is not on `boot`.
      All of this can be seen before the reconcile. */
  lemma ForeseenServesIff(l: Local, i: Inputs, o: Outcome, l': Local)
    requires OneActive(l.table) && Target(i).Some?
    requires ReconcileStep(l, i, o, l') && Foreseen(l, i, o)
    ensures OneActive(l'.table)
    ensures Serves(l', l'.disk) <==>
            || (NeedsReload(l, Target(i).value) && !IsLive(l.table, ConfigName(i)) && WouldCompile(l, i))
            || Serves(l, Synced(l.disk, Target(i).value))
    ensures InSync(l) && BootIsForeign(l) ==>
              (Serves(l', l'.disk) <==>
               || (!IsLive(l.table, ConfigName(i)) && WouldCompile(l, i))
               || (Synced(l.disk, Target(i).value) == l.disk && ActiveName(l.table) != "boot"))
  {
    var target := Target(i).value;
    SyncedShows(l.disk, target);
    match o
    case Done(p) => PhaseProgram(l, i, target, p, l'.table);
    case ReloadFailed(r) => PhaseProgram(l, i, target, Ran(r), l'.table);
  }

  lemma MissedReloadIsStale(l: Local, i: Inputs, o: Outcome, l': Local)
    requires OneActive(l.table) && ReconcileStep(l, i, o, l') && MissesReload(o)
    requires AllVcl(Target(i).value)
    requires ActiveName(l.table) != "boot" && !Serves(l, Synced(l.disk, Target(i).value))
    ensures Stale(l', Target(i).value)
  {
    var target := Target(i).value;
    SecondRunTouchesIff(l.disk, target);
    match o
    case QueryFailed =>
    case ReloadFailed(r) => PhaseProgram(l, i, target, Ran(r), l'.table);
    case AnnotateFailed(p) => PhaseProgram(l, i, target, p, l'.table);
    case Done(p) => PhaseProgram(l, i, target, p, l'.table);
  }

  lemma NothingToInterrupt(disk: Files, after: Files)
    ensures !Interrupted(disk, Visible(disk), after)
  {
  }

  lemma StaleStep(l: Local, i: Inputs, o: Outcome, l': Local, target: Files)
    requires Stale(l, target) && ReconcileStep(l, i, o, l')
    requires Target(i) == Some(target) || Target(i) == None
    ensures Stale(l', target) && l'.table == l.table
    ensures o.Done? ==> At(l'.annotations, VERSION) == Some(i.cm.version)
  {
    SyncedShows(l.disk, target);
    NothingToInterrupt(l.disk, l'.disk);
  }

  /** The retry does not reload: from a stale state every further reconcile of the same
      rendering leaves the table alone, and a completed one annotates the version that
      Varnish does not run. Only another rendering or a restart ends this. */
  lemma {:induction false} StaleUntilTouched(ls: seq<Local>, es: seq<Event>, target: Files, k: nat)
    requires Run(ls, es) && Stale(ls[0], target)
    requires forall e <- es :: e.Reconciled? && (Target(e.i) == Some(target) || Target(e.i) == None)
    requires k <= |es|
    ensures Stale(ls[k], target) && ls[k].table == ls[0].table
    ensures k > 0 && Completes(es[k - 1]) ==> At(ls[k].annotations, VERSION) == Some(es[k - 1].i.cm.version)
  {
    if k > 0 {
      StaleUntilTouched(ls, es, target, k - 1);
      assert Next(ls[k - 1], es[k - 1], ls[k]);
      StaleStep(ls[k - 1], es[k - 1].i, es[k - 1].o, ls[k], target);
    }
  }

  // ---- Runs from a fresh pod ----

  /** An empty directory and a varnishd that has just started. */
  const FRESH := Local(map[], BOOT_TABLE, map[])

  lemma FreshIsInSync()
    ensures OneActive(FRESH.table) && ActiveName(FRESH.table) == "boot" && InSync(FRESH) && BootIsForeign(FRESH)
  {
    BootIsActive();
  }

  /** The table after the first load of `program` under `name`. */
  function FirstTable(name: string, program: Program): Table {
    Switched(Loaded(BOOT_TABLE, name, program), name)
  }

  lemma FirstTableCollects(name: string, program: Program)
    requires name != "boot"
    ensures OneActive(FirstTable(name, program))
    ensures ActiveName(FirstTable(name, program)) == name && ActiveProgram(FirstTable(name, program)) == program
    ensures Collected(FirstTable(name, program), {}, FirstTable(name, program))
  {
    SwitchedHasOneActive(Loaded(BOOT_TABLE, name, program), name);
    var t := FirstTable(name, program);
    assert forall n :: n in t ==> n == name || n == "boot";
    assert "boot"[..2][0] == 'b' && VclName.PREFIX[0] == 'v';
  }

  /** The first reconcile loads. */
  lemma FirstReconcile(i: Inputs) returns (l: Local)
    requires Target(i).Some? && i.compiles(Compiled(i.entry, Target(i).value))
    ensures OneActive(FRESH.table) && ReconcileStep(FRESH, i, Done(Ran(Reloaded({}))), l)
    ensures Foreseen(FRESH, i, Done(Ran(Reloaded({}))))
    ensures l.disk == Target(i).value
    ensures OneActive(l.table) && ActiveName(l.table) == ConfigName(i) && ConfigName(i) != "boot"
    ensures ActiveProgram(l.table) == Compiled(i.entry, l.disk) && IsLive(l.table, ConfigName(i))
    ensures '-' !in i.cm.version ==> At(l.annotations, VERSION) == Some(i.cm.version)
  {
    VclName.ExtractOfCreate(i.cm.version, i.second);
    AnnotatedMeans(map[], i.cm, Touches(map[], Target(i).value), ConfigName(i));
    var name, target := ConfigName(i), Target(i).value;
    FreshIsInSync();
    VclName.CreatedHasPrefix(i.cm.version, i.second);
    assert Synced(map[], target) == target;
    var program := Compiled(i.entry, target);
    FirstTableCollects(name, program);
    l := Local(target, FirstTable(name, program), Annotated(map[], i.cm, Touches(map[], target), name));
    assert ReloadStep(BOOT_TABLE, name, program, Reloaded({}), l.table);
  }

  lemma RefusedLoad(l: Local, i: Inputs)
    requires OneActive(l.table) && Target(i).Some? && Touches(l.disk, Target(i).value)
    requires IsLive(l.table, ConfigName(i))
    ensures ReconcileStep(l, i, ReloadFailed(LoadError), l.(disk := Synced(l.disk, Target(i).value)))
    ensures Foreseen(l, i, ReloadFailed(LoadError))
  {
  }

  lemma UntouchedRetry(l: Local, i: Inputs)
    requires OneActive(l.table) && ActiveName(l.table) != "boot"
    requires Target(i).Some? && Visible(l.disk) == Target(i).value
    ensures ReconcileStep(l, i, Done(Skipped),
                          l.(annotations := Annotated(l.annotations, i.cm, false, ActiveName(l.table))))
    ensures Foreseen(l, i, Done(Skipped))
  {
    SyncedShows(l.disk, Target(i).value);
  }

  lemma {:induction false} ExtendRun(ls: seq<Local>, es: seq<Event>, e: Event, l: Local)
    requires Run(ls, es) && OneActive(l.table) && Next(ls[|es|], e, l)
    ensures Run(ls + [l], es + [e])
  {
    var ts, more := ls + [l], es + [e];
    forall k | 0 <= k < |more|
      ensures Next(ts[k], more[k], ts[k + 1])
    {
      if k < |es| {
        assert Next(ls[k], es[k], ls[k + 1]);
      }
    }
  }

  lemma RunOfTwo(l0: Local, e0: Event, l1: Local, e1: Event, l2: Local)
    requires OneActive(l0.table) && OneActive(l1.table) && OneActive(l2.table)
    requires Next(l0, e0, l1) && Next(l1, e1, l2)
    ensures Run([l0, l1, l2], [e0, e1])
  {
    assert Run([l0], []);
    ExtendRun([l0], [], e0, l1);
    assert [l0] + [l1] == [l0, l1] && [] + [e0] == [e0];
    ExtendRun([l0, l1], [e0], e1, l2);
    assert [l0, l1] + [l2] == [l0, l1, l2] && [e0] + [e1] == [e0, e1];
  }

  lemma RunOfThree(l0: Local, e0: Event, l1: Local, e1: Event, l2: Local, e2: Event, l3: Local)
    requires OneActive(l0.table) && OneActive(l1.table) && OneActive(l2.table) && OneActive(l3.table)
    requires Next(l0, e0, l1) && Next(l1, e1, l2) && Next(l2, e2, l3)
    ensures Run([l0, l1, l2, l3], [e0, e1, e2])
  {
    RunOfTwo(l0, e0, l1, e1, l2);
    ExtendRun([l0, l1, l2], [e0, e1], e2, l3);
    assert [l0, l1, l2] + [l3] == [l0, l1, l2, l3] && [e0, e1] + [e2] == [e0, e1, e2];
  }

  lemma AllVisible(before: Files, target: Files)
    requires AllVcl(before) && AllVcl(target)
    ensures Visible(before) == before && Visible(target) == target && Synced(before, target) == target
  {
  }

  lemma UntouchedAnnotation(a: Annotations, cm: ConfigMap, active: string)
    ensures At(Annotated(a, cm, false, active), VERSION) == Some(cm.version)
  {
  }

  /** A stale run from a fresh pod in which no call fails by itself, for any two different
      renderings within one second: the first is loaded, the load of the second reuses the
      name and is refused, and the retry finds nothing to touch, so Varnish stays on the
      first and the pod claims the version of the second. */
  lemma TwoChangesInOneSecond(i: Inputs, j: Inputs) returns (ls: seq<Local>, es: seq<Event>)
    requires Target(i).Some? && AllVcl(Target(i).value)
    requires Target(j).Some? && AllVcl(Target(j).value)
    requires i.compiles(Compiled(i.entry, Target(i).value))
    requires Target(i) != Target(j) && ConfigName(i) == ConfigName(j)
    ensures Run(ls, es) && ls[0] == FRESH && |ls| == 4
    ensures es == [Reconciled(i, Done(Ran(Reloaded({})))),
                   Reconciled(j, ReloadFailed(LoadError)), Reconciled(j, Done(Skipped))]
    ensures forall k :: 0 <= k < 3 ==> Foreseen(ls[k], es[k].i, es[k].o)
    ensures Serves(ls[1], Target(i).value) && Serves(ls[3], Target(i).value)
    ensures ls[3].disk == Target(j).value && At(ls[3].annotations, VERSION) == Some(j.cm.version)
  {
    FreshIsInSync();
    var l1 := FirstReconcile(i);
    AllVisible(Target(i).value, Target(j).value);
    RefusedLoad(l1, j);
    var l2 := l1.(disk := Target(j).value);
    UntouchedRetry(l2, j);
    var l3 := l2.(annotations := Annotated(l2.annotations, j.cm, false, ConfigName(j)));
    UntouchedAnnotation(l2.annotations, j.cm, ConfigName(j));
    ls := [FRESH, l1, l2, l3];
    es := [Reconciled(i, Done(Ran(Reloaded({})))),
           Reconciled(j, ReloadFailed(LoadError)), Reconciled(j, Done(Skipped))];
    RunOfThree(FRESH, es[0], l1, es[1], l2, es[2], l3);
  }

  const ENTRY := "e.vcl"

  /** Inputs with one template that renders to `text`, and their rendering. */
  function OneTemplate(version: string, text: string, second: nat): Inputs {
    Inputs(ConfigMap(version, map[ENTRY + TMPL := ""], ""), ENTRY, (n, t) => Some(text), second, _ => true)
  }

  lemma OneTemplateRenders(version: string, text: string, second: nat)
    ensures Target(OneTemplate(version, text, second)) == Some(map[ENTRY := HEADER + text])
    ensures AllVcl(map[ENTRY := HEADER + text])
  {
    var i := OneTemplate(version, text, second);
    var r := Some(map[ENTRY := HEADER + text]);
    TemplateNames(ENTRY);
    assert !IsTemplate(ENTRY) && IsVcl(ENTRY);
    forall n
      ensures At(r.value, n) == Output(i.cm.data, i.exec, n)
    {
      if n + TMPL == ENTRY + TMPL {
        assert n == (n + TMPL)[..|n|] == (ENTRY + TMPL)[..|ENTRY|];
      }
    }
    RenderingIsUnique(i.cm.data, i.exec, i.entry, r, Target(i));
  }

  lemma HeaderKeepsApart(x: string, y: string)
    requires x != y
    ensures map[ENTRY := HEADER + x] != map[ENTRY := HEADER + y]
  {
    assert (HEADER + x)[|HEADER|..] == x && (HEADER + y)[|HEADER|..] == y;
    assert map[ENTRY := HEADER + x][ENTRY] != map[ENTRY := HEADER + y][ENTRY];
  }

  /** Such a run exists: one ConfigMap with one template, and backends that change twice
      within one second. */
  lemma SomeRunGoesStale(version: string, second: nat, x: string, y: string) returns (ls: seq<Local>, es: seq<Event>)
    requires x != y
    ensures Run(ls, es) && ls[0] == FRESH && |es| == 3
    ensures es[0].Reconciled? && es[0].i == OneTemplate(version, x, second)
    ensures es[1].Reconciled? && es[2].Reconciled? && es[1].i == es[2].i == OneTemplate(version, y, second)
    ensures forall k :: 0 <= k < 3 ==> Foreseen(ls[k], es[k].i, es[k].o)
    ensures Completes(es[2]) && !Serves(ls[3], ls[3].disk)
  {
    OneTemplateRenders(version, x, second);
    OneTemplateRenders(version, y, second);
    HeaderKeepsApart(x, y);
    ls, es := TwoChangesInOneSecond(OneTemplate(version, x, second), OneTemplate(version, y, second));
  }

  /** While Varnish runs another version, a reconcile whose program does not compile keeps the
      annotated versions, and one that completes otherwise moves the version. */
  lemma CompletedAnnotatesIff(l: Local, i: Inputs, p: Phase, l': Local)
    requires OneActive(l.table) && ActiveName(l.table) != "boot"
    requires ReconcileStep(l, i, Done(p), l') && '-' !in i.cm.version
    requires VclName.ExtractVersion(ActiveName(l.table)) != i.cm.version
    ensures p == Ran(CompileFailed) ==>
              && At(l'.annotations, VERSION) == At(l.annotations, VERSION)
              && At(l'.annotations, "VCLVersion") == At(l.annotations, "VCLVersion")
    ensures p != Ran(CompileFailed) ==> At(l'.annotations, VERSION) == Some(i.cm.version)
  {
    PhaseProgram(l, i, Target(i).value, p, l'.table);
    VclName.ExtractOfCreate(i.cm.version, i.second);
    AnnotatedMeans(l.annotations, i.cm, Touches(l.disk, Target(i).value), ActiveName(l'.table));
  }

  lemma CompileRefused(l: Local, i: Inputs)
    requires OneActive(l.table) && Target(i).Some? && Touches(l.disk, Target(i).value)
    requires !IsLive(l.table, ConfigName(i)) && !WouldCompile(l, i)
    ensures var disk := Synced(l.disk, Target(i).value);
            ReconcileStep(l, i, Done(Ran(CompileFailed)),
                          Local(disk, l.table, Annotated(l.annotations, i.cm, true, ActiveName(l.table))))
    ensures Foreseen(l, i, Done(Ran(CompileFailed)))
  {
  }

  /** The everyday failure, for any two different renderings of which the second does not
      compile: its files are written, and the next reconcile touches nothing and annotates
      the version that Varnish does not run. */
  lemma BrokenVclIsAnnotated(i: Inputs, j: Inputs) returns (ls: seq<Local>, es: seq<Event>)
    requires Target(i).Some? && AllVcl(Target(i).value)
    requires Target(j).Some? && AllVcl(Target(j).value)
    requires Target(i) != Target(j) && ConfigName(i) != ConfigName(j)
    requires i.compiles(Compiled(i.entry, Target(i).value)) && !j.compiles(Compiled(j.entry, Target(j).value))
    ensures Run(ls, es) && ls[0] == FRESH && |ls| == 4
    ensures es == [Reconciled(i, Done(Ran(Reloaded({})))),
                   Reconciled(j, Done(Ran(CompileFailed))), Reconciled(j, Done(Skipped))]
    ensures forall k :: 0 <= k < 3 ==> Foreseen(ls[k], es[k].i, es[k].o)
    ensures Serves(ls[3], Target(i).value) && ls[3].disk == Target(j).value
    ensures At(ls[3].annotations, VERSION) == Some(j.cm.version)
    ensures '-' !in i.cm.version && i.cm.version != j.cm.version ==>
              At(ls[1].annotations, VERSION) == At(ls[2].annotations, VERSION) == Some(i.cm.version)
  {
    FreshIsInSync();
    var l1 := FirstReconcile(i);
    VclName.ExtractOfCreate(i.cm.version, i.second);
    AnnotatedMeans(l1.annotations, j.cm, true, ConfigName(i));
    AllVisible(Target(i).value, Target(j).value);
    VclName.CreatedHasPrefix(j.cm.version, j.second);
    assert !IsLive(l1.table, ConfigName(j));
    CompileRefused(l1, j);
    var l2 := Local(Target(j).value, l1.table, Annotated(l1.annotations, j.cm, true, ConfigName(i)));
    UntouchedRetry(l2, j);
    var l3 := l2.(annotations := Annotated(l2.annotations, j.cm, false, ConfigName(i)));
    UntouchedAnnotation(l2.annotations, j.cm, ConfigName(i));
    ls := [FRESH, l1, l2, l3];
    es := [Reconciled(i, Done(Ran(Reloaded({})))),
           Reconciled(j, Done(Ran(CompileFailed))), Reconciled(j, Done(Skipped))];
    RunOfThree(FRESH, es[0], l1, es[1], l2, es[2], l3);
  }

  lemma UntouchedRestart(l: Local, j: Inputs) returns (l': Local)
    requires OneActive(l.table) && ActiveName(l.table) != "boot"
    requires Target(j).Some? && Visible(l.disk) == Target(j).value
    ensures RestartedStep(l, j, {AfterQuery}, Skipped, BOOT_TABLE, true, l')
    ensures l'.table == BOOT_TABLE && At(l'.annotations, VERSION) == Some(j.cm.version)
  {
    BootIsActive();
    SyncedShows(l.disk, Target(j).value);
    l' := Local(l.disk, BOOT_TABLE, Annotated(l.annotations, j.cm, false, "boot"));
    UntouchedAnnotation(l.annotations, j.cm, "boot");
    assert PhaseIn(l, j, {AfterQuery}, Skipped, l.disk, BOOT_TABLE);
  }

  /** A restart after the first query of a reconcile that touches no file, such as one after
      a metadata-only edit: the pod claims the new version while Varnish is on `boot`. */
  lemma RestartMisleads(i: Inputs, j: Inputs) returns (ls: seq<Local>, es: seq<Event>)
    requires Target(i).Some? && AllVcl(Target(i).value) && i.compiles(Compiled(i.entry, Target(i).value))
    requires Target(j) == Target(i)
    ensures Run(ls, es) && ls[0] == FRESH && |ls| == 3
    ensures es == [Reconciled(i, Done(Ran(Reloaded({})))), RestartedIn(j, {AfterQuery}, Skipped, BOOT_TABLE, true)]
    ensures Clean(es[0]) && Clean(es[1])
    ensures ActiveProgram(ls[2].table) == Boot && At(ls[2].annotations, VERSION) == Some(j.cm.version)
  {
    FreshIsInSync();
    BootIsActive();
    var l1 := FirstReconcile(i);
    AllVisible(Target(i).value, Target(j).value);
    var l2 := UntouchedRestart(l1, j);
    ls := [FRESH, l1, l2];
    es := [Reconciled(i, Done(Ran(Reloaded({})))), RestartedIn(j, {AfterQuery}, Skipped, BOOT_TABLE, true)];
    RunOfTwo(FRESH, es[0], l1, es[1], l2);
  }

  // ---- After an apply that stopped half-way ----

  /** Whatever comes next after an interrupted apply that wrote something: once a clean
      reconcile completes, Varnish runs what is on disk exactly unless the wanted files
      were by then the half-applied ones. In that case the reload is skipped and the version
      annotated all the same. */
  lemma InterruptedApplyServesIff(l: Local, i: Inputs, l1: Local, next: Inputs, p: Phase, l2: Local)
    requires OneActive(l.table) && ActiveName(l.table) != "boot" && Serves(l, l.disk)
    requires ReconcileStep(l, i, ApplyFailed, l1) && l1.disk != l.disk
    requires ReconcileStep(l1, next, Done(p), l2) && Clean(Reconciled(next, Done(p)))
    ensures Serves(l2, l2.disk) <==> Target(next).value != Visible(l1.disk)
    ensures Target(next).value == Visible(l1.disk) ==>
              p == Skipped && l2.disk == l1.disk && At(l2.annotations, VERSION) == Some(next.cm.version)
  {
    CompletedServesIff(l1, next, p, l2);
    SyncedShows(l1.disk, Target(next).value);
  }

  /** The retry of the same rendering ends with the directory the first attempt would have
      left, and Varnish runs it exactly if the first attempt had not in fact finished. */
  lemma RetryServesIff(l: Local, i: Inputs, l1: Local, again: Inputs, p: Phase, l2: Local)
    requires OneActive(l.table) && ActiveName(l.table) != "boot" && Serves(l, l.disk)
    requires ReconcileStep(l, i, ApplyFailed, l1) && l1.disk != l.disk
    requires Target(again) == Target(i) && AllVcl(Target(i).value)
    requires ReconcileStep(l1, again, Done(p), l2) && Clean(Reconciled(again, Done(p)))
    ensures l2.disk == Synced(l.disk, Target(i).value)
    ensures Serves(l2, l2.disk) <==> l1.disk != Synced(l.disk, Target(i).value)
  {
    InterruptedApplyServesIff(l, i, l1, again, p, l2);
    RetryFinishes(l.disk, Target(i).value, l1.disk);
  }

  /** A ConfigMap of plain files. */
  function Plain(version: string, files: Files, entry: string, second: nat): Inputs {
    Inputs(ConfigMap(version, files, ""), entry, (n, t) => None, second, _ => true)
  }

  lemma PlainRenders(version: string, files: Files, entry: string, second: nat)
    requires entry in files && AllVcl(files)
    ensures Target(Plain(version, files, entry, second)) == Some(files)
  {
    var i := Plain(version, files, entry, second);
    forall n | IsVcl(n)
      ensures !IsTemplate(n)
    {
      assert n[|n| - 2] == 'c';
    }
    forall n
      ensures n + TMPL !in files
    {
      TemplateNames(n);
    }
    RenderingIsUnique(files, i.exec, entry, Some(files), Target(i));
  }

  /** `half` is `before` with one file brought in line with `target`, and others not. */
  predicate HalfWay(before: Files, target: Files, half: Files, name: string) {
    name in target && half == before[name := target[name]] && half != before && half != target
  }

  lemma HalfWayIsInterrupted(before: Files, target: Files, half: Files, name: string)
    requires AllVcl(before) && AllVcl(target) && HalfWay(before, target, half, name)
    ensures Interrupted(before, target, half)
  {
    AllVisible(before, target);
    SameFilesIff(half, target);
    var failed :| (failed in half || failed in target) && At(half, failed) != At(target, failed);
    assert failed != name && At(half, failed) == At(before, failed);
    assert StoppedAt(before, target, half, failed);
  }

  /** A run from a fresh pod that misses an edit: the second apply stops after one of its
      files, and the ConfigMap is then edited to just what is on disk. */
  lemma HalfAppliedTargetIsMissed(i: Inputs, j: Inputs, h: Inputs, name: string)
    returns (ls: seq<Local>, es: seq<Event>)
    requires Target(i).Some? && AllVcl(Target(i).value)
    requires Target(j).Some? && AllVcl(Target(j).value)
    requires Target(h).Some? && AllVcl(Target(h).value)
    requires i.compiles(Compiled(i.entry, Target(i).value))
    requires HalfWay(Target(i).value, Target(j).value, Target(h).value, name)
    ensures Run(ls, es) && ls[0] == FRESH && |ls| == 4
    ensures es == [Reconciled(i, Done(Ran(Reloaded({})))), Reconciled(j, ApplyFailed), Reconciled(h, Done(Skipped))]
    ensures !Serves(ls[3], ls[3].disk) && ls[3].disk == Target(h).value
    ensures At(ls[3].annotations, VERSION) == Some(h.cm.version)
  {
    FreshIsInSync();
    var l1 := FirstReconcile(i);
    HalfWayIsInterrupted(Target(i).value, Target(j).value, Target(h).value, name);
    var l2 := l1.(disk := Target(h).value);
    AllVisible(Target(i).value, Target(h).value);
    UntouchedRetry(l2, h);
    var l3 := l2.(annotations := Annotated(l2.annotations, h.cm, false, ConfigName(i)));
    UntouchedAnnotation(l2.annotations, h.cm, ConfigName(i));
    ls := [FRESH, l1, l2, l3];
    es := [Reconciled(i, Done(Ran(Reloaded({})))), Reconciled(j, ApplyFailed), Reconciled(h, Done(Skipped))];
    RunOfThree(FRESH, es[0], l1, es[1], l2, es[2], l3);
  }

  function TwoFiles(entry: string, x: string, other: string, y: string): Files {
    map[entry := x][other := y]
  }

  lemma TwoFilesHalfWay(entry: string, other: string, x: string, y: string)
    requires IsVcl(entry) && IsVcl(other) && entry != other && x != y
    ensures AllVcl(TwoFiles(entry, x, other, x)) && AllVcl(TwoFiles(entry, y, other, y))
    ensures AllVcl(TwoFiles(entry, y, other, x))
    ensures HalfWay(TwoFiles(entry, x, other, x), TwoFiles(entry, y, other, y), TwoFiles(entry, y, other, x), entry)
  {
    var t, u, half := TwoFiles(entry, x, other, x), TwoFiles(entry, y, other, y), TwoFiles(entry, y, other, x);
    assert half[entry] == y && half[other] == x && t[entry] == x && u[other] == y;
    assert half == t[entry := u[entry]];
  }

  /** Such a run exists: two plain files are both edited, and then one edit is undone. */
  lemma SomeEditIsMissed(versions: (string, string, string), entry: string, other: string, x: string, y: string)
    returns (ls: seq<Local>, es: seq<Event>)
    requires IsVcl(entry) && IsVcl(other) && entry != other && x != y
    ensures Run(ls, es) && ls[0] == FRESH && |es| == 3
    ensures es[2] == Reconciled(Plain(versions.2, TwoFiles(entry, y, other, x), entry, 2), Done(Skipped))
    ensures !Serves(ls[3], ls[3].disk)
  {
    TwoFilesHalfWay(entry, other, x, y);
    var t, u, half := TwoFiles(entry, x, other, x), TwoFiles(entry, y, other, y), TwoFiles(entry, y, other, x);
    PlainRenders(versions.0, t, entry, 0);
    PlainRenders(versions.1, u, entry, 1);
    PlainRenders(versions.2, half, entry, 2);
    ls, es := HalfAppliedTargetIsMissed(Plain(versions.0, t, entry, 0), Plain(versions.1, u, entry, 1),
                                        Plain(versions.2, half, entry, 2), entry);
  }

  /** Editing only the entry point of the spec is never noticed: no file changes, so a
      reconcile completes without a reload and Varnish stays on the old entry point. */
  lemma EntryPointEditIsIgnored(l: Local, i: Inputs, p: Phase, l': Local)
    requires OneActive(l.table) && Serves(l, l.disk) && ActiveName(l.table) != "boot"
    requires ReconcileStep(l, i, Done(p), l')
    requires !Touches(l.disk, Target(i).value)
    ensures p == Skipped && l'.table == l.table
    ensures ActiveProgram(l'.table) == Compiled(i.entry, l'.disk) <==> ActiveProgram(l.table).entry == i.entry
    ensures At(l'.annotations, VERSION) == Some(i.cm.version)
  {
    SyncedShows(l.disk, Target(i).value);
    PhaseProgram(l, i, Target(i).value, p, l'.table);
  }
}
