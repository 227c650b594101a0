/** The pod controller's reconcile: render, apply the difference to disk, reload Varnish
    only when that is needed, annotate the pod. Runs of it are compared with the
    controller that would write and reload everything every time. */
module Pipeline {
  import opened Text
  import opened FileSync
  import opened Rendering
  import opened Varnishd
  import VclName

  /** `userVersion` is the `VCLVersion` annotation of the ConfigMap, empty if missing. */
  datatype ConfigMap = ConfigMap(version: string, data: Files, userVersion: string)

  /** What one reconcile reads from the API server, the second it happens in, and which
      programs would compile then. */
  datatype Inputs = Inputs(cm: ConfigMap, entry: string, exec: Executor, second: nat, compiles: Program -> bool)

  type Annotations = map<string, string>

  datatype Local = Local(disk: Files, table: Table, annotations: Annotations)

  datatype Phase = Skipped | Ran(reload: Reload)

  /** How far a reconcile came. */
  datatype Outcome =
    | Rejected               // a read failed or the ConfigMap does not render
    | ApplyFailed            // a write or a remove failed
    | QueryFailed            // files written, the active VCL could not be read
    | ReloadFailed(reload: Reload)
    | AnnotateFailed(phase: Phase)
    | Done(phase: Phase)

  ghost function Target(i: Inputs): Option<Files> {
    Rendered(i.cm.data, i.exec, i.entry)
  }

  function ConfigName(i: Inputs): string {
    VclName.Create(i.cm.version, i.second)
  }

  /** The pod annotations after a reconcile that saw `active` in use. */
  function Annotated(a: Annotations, cm: ConfigMap, touched: bool, active: string): Annotations {
    var moved :=
      if VclName.ExtractVersion(active) == cm.version || !touched then
        var user := if cm.userVersion == "" then a - {"VCLVersion"} else a["VCLVersion" := cm.userVersion];
        user["configMapVersion" := cm.version]
      else a;
    moved["activeVCLConfigName" := active]
  }

  ghost predicate NeedsReload(l: Local, target: Files)
    requires OneActive(l.table)
  {
    Touches(l.disk, target) || ActiveName(l.table) == "boot"
  }

  /** The reload phase for a table and a directory: skipped, or run if it is needed. */
  ghost predicate PhaseRan(before: Table, i: Inputs, disk: Files, needed: bool, p: Phase, after: Table) {
    match p
    case Skipped => !needed && after == before
    case Ran(r) =>
      && needed
      && Judged(i.compiles(Compiled(i.entry, disk)), r)
      && ReloadStep(before, ConfigName(i), Compiled(i.entry, disk), r, after)
  }

  ghost predicate PhaseStep(l: Local, i: Inputs, target: Files, p: Phase, table: Table)
    requires OneActive(l.table)
  {
    PhaseRan(l.table, i, Synced(l.disk, target), NeedsReload(l, target), p, table)
  }

  predicate Continues(p: Phase) {
    p.Skipped? || p.reload.Reloaded? || p.reload.CompileFailed?
  }

  /** One reconcile of the pod controller. */
  ghost predicate ReconcileStep(l: Local, i: Inputs, o: Outcome, l': Local)
    requires OneActive(l.table)
  {
    if o.Rejected? then l' == l
    else
      && Target(i).Some?
      && var target := Target(i).value;
      if o.ApplyFailed? then
        Interrupted(l.disk, target, l'.disk) && l' == l.(disk := l'.disk)
      else
        && l'.disk == Synced(l.disk, target)
        && match o
           case QueryFailed => l'.table == l.table && l'.annotations == l.annotations
           case ReloadFailed(r) =>
             PhaseStep(l, i, target, Ran(r), l'.table) && !Continues(Ran(r)) && l'.annotations == l.annotations
           case AnnotateFailed(p) =>
             PhaseStep(l, i, target, p, l'.table) && Continues(p) && l'.annotations == l.annotations
           case Done(p) =>
             && PhaseStep(l, i, target, p, l'.table) && Continues(p)
             && OneActive(l'.table)
             && l'.annotations == Annotated(l.annotations, i.cm, Touches(l.disk, target), ActiveName(l'.table))
  }

  /** The outcome when no call fails by itself: a reconcile completes unless the ConfigMap
      does not render or the name of the new VCL is taken. */
  ghost predicate Foreseen(l: Local, i: Inputs, o: Outcome)
    requires OneActive(l.table)
  {
    if Target(i).None? then o == Rejected
    else if !NeedsReload(l, Target(i).value) then o == Done(Skipped)
    else if IsLive(l.table, ConfigName(i)) then o == ReloadFailed(LoadError)
    else if i.compiles(Compiled(i.entry, Synced(l.disk, Target(i).value))) then o == Done(Ran(Reloaded({})))
    else o == Done(Ran(CompileFailed))
  }

  /** The annotations `after`, key by key: the two versions stay while files were touched and
      the active VCL carries another version; else they are those of the ConfigMap. */
  ghost predicate AnnotatedAs(before: Annotations, after: Annotations, cm: ConfigMap, touched: bool, active: string) {
    && At(after, "activeVCLConfigName") == Some(active)
    && (if touched && VclName.ExtractVersion(active) != cm.version then
          && At(after, "configMapVersion") == At(before, "configMapVersion")
          && At(after, "VCLVersion") == At(before, "VCLVersion")
        else
          && At(after, "configMapVersion") == Some(cm.version)
          && At(after, "VCLVersion") == if cm.userVersion == "" then None else Some(cm.userVersion))
    && forall k :: k !in {"activeVCLConfigName", "configMapVersion", "VCLVersion"} ==> At(after, k) == At(before, k)
  }

  lemma AnnotatedMeans(a: Annotations, cm: ConfigMap, touched: bool, active: string)
    ensures AnnotatedAs(a, Annotated(a, cm, touched, active), cm, touched, active)
  {
    assert "activeVCLConfigName"[0] == 'a' && "configMapVersion"[0] == 'c' && "VCLVersion"[0] == 'V';
  }

  /** `reliable` says that calls to the API server do not fail. */
  class PodController {
    const disk: Directory
    const varnish: Daemon
    const reliable: bool
    var annotations: Annotations

    constructor (disk: Directory, varnish: Daemon, reliable: bool)
      ensures this.disk == disk && this.varnish == varnish && annotations == map[] && this.reliable == reliable
    {
      this.disk, this.varnish, annotations, this.reliable := disk, varnish, map[], reliable;
    }

    predicate AllReliable() {
      reliable && disk.reliable && varnish.reliable && varnish.refused == {}
    }

    ghost function State(): Local
      reads this, disk, varnish
    {
      Local(disk.files, varnish.table, annotations)
    }

    /** Annotate the pod; the update may be refused. */
    method ReconcilePod(touched: bool, cm: ConfigMap) returns (ok: bool)
      requires OneActive(varnish.table)
      modifies this
      ensures annotations == if ok then Annotated(old(annotations), cm, touched, ActiveName(varnish.table))
                             else old(annotations)
      ensures !ok ==> annotations == old(annotations)
      ensures ok ==> AnnotatedAs(old(annotations), annotations, cm, touched, ActiveName(varnish.table))
      ensures AllReliable() ==> ok
    {
      AnnotatedMeans(annotations, cm, touched, ActiveName(varnish.table));
      var active;
      ok, active := varnish.GetActiveConfigurationName();
      if !ok {
        return;
      }
      var copy := annotations;
      var latestConfigMapInUse := cm.version == VclName.ExtractVersion(active);
      if latestConfigMapInUse || (!latestConfigMapInUse && !touched) {
        if cm.userVersion == "" {
          copy := copy - {"VCLVersion"};
        } else {
          copy := copy["VCLVersion" := cm.userVersion];
        }
        copy := copy["configMapVersion" := cm.version];
      }
      copy := copy["activeVCLConfigName" := active];
      if copy != annotations {
        ok := *;
        ok := ok || reliable;
        if ok {
          annotations := copy;
        }
      }
    }

    /** Up to the write of the files. */
    method WriteFiles(i: Inputs) returns (failed: Option<Outcome>, touched: bool)
      modifies disk
      ensures failed in {None, Some(Rejected), Some(ApplyFailed)}
      ensures failed == Some(Rejected) ==> disk.files == old(disk.files)
      ensures failed != Some(Rejected) ==> Target(i).Some?
      ensures failed == Some(ApplyFailed) ==> Interrupted(old(disk.files), Target(i).value, disk.files)
      ensures failed == None ==> disk.files == Synced(old(disk.files), Target(i).value)
      ensures failed == None ==> (touched <==> Touches(old(disk.files), Target(i).value))
      ensures AllReliable() ==> failed == if Target(i).Some? then None else Some(Rejected)
    {
      touched := false;
      var readable: bool := *;
      if !readable && !reliable {
        return Some(Rejected), false;
      }
      var rendered := Render(i.cm.data, i.exec, i.entry);
      if rendered.None? {
        return Some(Rejected), false;
      }
      var ok, currFiles := disk.GetCurrentFiles();
      if !ok {
        return Some(Rejected), false;
      }
      touched, ok := disk.ReconcileFiles(currFiles, rendered.value);
      failed := if ok then None else Some(ApplyFailed);
    }

    /** The first query and the reload, if it is needed. */
    method ReloadIfNeeded(i: Inputs, touched: bool) returns (failed: Option<Outcome>, phase: Phase)
      requires OneActive(varnish.table)
      modifies varnish
      ensures OneActive(varnish.table)
      ensures var needed := touched || ActiveName(old(varnish.table)) == "boot";
              match failed
              case None => Continues(phase) && PhaseRan(old(varnish.table), i, disk.files, needed, phase, varnish.table)
              case Some(QueryFailed) => varnish.table == old(varnish.table)
              case Some(ReloadFailed(r)) =>
                !Continues(Ran(r)) && PhaseRan(old(varnish.table), i, disk.files, needed, Ran(r), varnish.table)
              case _ => false
      ensures varnish.reliable && varnish.refused == {} ==>
                if !(touched || ActiveName(old(varnish.table)) == "boot") then failed == None && phase == Skipped
                else if IsLive(old(varnish.table), ConfigName(i)) then failed == Some(ReloadFailed(LoadError))
                else && failed == None
                     && phase == Ran(if i.compiles(Compiled(i.entry, disk.files)) then Reloaded({}) else CompileFailed)
    {
      phase := Skipped;
      var ok, configName := varnish.GetActiveConfigurationName();
      if !ok {
        return Some(QueryFailed), phase;
      }
      if touched || configName == "boot" {
        ghost var before := varnish.table;
        var program := Compiled(i.entry, disk.files);
        var r := varnish.ReconcileVarnish(i.cm.version, i.second, i.entry, disk.files, i.compiles(program));
        ReloadKeepsOneActive(before, i.cm.version, i.second, program, r, varnish.table);
        if !(r.Reloaded? || r.CompileFailed?) {
          return Some(ReloadFailed(r)), phase;
        }
        phase := Ran(r);
      }
      return None, phase;
    }

    method Reconcile(i: Inputs) returns (o: Outcome)
      requires OneActive(varnish.table)
      modifies this, disk, varnish
      ensures OneActive(varnish.table)
      ensures ReconcileStep(old(State()), i, o, State())
      ensures AllReliable() ==> Foreseen(old(State()), i, o)
    {
      var failed, filesTouched := WriteFiles(i);
      if failed.Some? {
        return failed.value;
      }
      var phase;
      failed, phase := ReloadIfNeeded(i, filesTouched);
      if failed.Some? {
        return failed.value;
      }
      var ok := ReconcilePod(filesTouched, i.cm);
      return if ok then Done(phase) else AnnotateFailed(phase);
    }
  }
}
