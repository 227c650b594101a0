# Varnish operator: a verified model

A Varnish cluster on Kubernetes is kept up by two controllers. The *operator* watches the
`VarnishCluster` object and owns everything around the pods; the *pod controller* runs beside
each varnishd, renders the VCL of a ConfigMap against the current backends, writes it to disk
and reloads Varnish. This project models both as state machines over their single steps, and
the algorithms they rest on as methods proved against specifications, and proves what they keep
over every run. Where the code falls short of what it is for, a lemma exhibits the failing run
or input and another states exactly when it does not fail.

| file | what it models |
|---|---|
| `Text.dfy` | prefixes, suffixes, `Split`, decimal numerals, Go's order on strings |
| `Ordering.dfy` | stable sorting by a string key, uniqueness of a sorted permutation |
| `VclName.dfy` | VCL names made of the ConfigMap version and the second |
| `FileSync.dfy` | the VCL directory, the count-map difference and its application in place |
| `Varnishd.dfy` | the VCL table of varnishd, reload and garbage collection |
| `VclList.dfy` | reading that table from `vcl.list`, as text and as JSON |
| `Rendering.dfy` | from ConfigMap entries and templates to files |
| `Pipeline.dfy`, `PipelineRuns.dfy` | one reconcile of the pod controller; runs of it compared with a full reload every time |
| `EndToEnd.dfy` | the wake-up protocol and the pipeline together |
| `WakeUp.dfy` | how ConfigMap edits, spec edits and pod events reach the pod controller |
| `Triggerer.dfy` | the timer table and its asynchronous callbacks |
| `Rollout.dfy`, `RolloutProtocol.dfy` | the decision of the delayed rolling update; the decision and the timer protocol together |
| `OneDown.dfy` | timers and readiness together |
| `Finalizers.dfy` | the life of the cluster object and its cluster-scoped resources |
| `VarnishArgs.dfy`, `CanonicalArgs.dfy` | the two parsers of the varnishd arguments and the canonical order |
| `Endpoints.dfy` | the backend list and port from the listed pods |
| `ZoneBalancing.dfy`, `ZoneWeights.dfy` | the ratio of local to remote backends, thresholds, weights |
| `Backends.dfy` | the lookup of weighted backends as a whole; from the order of the listing to the files on disk |

Go's map iteration is an arbitrary choice (`:|`). A file operation, an administration command or
an API call may fail whenever it is made; a component marked `reliable` is one that does not fail
by itself, and what must then succeed is part of the contracts. Template execution is an
arbitrary partial function and VCL compilation an arbitrary predicate of the program, both fresh
for every reconcile. Times and the outcome of reads are parameters.

A method is proved against a specification function, and what that function means is proved apart
from it, in terms of the entities and literal constants alone: `Endpoints.AnswerMeans`,
`ZoneWeights.BalancedMeans`, `Rollout.DecisionMeans`, `Pipeline.AnnotatedAs`,
`Rendering.RenderingMeans`, `Text.NotAfter`. The methods promise both.

## What the code does not keep

These follow the code. Each comes with the exact condition and with a run or an input that
shows the failure.

- Only `.vcl` names are read back from disk, so a second apply is a no-op exactly if every rendered name ends in `.vcl` (`FileSync.SecondRunTouchesIff`).
- Files are written before the load, and a reconcile that touches no file does not load. When no call fails by itself, Varnish runs what is on disk afterwards exactly if there is something to load, its VCL name is free and it compiles, or if it ran just that before (`PipelineRuns.ForeseenServesIff`). After a miss no retry loads, and the version annotation names a ConfigMap that Varnish does not run (`MissedReloadIsStale`, `StaleUntilTouched`). From a fresh pod any rendering that does not compile does it after one that does (`BrokenVclIsAnnotated`), and any two different renderings within one second (`TwoChangesInOneSecond`, `SomeRunGoesStale`).
- Varnish may restart within a reconcile. Afterwards it runs the disk exactly unless a restart after the first query is followed by no load of that reconcile (`RestartServesIff`), and then the next one reloads; a new annotation is untruthful exactly if no file was touched and a restart between the two queries is followed by no load (`RestartMisleadsIff`, `RestartMisleads`).
- After an apply that stopped half-way, Varnish runs what is on disk after the next completed reconcile exactly unless the wanted files are by then the half-applied ones (`InterruptedApplyServesIff`, `RetryServesIff`); an edit to that state is missed (`HalfAppliedTargetIsMissed`, `SomeEditIsMissed`).
- Changing only the entry point in the spec touches no file and is not loaded (`EntryPointEditIsIgnored`).
- A pod update that the event filters drop changes the rendering exactly if the pod joins or leaves what is rendered (`WakeUp.DroppedUpdateIff`): by relabelling (`RelabelIsDropped`), or by losing its IP (`UnsetAddressIsDropped`). From any reachable state at rest that has lost nothing, a step loses a change exactly if it is such an update (`LostIff`, `SomeChangeIsLost`), and a change stays lost at most until the backends are listed again (`NoLostChange`).
- A delete that takes effect and returns an error sets no timer. The next deletion keeps its distance from those whose reply arrived (`Triggerer.DelaySpacing`), and may follow at once after one whose reply was lost (`LostReplyIsUnspaced`, `TwoDeletionsAtOnce`).
- A timer callback that is through before its timer is in the table leaves a dead entry, which stops the rollout for good (`EarlyCallback`, `DeadForever`). The entries of a cluster stay alive exactly as long as that has not happened to it (`LivelyIff`).
- A pod without a start time crashes the rolling update exactly if the decision gets past its first checks, some updated pod has no start time, and there is an outdated pod or another updated one (`Rollout.ReconcileDelayedRollingUpdate`, `UnstartedPodPanics`).
- At a deletion every pod deleted before has been replaced, exactly unless one of them lingers, terminating, and was counted ready (`OneDown.ReplacedIff`, `OnePodDownIff`); a second pod is then deleted too early (`TwoPodsDown`).
- A line of the text listing with four or six columns and no slash in the second crashes the parser, exactly if every line before is well-formed (`VclList.NoTemperatureIff`).
- An error of removing the monitoring or dashboard finalizer is swallowed. A deletion is forgotten exactly if that is the last thing that happened with nothing else queued (`Finalizers.ForgottenIff`, `SomeDeletionIsForgotten`).
- The sanitizer's key pattern is a raw string with a doubled backslash and matches a literal text only, so it takes any following argument for a value; `CanonicalArgs.ParsersAgreeIff` says when it still agrees with the webhook. An overridden key of the user is left in the final list exactly if it was taken for the value of a kept key (`OverriddenStaysIff`, `AdminStaysIff`, `AdminCanStay`). The comment at `varnishcluster_varnish_args.go:39` states the intent, the model follows the code.
- Outside what the webhook accepts, two pairs can join to one text, and then their order shows (`OrderIrrelevantIff`, `SpaceInKeyShows`).
- The comment at `endpoints.go:177` promises that pods in another order give the same list. That holds exactly if backends with one IP look the same and the last matching ports of all backends agree (`Endpoints.OrderIrrelevantIff`); a pod with two matching containers is listed twice.
- A port given by its number comes with an empty name, which matches every container port without one. A pod is listed for the wanted port only exactly if none of its unnamed ports stands before that (`Endpoints.FirstIsNumberIff`, `ListedByNumberIff`); otherwise the lookup can answer another port (`WrongPortAnswered`).
- Automatic weights may fall below one (`ZoneWeights.AutoWeightsIff`).

## Model

| member | source | states |
|---|---|---|
| Text.LexLeqIff | pkg/varnishcontroller/controller/endpoints.go:180-182 | the order on strings is that of Go: a prefix comes first, else the first code unit that differs decides |
| Text.DecimalReads | pkg/varnishcontroller/controller/controller_varnish.go:76-78 | the numeral of the second reads back as it, without leading zeros |
| VclName.SplitCreated | pkg/varnishcontroller/controller/controller_varnish.go:76-78 | splitting a created name at dashes gives the prefix, the parts of the version and the second |
| VclName.ExtractOfCreate | pkg/varnishcontroller/controller/controller_pod.go:71-77 | extracting from a created name gives the version back, exactly for versions without a dash |
| VclName.CreateInjective | pkg/varnishcontroller/controller/controller_varnish.go:75-78 | two names clash exactly if version and second are equal |
| FileSync.CountDiff | pkg/varnishcontroller/controller/controller_files.go:34-40 | every name on either side gets 1, -1 or 0 for create, remove or compare, in any iteration order |
| FileSync.Directory.GetCurrentFiles | pkg/varnishcontroller/controller/controller_files.go:14-31 | reads exactly the `.vcl` files; does not fail on a reliable disk |
| FileSync.Directory.ReconcileFiles | pkg/varnishcontroller/controller/controller_files.go:33-67 | in any order ends with the visible files equal to the target and reports touched exactly when they differed; stopped at a failure, that file is as before or as far as it was written, every other one as before or as wanted |
| FileSync.SecondRunTouchesIff | pkg/varnishcontroller/controller/controller_files.go:22-28 | after an apply another one is a no-op exactly if all target names end in `.vcl` |
| FileSync.RetryFinishes | pkg/varnishcontroller/controller/controller_files.go:49-62 | after an apply that stopped half-way the retry ends with the same directory, and reports touched exactly unless the failed write had in fact finished everything |
| Varnishd.Daemon.ReconcileVarnish | pkg/varnishcontroller/controller/controller_varnish.go:27-73 | load, use, then discard of the available `v-` VCLs; each kind of failure leaves the table its step says; with reliable commands only a taken name or the compiler can stop it, and every other live `v-` VCL is gone but those whose discard is refused |
| Varnishd.Daemon.GetActiveConfigurationName | pkg/varnishcontroller/varnishadm/varnishadm.go:155-187 | gives the active VCL, and finds it whenever there is one |
| Varnishd.ReloadKeepsOneActive | pkg/varnishcontroller/varnishadm/varnishadm.go:115-121 | one reload, whatever fails in it, leaves one active VCL: the new one exactly if `vcl.use` went through, and spares VCLs without the prefix |
| Varnishd.FullCollection | pkg/varnishcontroller/controller/controller_varnish.go:60-69 | after a completed reload the only live `v-` VCLs are the new one and those whose discard failed, so leftovers of failed `use` commands are collected |
| Varnishd.TableSafety | pkg/varnishcontroller/controller/controller_varnish.go:53-69 | over any run of reloads with any failures there is always exactly one active VCL, and VCLs without the prefix, such as `boot`, stay live with their program |
| VclList.ParseConfigsList | pkg/varnishcontroller/varnishadm/varnishadm_vcl_list.go:53-78 | the line loop computes the line-by-line reading of the text, the first malformed line ending it |
| VclList.ListingRoundTrip | pkg/varnishcontroller/varnishadm/varnishadm_vcl_list.go:53-78 | for every table of plain, labelled and label rows, in any spacing and with blank lines anywhere, parsing its listing gives statuses, names, temperatures and label targets back in order |
| VclList.ParsedIff | pkg/varnishcontroller/varnishadm/varnishadm_vcl_list.go:58-75 | a text parses exactly if every line has no, four or six columns and a slash in the second |
| VclList.NoTemperatureIff | pkg/varnishcontroller/varnishadm/varnishadm_vcl_list.go:62-66 | the code indexes out of range instead of returning an error exactly if some line has four or six columns and no slash in the second, and every line before is well-formed |
| VclList.ParseVclFromMap | pkg/varnishcontroller/varnishadm/varnishadm_vcl_list.go:140-183 | fails exactly if a needed member is missing or of another type or a label has no name; otherwise each field is the member of that name, the busy count without its fraction, and it is a label exactly if there is one, pointing to its name |
| VclList.ParseVcls | pkg/varnishcontroller/varnishadm/varnishadm_vcl_list.go:123-135 | fails exactly if some object is malformed; otherwise every object is read, in order |
| VclList.RoutesAgree | pkg/varnishcontroller/varnishadm/varnishadm_vcl_list.go:140-183 | the JSON objects of a table are well-formed, and whatever is read from them agrees with the text listing but for state and busy count |
| VclList.GetActiveVclConfig | pkg/varnishcontroller/varnishadm/varnishadm.go:175-187 | finds the first active configuration, and none exactly if there is none |
| VclList.ActiveNameAgrees | pkg/varnishcontroller/varnishadm/varnishadm.go:166-187 | both listings of a table name the same active VCL |
| VclList.ActiveIsListed | pkg/varnishcontroller/varnishadm/varnishadm.go:175-187 | from either listing of any table of the daemon the one VCL in use is found, by the status text `active` |
| Rendering.FilesAndTemplates | pkg/varnishcontroller/controller/controller.go:240-251 | parts the entries by the `.tmpl` suffix |
| Rendering.ResolveTemplates | pkg/varnishcontroller/controller/controller_template.go:11-35 | succeeds exactly if every template executes; each output stands under the name without suffix, behind the header |
| Rendering.Render | pkg/varnishcontroller/controller/controller.go:180-209 | gives nothing exactly if the entry point is missing, a template fails or a file and a template clash; otherwise every plain file unchanged, every template without its suffix and behind the literal header, and nothing else |
| Rendering.RenderingIsUnique | pkg/varnishcontroller/controller/controller.go:196-209 | the description of a rendering, file by file, has at most one solution |
| Pipeline.PodController.ReconcilePod | pkg/varnishcontroller/controller/controller_pod.go:23-69 | while files were touched and the active VCL carries another version, both version annotations stay; else they become the version of the ConfigMap and its user version, or none if that is empty; the active name always follows, all other keys stay; a refused update changes nothing |
| Pipeline.PodController.Reconcile | pkg/varnishcontroller/controller/controller.go:143-238 | every call is one pipeline step, with the outcome telling how far it came; if no call fails by itself it completes unless the ConfigMap does not render or the VCL name is taken |
| PipelineRuns.CompletedServesIff | pkg/varnishcontroller/controller/controller.go:216-237 | a completed reconcile leaves Varnish on the wanted program exactly if it reloaded or that program was active before; where it had to reload it did exactly if the program compiles |
| PipelineRuns.NoRestartIff | pkg/varnishcontroller/controller/controller.go:216-237 | the reconcile with restarts in it, without any, is the plain one |
| PipelineRuns.CleanStepKeepsSync | pkg/varnishcontroller/controller/controller.go:226-231 | clean reconciles, and restarts between and within them, keep Varnish on the files on disk, or on `boot` |
| PipelineRuns.RestartServesIff | pkg/varnishcontroller/controller/controller.go:221-233 | with restarts at any of the calls of a clean reconcile, the second query sees the files of the disk in use exactly if no restart is left undone by then, and Varnish runs them afterwards exactly if none follows either |
| PipelineRuns.IncrementalEqualsFull | pkg/varnishcontroller/controller/controller.go:180-231 | over every clean run, wherever Varnish restarts, after each completed reconcile the disk is the fresh rendering and Varnish runs exactly it, exactly unless a restart within that reconcile put it on `boot` |
| PipelineRuns.RestartMisleadsIff | pkg/varnishcontroller/controller/controller_pod.go:36-50 | a restart within a clean reconcile makes a new annotation untruthful exactly if no file was touched and no load made it good |
| PipelineRuns.RestartMisleads | pkg/varnishcontroller/controller/controller.go:221-233 | such a run exists after any first load, for any other version of the same rendering |
| PipelineRuns.TruthfulAnnotation | pkg/varnishcontroller/controller/controller_pod.go:36-50 | over every clean run the annotation is the initial one or was set by a completed reconcile whose rendering was on disk at that moment and, exactly unless a restart misled it, running |
| PipelineRuns.AnnotationIsLatest | pkg/varnishcontroller/controller/controller_pod.go:36-50 | a completed clean reconcile always annotates the present version, also after metadata-only edits |
| PipelineRuns.CompletedAnnotatesIff | pkg/varnishcontroller/controller/controller_pod.go:36-50 | while Varnish runs another version, a reconcile whose program does not compile keeps the annotated versions, and any other completed one moves the version |
| PipelineRuns.ForeseenServesIff | pkg/varnishcontroller/controller/controller.go:216-231 | when no call fails by itself, Varnish runs the disk afterwards exactly if there is something to load, its name is free and it compiles, or if it ran just that before; in sync, that is: no file changes and it is not on `boot` |
| PipelineRuns.MissedReloadIsStale | pkg/varnishcontroller/controller/controller_varnish.go:31-48 | a reconcile that wrote files but did not load them leaves a stale state |
| PipelineRuns.StaleUntilTouched | pkg/varnishcontroller/controller/controller.go:226-231 | in a stale state further reconciles of that rendering never reload, and completed ones annotate the version that is not running |
| PipelineRuns.TwoChangesInOneSecond | pkg/varnishcontroller/controller/controller_varnish.go:76-78 | from a fresh pod, for any two different renderings under one version and second: the first is loaded, the load of the second is refused, the retry skips it, and the pod claims the second while running the first |
| PipelineRuns.SomeRunGoesStale | pkg/varnishcontroller/controller/controller.go:226-231 | such a run exists for one template and any two different outputs |
| PipelineRuns.BrokenVclIsAnnotated | pkg/varnishcontroller/controller/controller_varnish.go:31-41 | from a fresh pod, for any two different renderings of which the second does not compile: its files are written and the annotation still names the first; the next reconcile annotates the version of the second while Varnish runs the first |
| PipelineRuns.InterruptedApplyServesIff | pkg/varnishcontroller/controller/controller.go:216-231 | after an apply that stopped having written something, the next completed clean reconcile leaves Varnish on the disk exactly unless it wants just the half-applied files, which it then annotates without loading |
| PipelineRuns.RetryServesIff | pkg/varnishcontroller/controller/controller.go:216-231 | the retry of the same rendering ends with the same directory, running exactly if the first attempt had not in fact finished |
| PipelineRuns.HalfAppliedTargetIsMissed | pkg/varnishcontroller/controller/controller.go:216-231 | a run from a fresh pod for any half-way target: loaded, half applied, edited to that state, annotated but not running |
| PipelineRuns.SomeEditIsMissed | pkg/varnishcontroller/controller/controller.go:216-231 | such a run exists for any two plain files |
| PipelineRuns.EntryPointEditIsIgnored | pkg/varnishcontroller/controller/controller.go:226-231 | a reconcile that touches no file keeps the old entry point |
| WakeUp.UsedPodsAreWatched | pkg/varnishcontroller/controller/controller.go:159-164 | every pod the rendering uses passes the filters set from the same spec |
| WakeUp.DroppedUpdateIff | pkg/varnishcontroller/predicates/label_matcher.go:37-64 | a pod update that the filters drop, whatever it changes but the namespace, keeps the backends exactly if it keeps the pod's being one, and likewise the Varnish nodes |
| WakeUp.HarmfulOnlyBy | pkg/varnishcontroller/predicates/label_matcher.go:37-64 | only a change of labels or a lost address or node can be such an update; readiness, a new address and a new node always pass |
| WakeUp.RelabelIsDropped | pkg/varnishcontroller/predicates/label_matcher.go:42-63 | new labels alone never pass, although the pod joins or leaves the selection |
| WakeUp.DroppedCreateIsIrrelevant | pkg/varnishcontroller/predicates/label_matcher.go:29-31 | the same for a created pod |
| WakeUp.DroppedDeleteIsIrrelevant | pkg/varnishcontroller/predicates/namespaces_matcher.go:30-47 | the same for a deleted pod |
| WakeUp.UnsetAddressIsDropped | pkg/varnishcontroller/predicates/label_matcher.go:51-57 | clearing the IP of a used backend is dropped although it changes the backends |
| WakeUp.OperatorStepKeepsInv | pkg/varnishcluster/controller/varnishcluster_configmap.go:37-89 | every operator step keeps: the status names the present ConfigMap or the operator will run |
| WakeUp.PodStepKeepsInv | pkg/varnishcontroller/controller/controller.go:159-216 | every pod-controller step keeps: what was read of the cluster object and the ConfigMap, and written from them, is current or it will run again |
| WakeUp.PodsStep | pkg/varnishcontroller/predicates/namespaces_matcher.go:26-61 | every step but a dropped update by which a pod joins or leaves what is rendered keeps what was read of the pods current |
| WakeUp.ListingRestores | pkg/varnishcontroller/controller/controller.go:186-194 | listing the backends makes it current whatever was missed before |
| WakeUp.NoLostChange | pkg/varnishcluster/controller/varnishcluster_controller.go:307-311 | in every reachable state the disk was rendered from the present ConfigMap, spec and pods, or a reconcile is queued or running, or since the backends were last listed a dropped update made a pod join or leave what is rendered |
| WakeUp.LostIff | pkg/varnishcontroller/predicates/label_matcher.go:37-64 | in any run, from a state at rest that has lost nothing, a step loses a change exactly if it is such an update |
| WakeUp.SomeChangeIsLost | pkg/varnishcontroller/predicates/label_matcher.go:37-64 | a reachable state loses the relabelling of a used backend |
| EndToEnd.InvStep | pkg/varnishcontroller/controller/controller.go:143-238 | every joint step of the protocol and the pipeline keeps: the pod controller is busy, or the disk shows the rendering of what it last read and Varnish runs it, or a restart is unnoticed |
| EndToEnd.RestIsCurrent | pkg/varnishcontroller/controller/controller.go:143-238 | over every clean joint run, at rest Varnish runs the rendering of the present ConfigMap, cluster object and pods, unless a dropped update made a pod join or leave it since the backends were last listed |
| Triggerer.ReconcileTriggerer.TimerExists | pkg/varnishcluster/reconcile/reconcile_triggerer.go:68-79 | true exactly if the table has the key under the cluster |
| Triggerer.ReconcileTriggerer.Insert | pkg/varnishcluster/reconcile/reconcile_triggerer.go:40-53 | stops a timer in the way and puts the new one in, leaving other clusters alone |
| Triggerer.ReconcileTriggerer.TriggerAfter | pkg/varnishcluster/reconcile/reconcile_triggerer.go:28-54 | without a callback in between the table holds the new timer |
| Triggerer.ReconcileTriggerer.ClearEntry | pkg/varnishcluster/reconcile/reconcile_triggerer.go:32-34 | the callback removes the whole entry of its cluster, whichever timer it holds |
| Triggerer.ReconcileTriggerer.Callback | pkg/varnishcluster/reconcile/reconcile_triggerer.go:31-39 | undisturbed, it clears the entry and asks for one reconcile of its cluster |
| Triggerer.InvStep | pkg/varnishcluster/reconcile/reconcile_triggerer.go:28-54 | every step of workers, callbacks and clock keeps each cluster guarded until its release time |
| Triggerer.DelaySpacing | pkg/varnishcluster/controller/varnishcluster_delayed_rollingupdate.go:47-50 | after a deletion whose reply arrived the next one of the cluster, its reply lost or not, comes at least the delay later, in every interleaving |
| Triggerer.LostReplyIsUnspaced | pkg/varnishcluster/controller/varnishcluster_delayed_rollingupdate.go:88-110 | every run that ends with a deletion whose reply was lost goes on with another one in the same instant |
| Triggerer.TwoDeletionsAtOnce | pkg/varnishcluster/controller/varnishcluster_delayed_rollingupdate.go:88-110 | such a run exists |
| Triggerer.DeletionsSpan | pkg/varnishcluster/controller/varnishcluster_delayed_rollingupdate.go:86-110 | k deletions, the replies of all but the last having arrived, span at least k-1 delays |
| Triggerer.LivelyIff | pkg/varnishcluster/reconcile/reconcile_triggerer.go:31-53 | over every run, the entry of a cluster and the timer about to become one can still fire and clear exactly as long as no callback of that cluster was through before the insert |
| Triggerer.DeadForever | pkg/varnishcluster/controller/varnishcluster_delayed_rollingupdate.go:47-50 | with a dead entry no pod of the cluster is ever deleted again |
| Triggerer.WaitingEnds | pkg/varnishcluster/reconcile/reconcile_triggerer.go:31-39 | such an entry is cleared by its own timer no later than that is due |
| Triggerer.EarlyCallback | pkg/varnishcluster/controller/varnishcluster_delayed_rollingupdate.go:112-113 | an early callback is reachable, by a wait that is over when the timer is made |
| Rollout.ReconcileDelayedRollingUpdate | pkg/varnishcluster/controller/varnishcluster_delayed_rollingupdate.go:28-115 | nothing with a timer, a pod that is not ready or all updated; else the last outdated pod if every updated one has been up for the delay, the first pod if none is updated, or the wait for the newest updated one; it crashes exactly if a missing start time is looked at |
| Rollout.UnstartedPodPanics | pkg/varnishcluster/controller/varnishcluster_delayed_rollingupdate.go:97 | an updated pod without a start time beside an outdated one crashes it |
| Rollout.DeletesOutdated | pkg/varnishcluster/controller/varnishcluster_delayed_rollingupdate.go:85-110 | only outdated pods are deleted, also by the branch that takes the first item, and their number falls by one |
| Rollout.DeletesWhenDue | pkg/varnishcluster/controller/varnishcluster_delayed_rollingupdate.go:28-110 | with an outdated pod, all pods ready, no timer and the delay over, a pod is deleted |
| Rollout.WarmUp | pkg/varnishcluster/controller/varnishcluster_delayed_rollingupdate.go:61-98 | at a deletion every updated pod, not only the newest, started more than the delay less one second ago |
| Rollout.RolloutMeasure | pkg/varnishcluster/controller/varnishcluster_delayed_rollingupdate.go:59-110 | over any rollout, deletions made plus pods still outdated equals the number outdated at the start |
| Rollout.RolloutEnds | pkg/varnishcluster/controller/varnishcluster_delayed_rollingupdate.go:77-81 | with nothing outdated no pod is deleted |
| RolloutProtocol.TimerStops | pkg/varnishcluster/controller/varnishcluster_delayed_rollingupdate.go:47-50 | over every run of the timer protocol, as long as the table has a timer of the cluster the answer is to do nothing and no step deletes a pod of it |
| RolloutProtocol.DeletionIsAnswered | pkg/varnishcluster/controller/varnishcluster_delayed_rollingupdate.go:28-110 | every deletion of a run that obeys the decisions had no timer in the table, every pod ready, an outdated pod as its target and every updated pod up for the delay |
| RolloutProtocol.WaitIsAnswered | pkg/varnishcluster/controller/varnishcluster_delayed_rollingupdate.go:97-113 | every wait of such a run ends when the newest updated pod has been up for the delay |
| RolloutProtocol.AnswerCanBeTaken | pkg/varnishcluster/controller/varnishcluster_delayed_rollingupdate.go:47-113 | what the decision asks of an idle worker is a step of the protocol |
| OneDown.ReplacedIff | pkg/varnishcluster/controller/varnishcluster_delayed_rollingupdate.go:44-57 | at a deletion the status was read after every earlier one and had every replica ready; the pod of an earlier deletion has been replaced exactly unless that very pod lingers |
| OneDown.OnePodDownIff | pkg/varnishcluster/controller/varnishcluster_delayed_rollingupdate.go:44-57 | all pods deleted earlier have been replaced exactly if none of them lingers in the ready count |
| OneDown.CountsNoTerminatingIff | pkg/varnishcluster/controller/varnishcluster_delayed_rollingupdate.go:52-57 | at a deletion the ready count has no terminating pod exactly if every replica is ready and stays |
| OneDown.OnePodDown | pkg/varnishcluster/controller/varnishcluster_delayed_rollingupdate.go:44-57 | so with such a status every pod deleted earlier has been replaced and its replacement was seen ready |
| OneDown.TwoPodsDown | pkg/varnishcluster/controller/varnishcluster_delayed_rollingupdate.go:52-57 | without that a run with an up-to-date status deletes the second pod while the first is not replaced |
| Finalizers.OperatorStep | pkg/varnishcluster/controller/varnishcluster_controller.go:204-268 | every successful call of the operator keeps the invariant |
| Finalizers.InvStep | pkg/varnishcluster/controller/varnishcluster_finalizers.go:29-113 | so do crashes, refused calls and whatever users do |
| Finalizers.FinalizerSafety | pkg/varnishcluster/controller/varnishcluster_finalizers.go:29-77 | in every reachable state an existing ClusterRole or ClusterRoleBinding means the object exists and carries the matching finalizer |
| Finalizers.CleanupDecreases | pkg/varnishcluster/controller/varnishcluster_finalizers.go:62-113 | a cleanup step never adds to finalizers plus resources, and takes away whenever it changes anything |
| Finalizers.PassCompletes | pkg/varnishcluster/controller/varnishcluster_finalizers.go:62-113 | one undisturbed pass leaves none of the operator's finalizers and resources, and no object unless it carries a foreign finalizer |
| Finalizers.LivePassCompletes | pkg/varnishcluster/controller/varnishcluster_finalizers.go:29-60 | one undisturbed pass over an object that stays leaves both resources and, besides the finalizers it had, exactly those the spec asks for |
| Finalizers.ForgottenStepIff | pkg/varnishcluster/controller/varnishcluster_finalizers.go:91-110 | a step leaves an object that is to go, with a finalizer of the operator and no reconcile queued or running, exactly if it is a swallowed error with nothing queued |
| Finalizers.ForgottenIff | pkg/varnishcluster/controller/varnishcluster_finalizers.go:91-110 | over every run, a deletion is forgotten exactly if such a step was the last thing that happened |
| Finalizers.SomeDeletionIsForgotten | pkg/varnishcluster/controller/varnishcluster_finalizers.go:91-93 | two failed removals of the monitoring finalizer in a row reach such a state |
| VarnishArgs.ValidVarnishArgs | api/v1alpha1/varnishcluster_webhook.go:174-191 | accepts exactly the lists that split into keys with an optional value and no disallowed key |
| VarnishArgs.SplitIsUnique | api/v1alpha1/varnishcluster_webhook.go:174-191 | that split is unique |
| VarnishArgs.OneArgument | api/v1alpha1/varnishcluster_webhook.go:174-191 | a single argument is accepted exactly if it is a dash and a letter, digit or underscore other than f, F, n, S and b |
| VarnishArgs.ArgSpecified | pkg/varnishcluster/controller/varnishcluster_varnish_args.go:71-80 | true exactly if a group starts with the argument |
| VarnishArgs.ParseArgs | pkg/varnishcluster/controller/varnishcluster_varnish_args.go:31-51 | keeps exactly the groups whose key is neither overridden nor forbidden, in order |
| VarnishArgs.TakenApart | pkg/varnishcluster/controller/varnishcluster_varnish_args.go:13-43 | an argument counts as the value of the one before unless it begins with a dash, a backslash and a `w` |
| VarnishArgs.GetSanitizedVarnishArgs | pkg/varnishcluster/controller/varnishcluster_varnish_args.go:20-69 | the result is the kept and the fixed groups, stably sorted by their joined form and laid out; without arguments of the user it is the literal list from `-F` to `-b 127.0.0.1:0` |
| VarnishArgs.NoArguments | pkg/varnishcluster/controller/varnishcluster_varnish_args.go:20-69 | that literal list is the only result without arguments, whichever stable sort is used |
| CanonicalArgs.EveryGroupSurvives | pkg/varnishcluster/controller/varnishcluster_varnish_args.go:57-66 | each kept or fixed group stands in one piece in the result, the value directly after its key |
| CanonicalArgs.PairsAreConserved | pkg/varnishcluster/controller/varnishcluster_varnish_args.go:31-66 | a list of pairs is kept as a multiset, but for keys -F, -S, -b, -T, -n, -f, plus the five fixed groups |
| CanonicalArgs.ReorderingChangesNothing | pkg/varnishcluster/controller/varnishcluster_varnish_args.go:56-68 | every reordering of the pairs yields the identical final list |
| CanonicalArgs.AcceptedPairsTellApart | pkg/varnishcluster/controller/varnishcluster_varnish_args.go:57-61 | its premise holds for all pairs the webhook accepts |
| CanonicalArgs.OrderIrrelevantIff | pkg/varnishcluster/controller/varnishcluster_varnish_args.go:57-61 | for any pairs, the order is irrelevant exactly if no two different kept pairs join to one text |
| CanonicalArgs.SpaceInKeyShows | pkg/varnishcluster/controller/varnishcluster_varnish_args.go:57-61 | pairs with a space in the key do collide |
| CanonicalArgs.ParsersAgreeIff | pkg/varnishcluster/controller/varnishcluster_varnish_args.go:13-43 | on accepted lists the sanitizer groups as the webhook does exactly if every key but the last has a value and none begins with the literal pattern |
| CanonicalArgs.OverriddenStaysIff | pkg/varnishcluster/controller/varnishcluster_varnish_args.go:31-51 | for any list, an overridden or forbidden key is left of the user's arguments exactly if it was taken for the value of a kept key |
| CanonicalArgs.AcceptedHasNone | api/v1alpha1/varnishcluster_webhook.go:174-191 | an accepted list has no disallowed key anywhere, so that only `-T` can be left |
| CanonicalArgs.AdminStaysIff | pkg/varnishcluster/controller/varnishcluster_varnish_args.go:31-51 | in an accepted list without the literal pattern it is left exactly if it stands in an odd place and not after itself |
| CanonicalArgs.AdminCanStay | pkg/varnishcluster/controller/varnishcluster_varnish_args.go:40-48 | a key without a value before `-T` lets the user's own address through |
| Ordering.SortStable | pkg/varnishcontroller/controller/endpoints.go:180-182 | keys ascending in Go's order on strings, the same elements, and for each key the same order |
| Ordering.SortedIsUnique | pkg/varnishcluster/controller/varnishcluster_varnish_args.go:56-61 | two sorted permutations are equal if the key identifies the elements |
| Endpoints.PodReady | pkg/varnishcontroller/podutil/podutil.go:5-16 | true exactly if there is a container status and all are ready |
| Endpoints.GetPodsInfo | pkg/varnishcontroller/controller/endpoints.go:119-185 | fails exactly if a backend's node is missing; else an address is listed exactly if a listed pod has it, a node, the readiness asked for and a container port of the given number or name; each entry carries the IP, name, node labels and weight one of such a pod, in ascending order of IPs, and the port is one of theirs |
| Endpoints.EntriesPerContainer | pkg/varnishcontroller/controller/endpoints.go:152-168 | a pod is listed once for every container with such a port |
| Endpoints.PortIsOfLast | pkg/varnishcontroller/controller/endpoints.go:152-158 | the answered port is the first one asked for of the last such container of the last backend |
| Endpoints.FirstIsNumberIff | pkg/varnishcontroller/controller/endpoints.go:153-166 | with a port given by number a container is taken for that port, or not at all, exactly if every unnamed port of another number stands behind it |
| Endpoints.ListedByNumberIff | pkg/varnishcontroller/controller/endpoints.go:152-168 | a pod is listed for that port only exactly if this holds for all its containers |
| Endpoints.ByNumberIsRight | pkg/varnishcontroller/controller/endpoints.go:135-184 | then every answer has that port and lists exactly the considered pods that have it |
| Endpoints.WrongPortAnswered | pkg/varnishcontroller/controller/endpoints.go:155-158 | a pod with the wanted port behind an unnamed one is answered with the latter |
| Endpoints.GatherPermutes | pkg/varnishcontroller/controller/endpoints.go:120-133 | gathering from any order of namespaces, each listed in any order, gathers the same pods |
| Endpoints.OrderIndependence | pkg/varnishcontroller/controller/endpoints.go:177-182 | any order of namespaces and of the pods in each gives the same list, port or failure, if IPs identify backends and their ports agree |
| Endpoints.OrderIrrelevantIff | pkg/varnishcontroller/controller/endpoints.go:143-182 | that condition is exact: without it two orders give different answers |
| ZoneBalancing.CheckMultizone | pkg/varnishcontroller/controller/endpoints.go:220-229 | true exactly if a labelled backend is outside the current zone |
| ZoneBalancing.CalculateBackendRatio | pkg/varnishcontroller/controller/endpoints.go:196-218 | gives locals times remote zones over remotes, counted as places in the list and distinct labels, also with no local backend, where a divisor may be zero |
| ZoneBalancing.RatioMeans | pkg/varnishcontroller/controller/endpoints.go:196-218 | the ratio is the number of places of local backends per place of a backend in an average other zone |
| ZoneBalancing.ZonesBound | pkg/varnishcontroller/controller/endpoints.go:199-204 | the dedupe loop counts at most as many remote zones as remote backends |
| ZoneBalancing.LocalRaises | pkg/varnishcontroller/controller/endpoints.go:214-215 | one more local backend, anywhere in the list, raises the ratio |
| ZoneBalancing.KnownZoneLowers | pkg/varnishcontroller/controller/endpoints.go:214-215 | one more backend in a known remote zone lowers it, if there are locals |
| ZoneBalancing.NewZoneNeverLowers | pkg/varnishcontroller/controller/endpoints.go:214-215 | one more backend in a new remote zone never lowers it |
| ZoneWeights.ChooseThreshold | pkg/varnishcontroller/controller/endpoints.go:75-87 | sort and walk choose the smallest threshold not below the percentage, or the greatest if all are below |
| ZoneWeights.ChoiceIsMonotone | pkg/varnishcontroller/controller/endpoints.go:80-87 | a smaller percentage never chooses a higher threshold |
| ZoneWeights.ChoiceIsUnique | pkg/varnishcontroller/controller/endpoints.go:75-87 | any order of distinct thresholds chooses the same one |
| ZoneWeights.LocalNeverLowersChoice | pkg/varnishcontroller/controller/endpoints.go:54-87 | one more local backend never chooses a lower threshold |
| ZoneWeights.AssignWeights | pkg/varnishcontroller/controller/endpoints.go:89-97 | the loops give every backend with the current zone label the local weight and every other one the remote weight, if there is one, in place and with nothing else changed, and report a side without backends as one |
| ZoneWeights.BalanceZones | pkg/varnishcontroller/controller/endpoints.go:50-104 | with thresholds, backends labelled with the current zone end with the local and all others with the remote weight of the smallest threshold not below the percentage, or the greatest; automatically, those of the current zone with ten times the ratio and the others as before; no other field changes, and nothing does in one zone, without thresholds or when disabled; the reported weights are those |
| ZoneWeights.WeightsAreDetermined | pkg/varnishcontroller/controller/endpoints.go:75-97 | the same backends end with the same weights for any order of distinct thresholds |
| Backends.GetBackendEndpoints | pkg/varnishcontroller/controller/endpoints.go:22-105 | fails exactly if the own node or a backend's is missing; otherwise looks up under the zone label in use and returns the backends balanced around the own zone, their port and the reported weights |
| Backends.OwnZoneMeans | pkg/varnishcontroller/controller/endpoints.go:28-34 | the own zone is that under the deprecated label if the node has it, else under the present one, else empty |
| Backends.ConsideredIff | pkg/varnishcontroller/controller/endpoints.go:39-45 | the backends of the wake-up protocol, in terms of labels, namespaces, address and readiness, are those that the lookup considers |
| Backends.NodeIff | pkg/varnishcontroller/controller/endpoints.go:107-117 | and so are its Varnish pods: in the namespace of the cluster, with the labels of the component and the others of the cluster object |
| Backends.RelistingTouchesNothing | pkg/varnishcontroller/controller/endpoints.go:177-182 | once the rendering for one listing of the pods is on disk, another listing of the same pods renders the same files and touches nothing |
| ZoneWeights.ThresholdWeights | api/v1alpha1/varnishcluster_webhook.go:126-142 | for accepted thresholds every backend ends with a weight of at least one |
| ZoneWeights.AutoWeightsIff | pkg/varnishcontroller/controller/endpoints.go:57-66 | automatic weights are at least one exactly if the current zone has no backend or remotes are at most ten times locals times remote zones |

## Left out

- Template execution and VCL compilation: an arbitrary partial function and an arbitrary predicate.
- Floating-point rounding in ratios and weights: reals are used; a division by zero gives infinity as in floating point.
- `sort.SliceStable` and `sort.Slice`: library code, given as insertion sorts with the contracts their documentation promises.
- The pod annotations for the local and remote weights, which no decision reads.
- Errors of the node lookup other than a missing node, and of listing pods.
- The lines of a text listing longer than the scanner's buffer, which end the scan without an error.
- The array around the JSON listing with its version, command and time (`varnishadm_vcl_list.go:87-121`).
- ServiceMonitor and Grafana dashboard as resources: the monitoring finalizer is modelled without its resource, and the dashboard's own finalizer is never added by the code.
- Creating and updating roles, bindings, services, the StatefulSet and the disruption budget, beyond ClusterRole and ClusterRoleBinding existing or not.
- Switching the update strategy, and with it `Stop`; a restart of the operator, which forgets all timers.
- Stale caches of the two controllers, beyond the stale StatefulSet status that the rollout allows for.
- WakeUp.NoLostChange: ports of pods and the labels of nodes are fixed, and listing pods over several namespaces is one step.
- OneDown.OnePodDown: assumes that the status read is younger than the delay, counts the wanted replicas and no terminating pod, and that the reply of the earlier deletion arrived; OnePodDownIff is exact about the third, and without the last it fails, as LostReplyIsUnspaced shows.
- Triggerer.WaitingEnds: that the timer fires and its callback gets the lock is possible, not forced; there is no fairness in the model.
- Finalizers.FinalizerSafety: users never remove the operator's own finalizers.
- PipelineRuns.IncrementalEqualsFull: for runs without a failed write, query, load, use or compilation; with one it fails, as MissedReloadIsStale, TwoChangesInOneSecond and BrokenVclIsAnnotated show.
- PipelineRuns.TruthfulAnnotation: a resource version is never empty.
- EndToEnd.RestIsCurrent: that a restart of Varnish shows in the readiness of its pod is a step of the run; until it is taken, the state does not count as at rest.
- Pipeline.PodController.Reconcile: the method has no restarts between its calls; NoRestartIff ties it to the steps that have.
- VclName.ExtractOfCreate: the clock is not before 1970.
- Defaulting, names, labels, configuration, secrets, metrics, events, logging, the ping of varnishd, and the latest/outdated counters of the status: only easy members.
