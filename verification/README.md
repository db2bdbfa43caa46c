# Verification of k8s-nyx

k8s-nyx puts Kubernetes workloads to sleep outside weekly awake windows, lets a bounded
override wake them, and gives every workload its exact earlier state back. This project
models that logic in Dafny 4.11 and proves what it promises. `dafny verify dfyconfig.toml`
checks the whole project.

Four results carry the rest:

* **Exact restore.** Handler calls are modelled write by write, and a call may stop after
  any of its writes. Along every run of such calls, with edits, deletions, recreations and
  changing settings in between, a workload without a checkpoint is live as its owner
  intended and a checkpoint decodes to that intention (`ExactRestore`). The handlers as they
  run against a failing API server are proved to write exactly a prefix of their plan
  (`Handlers`), so a pass of the code keeps that invariant however it ends
  (`OperatorSafety`). Below it, every interleaving of concurrent store operations acts as
  atomic operations on a write-once map, but for one unguarded delete (`StoreInterleaving`).
* **Exact transitions.** When does the boundary scan (day loop, window loop, sort, first
  flip) find precisely the next change of the continuous "awake at t"? For one offset jump of
  either direction, skipped midnights included, the answer is an if-and-only-if over every
  schedule (`ExactCondition`, made explicit in `ForwardExactCondition` and
  `BackwardExactCondition`). When it reports no transition at all is settled the same way
  (`NoTransitionExactly`), and so is when a controller that only acts at its requeue times
  follows the schedule (`TrackingCondition`). Over whole runs of passes, with the override each
  of them really reads, the sampled decision tracks the continuous specification to within a
  second (`SampledControllerTracks`).
* **Bounded wake.** Over whole runs of passes an override ends by the first processing
  pass's clock plus the cap, never re-extends, and never comes back once removed (`Wake`).
  One successful reconcile pass leaves the next one nothing to write exactly when the
  stamped expiry survives truncation to the second, and every pass, successful or not, is one
  step of those runs (`Controller`).
* **One pass, in the user's terms.** A pass that the API server does not fail, beyond the
  conflicts it retries, succeeds from every state those runs reach. It restores every selected
  workload inside a window or an override and puts it to sleep outside, each kind in its own
  sleeping state with the settings of the spec, spares what it must, writes nothing in a dry run
  however it ends, and never touches a workload that is not selected (`Promises`). Weekday
  names, times of day, durations, label selectors, timestamps and the admission rules are pinned
  to what they mean by laws of their own.

## How the model is built

* Instants are nanoseconds since 0000-01-01T00:00:00Z. The operator's clock reads a year
  from 0 on, so Go's zero `time.Time` ("none") is an `Option`.
* A timezone is one offset, or two with a jump between them. `Zone.Date` is the lookup of
  Go's `time.Date`, which names the unique instant wherever there is one
  (`DateIsTheUniqueInstant`). `MildJump` admits every jump shorter than a day that leaves
  midnight alone, and those that skip it by at most half a day or repeat it, as in Havana or
  Beirut; `Regular` says that no midnight and no window edge lies in the jump.
* A workload is a `Slot`: its field, and the raw text of its checkpoint entry. `HandlerPlan`
  is the list of writes of one call; a stopped call is a prefix of it. The same plans specify
  the imperative handlers, which run on a `Client` whose calls may fail at any point. Ghost
  counters on the client record each failure, so that a call that ends in an error is either
  disturbed by the server or an error of its plan.
* Checkpoint keys, checkpoint texts, timestamps and merge patches are modelled as the
  strings and documents the operator really writes.
* Kubernetes' own validation is assumed of stored objects: no underscore in kinds,
  namespaces and names, no quote in label keys and values, offsets shorter than a day.

## Where the code and its promises part

* The boundary scan advances with `AddDate(0, 0, 1)`. If a jump skips a whole day, as
  Pacific/Apia did on 30 December 2011, the loop never leaves the day before
  (`DateLineJumpStallsTheScan`); it advances from every day exactly when no jump does
  (`DayStepProgress`). The evaluator is therefore specified for shorter skips.
* The user guide calls evaluation DST-correct. Over the next seven days it is, if and only if the
  schedule is `Exact` in its zone (`WeekExactCondition`). It is not where an opening edge lies in the skipped hour (the schedule is awake from
  the jump on, and `Evaluate` does not report that flip, `OpeningInSkippedHourIsMissed`), or a
  closing edge in the repeated hour (the second closing is not reported,
  `ClosingInRepeatedHourIsMissed`).
* The evaluator's comments say that the eighth day absorbs a shift landing on a boundary. Over
  all eight days nothing is missed if and only if the schedule is `Exact` and not `Hidden`: where
  midnight is skipped, the day loop goes on at 23:00 or 01:00, and a schedule of that one weekday
  whose windows are all skipped with the midnight is missed on the eighth day
  (`EighthDayIsCutShort`).
* They also say that a recurring schedule always has a next transition. None is reported exactly
  under `Overlooked`, for weekly windows that open inside the skipped span: through most of the
  week before, Evaluate reports nothing (`SkippedWindowIsNeverReported`,
  `MidnightWindowIsNeverReported`), and without an override the schedule is not requeued
  (`NeverRequeued`) although it is awake again later (`OverlookedFlipsLater`). The webhook admits
  such schedules (`UnreportedWindowsAreAdmitted`).
* Deleting the last checkpoint entry deletes the Secret without a version check. An entry
  saved in between is lost (`EmptyingDeleteLosesAnEntry` gives the run), exactly when another
  entry is there at the delete (`StepIsAtomic`).
* After a crash between checkpoint and patch, CronJobs, Jobs and HPAs are not put to sleep
  again until a Restore (`SleepOnceConverges` gives the exact condition).
* The Job guard protects Sleep only. A Job suspended before the sleep and resumed during it
  is suspended by the wake-up under its running pods (`RestoreResuspendsRunningJob`), and
  that is the only way (`OnlyRestoreSuspendsActiveJob`).
* The operator guide says that a reconcile with nothing to change writes nothing and emits no
  event. The first half is proved; Events for an active override repeat on every pass
  (internal/controller/sleepschedule_controller.go:346-349) and stay outside the model.
* An override shorter than a second can be stamped to an expiry that has already passed
  (`SubSecondOverrideIsNotStable`).

## Model

| member | source | states |
|---|---|---|
| Evaluator.Evaluate | internal/schedule/evaluator.go:46-65 | the phase at now and the first collected boundary that flips it; it passes over no phase change of the horizon if the schedule is exact and not hidden in its zone, and reports none exactly without a non-empty window or when all openings in sight are overlooked |
| NoTransition.ExactCondition | internal/schedule/evaluator.go:18-20 | no evaluation at any instant passes over a phase change of its eight days if and only if the jump and the second instants of repeated edges change no phase outside the edge instants, and not all windows are of the weekday that begins with a skipped midnight and skipped with it; for every mild jump of either direction |
| NoTransition.ForwardExactCondition | internal/schedule/evaluator.go:18-20 | clock put forward: if and only if the windows are not hidden by a skipped midnight, and the phase before the skipped readings is the one after them, or an edge is the first reading after them, or the first skipped one where the offset is not negative |
| NoTransition.BackwardExactCondition | internal/schedule/evaluator.go:18-20 | clock put back: if and only if the phase changes at no repeated reading, save at the first one where the offset after the jump is negative |
| NoTransition.WeekExactCondition | internal/schedule/evaluator.go:103-131 | over the next seven days the phase changes at the jump and at the second instants decide alone |
| FailingInputs.EighthDayIsCutShort | internal/schedule/evaluator.go:109-110 | a concrete zone without a midnight where a flip inside the eight days is not reported |
| NoTransition.NextTransitionExact | internal/schedule/evaluator.go:46-131 | for an exact schedule the reported transition is the next phase change, every instant in between included; without one the phase lasts for seven days, and for ever if and only if the openings in sight are not overlooked |
| NoTransition.NoTransitionExactly | internal/schedule/evaluator.go:27-30 | no transition is reported if and only if no window is non-empty, or each is of one weekday whose opening a forward jump skips, last week's window is over and next week's opening or the visit of its day is beyond the horizon, and no edge of the days of the jump is placed at an awake instant; skipped midnights included |
| NoTransition.OverlookedFlipsLater | internal/schedule/evaluator.go:27-30 | in that case the schedule is asleep now and awake later all the same |
| NoTransition.RegularIsSeen | docs/user-guide.md:70-71 | a jump that no midnight or edge lies in disturbs nothing |
| NoTransition.FlipWithinHorizon | internal/schedule/evaluator.go:18-20 | a non-empty window flips the phase at a collected boundary at most eight days ahead, unless the openings in sight are overlooked |
| NoTransition.FlipHasAnEdge | internal/schedule/evaluator.go:103-106 | between two instants of different phase within the horizon lies a collected window edge with the later phase, unless the windows are hidden and overlooked |
| Transitions.ClosingEdge | internal/schedule/evaluator.go:74-92 | from an awake reading, overlapping windows stay awake up to a closing edge of the same day |
| Transitions.EdgeIsCollected | internal/schedule/evaluator.go:103-131 | every edge instant of a covered day in (now, now+horizon] is collected if the day is not over and the day loop stands on it within the horizon, skipped midnights included |
| Transitions.BoundaryIsVisited | internal/schedule/evaluator.go:103-131 | and everything collected is such an edge instant |
| Schedule.WindowInMinutes | internal/schedule/evaluator.go:76-90 | comparing whole minutes of the local day decides the half-open window |
| Schedule.WindowOpens | internal/schedule/evaluator.go:36-44 | a window with named days from h1:m1 to h2:m2 is open exactly on the calendar weekdays it names, at the readings from h1:m1 on and before h2:m2 |
| Schedule.CoversNamedDays | internal/schedule/evaluator.go:36-44 | a window covers a day if and only if it names the day's weekday; day 1 is a Sunday |
| Schedule.TimeReads | internal/schedule/evaluator.go:133-142 | a two-digit hour below 24 and minute below 60 are read as minutes since midnight |
| Schedule.OnlyTimesRead | internal/schedule/evaluator.go:133-142 | and nothing else is read |
| Evaluator.IsAwakeAt | internal/schedule/evaluator.go:76-92 | true exactly when the local wall clock lies in some window of its weekday |
| Evaluator.CandidateBoundaries | internal/schedule/evaluator.go:107-131 | the collected boundaries of the day, window and edge loops, ascending, none lost or added |
| Evaluator.InsertionSort | internal/schedule/evaluator.go:145-151 | sorts in place to an ascending rearrangement |
| Transitions.EvaluationUnique | internal/schedule/evaluator.go:54-64 | the outcome is determined by schedule, zone and instant |
| Transitions.EvaluationExists | internal/schedule/evaluator.go:54-64 | and there always is one |
| FailingInputs.OpeningInSkippedHourIsMissed | docs/user-guide.md:70-71 | an opening edge in the skipped hour makes the schedule awake at the jump, and no evaluation reports it |
| FailingInputs.ClosingInRepeatedHourIsMissed | docs/user-guide.md:70-71 | a closing edge in the repeated hour ends the window twice, and no evaluation at the jump reports the second end |
| FailingInputs.SkippedWindowIsNeverReported | internal/schedule/evaluator.go:27-30 | for a Sunday window inside the skipped hour every evaluation of the week before reports no transition |
| FailingInputs.MidnightWindowIsNeverReported | internal/schedule/evaluator.go:27-30 | likewise for a Sunday window behind a skipped midnight, up to two hours before the jump |
| Zones.DateIsTheUniqueInstant | internal/schedule/evaluator.go:120-122 | the instant of a wall-clock reading is the unique one that shows it |
| Zones.SplitsTimeExactly | internal/schedule/evaluator.go:120-122 | the instant of a reading splits time (earlier instants read less, later ones at least it) if and only if the reading is neither skipped nor repeated, or is the first of them and the offset is not negative before a forward jump, or negative after a backward one |
| Zones.PlacedAtTheJump | internal/schedule/evaluator.go:120-122 | which readings are placed at the instant of the jump, decided by the sign of the offset |
| Zones.DayStepProgress | internal/schedule/evaluator.go:109-110 | the day loop advances from every day if and only if no jump skips a whole day |
| Zones.DateLineJumpStallsTheScan | internal/schedule/evaluator.go:109-110 | a concrete zone where the next day is the same instant |
| Admission.Validate | internal/webhook/v1alpha1/sleepschedule_webhook.go:60-116 | reports an error if and only if the corresponding check is violated |
| Admission.LexicalIsNumeric | internal/webhook/v1alpha1/sleepschedule_webhook.go:72-80 | on the CRD's HH:MM strings the byte-wise order is the order of the parsed minutes |
| Admission.AdmissionRules | internal/webhook/v1alpha1/sleepschedule_webhook.go:60-116 | no check fails if and only if the timezone is known, every window starts before it ends, namespaces or a selector are there where the mode uses them, and 0 < default <= cap |
| Admission.PatternIsATime | api/v1alpha1/sleepschedule_types.go:27-39 | the pattern admits exactly the times of day from 00:00 to 23:59 |
| Admission.AdmittedAlwaysFlips | api/v1alpha1/sleepschedule_types.go:27-39 | an admitted schedule has a next transition, within eight days, if and only if its openings in sight are not overlooked, for every mild jump |
| Admission.UnreportedWindowsAreAdmitted | internal/webhook/v1alpha1/sleepschedule_webhook.go:60-116 | the schedules of the failing inputs pass the schema and every check |
| Admission.AdmittedFlipsAcrossAQuietJump | api/v1alpha1/sleepschedule_types.go:27-39 | so it always has one when the clock is put back, or no edge lies in the jump |
| Admission.AdmittedAlwaysFlipsConstantOffset | api/v1alpha1/sleepschedule_types.go:27-39 | in particular in every zone of constant offset, without further conditions |
| Requeue.RequeueDelay | internal/controller/sleepschedule_controller.go:187-204 | the shortest wait to an event, at least a second, and 0 exactly without events |
| Requeue.DelayIsShortest | internal/controller/sleepschedule_controller.go:187-204 | the delay is the shorter of the waits to the next transition and to the expiry, each at least 1s, and 0 without either |
| Requeue.DecisionHoldsUntilRequeue | internal/controller/sleepschedule_controller.go:187-204 | a delay above 1s: the decision is constant until the requeue; 0: for ever, if and only if the openings in sight are not overlooked; a flip before the requeue is acted on less than 1s late |
| Requeue.NeverRequeued | internal/controller/sleepschedule_controller.go:187-204 | the delay is 0 if and only if no override is active and no window is non-empty or the openings in sight are overlooked |
| Requeue.TrackingCondition | internal/controller/sleepschedule_controller.go:187-204 | every decision without an override, at whatever instant, stands until less than a second before its requeue if and only if the schedule is exact in its zone and never overlooked |
| Requeue.SampledControllerTracks | internal/controller/sleepschedule_controller.go:75-204 | over runs of passes with the readings they leave each other, early passes included, each pass's own decision is the specified one for the expiry the first pass resolved, at every instant up to the next pass, or that pass is less than a second away, or the instant lies in the fraction that stamping drops |
| Requeue.TransitionsAreWholeSeconds | internal/controller/sleepschedule_controller.go:161-165 | transitions are whole seconds, so the status stores them exactly |
| Wake.RelativeReads | internal/wake/parse.go:41-49 | a sign and any number of parts such as +1h30m is read as their sum |
| Wake.UnitsHaveTheirSizes | internal/wake/parse.go:31-37 | +n with h, m, s, ms, us or ns is n times 3600, 60, 1 seconds, a thousandth, a millionth, a billionth |
| Wake.HoursAndMinutes | internal/wake/parse.go:31-37 | +h hours and m minutes is their sum |
| Wake.OtherUnitsAreRefused | internal/wake/parse.go:41-49 | any other unit is an error |
| Wake.WhiteSpaceIsTrimmed | internal/wake/parse.go:36-40 | white space around a value does not matter, and a value of white space asks for the default |
| Wake.StampReadsBack | internal/wake/resolve.go:66-68 | a stamped value reads back as the expiry truncated to the second, or not at all from year 10000 |
| Wake.ResolveIsCappedWish | internal/wake/resolve.go:34-61 | the expiry is the smaller of now+max, if the cap is positive, and what is asked for: now plus the duration, the instant, or now plus the default; only an absolute expiry within the cap leaves the value unchanged; an error exactly without expiry and default |
| Wake.StampedOverrideLasts | internal/wake/resolve.go:66-68 | after a stamp the override is active exactly up to the truncated expiry, less than a second early, and then removed |
| Wake.WakeBounded | internal/controller/sleepschedule_controller.go:280-353 | once a pass has processed the value, every pass counting it active has now below that pass's clock plus its cap |
| Wake.NoReextension | internal/wake/resolve.go:38-60 | from an absolute value on, every later readable value is absolute and no later, under any clock and edits of the durations |
| Wake.DeletedStaysDeleted | internal/controller/sleepschedule_controller.go:323-336 | once removed the value never reappears |
| Wake.UnchangedUntilExpiry | internal/controller/sleepschedule_controller.go:338-344 | with a fixed cap and nondecreasing clock the processed value stays unchanged and active until its expiry |
| Timestamp.FormatParseRoundTrip | internal/wake/resolve.go:66-68 | section 5.6 of RFC 3339: a written expiry parses to the instant truncated to the second in years 0 to 9999, and fails beyond |
| Timestamp.ExpiryText | internal/wake/resolve.go:66-68 | an expiry is written as the year, month and day of its date, T, its hour, minute and second, Z |
| Timestamp.OffsetReads | internal/wake/parse.go:50-54 | an offset east of UTC is subtracted, one west of it added |
| Timestamp.FractionReads | internal/wake/parse.go:50-54 | up to nine digits after the point are that part of a second, added to the whole ones |
| Timestamp.OnlyTimestampsRead | internal/wake/parse.go:50-54 | what reads as a timestamp starts with a real date and time of day |
| Timestamp.LeapYears | internal/wake/parse.go:50-54 | the days before a year in closed form: a leap day every fourth year, but not the hundredth, but the four hundredth |
| Timestamp.March2026 | internal/schedule/evaluator.go:36-44 | Monday, 2 March 2026 is day 740042, which ties dates to weekdays |
| StoreInterleaving.StepIsAtomic | internal/checkpoint/store.go:65-148 | each API call of concurrent SetRaw and Delete operations is an atomic operation on a write-once map, and only a successful end changes anything, if and only if it is not an emptying delete that finds other entries |
| StoreInterleaving.SuccessMeansDone | internal/checkpoint/store.go:65-148 | a SetRaw that succeeds leaves its key present, a Delete that succeeds leaves it absent |
| StoreInterleaving.FirstValueWins | internal/checkpoint/store.go:63-97 | over every interleaving an entry keeps its first value until a Delete of its own key commits or an emptying delete takes it along; Deletes that conflict, retry or give up do not disturb it |
| StoreInterleaving.UnsuccessfulChangedNothing | internal/checkpoint/store.go:67-71 | an operation that exhausts its retries, fails or crashes has changed nothing at any step |
| StoreInterleaving.GivesUpOnTheFifthConflict | internal/checkpoint/store.go:67-71 | over every interleaving an operation gives up on its fifth conflict and not before |
| StoreInterleaving.RemoveLosesLaterEntries | internal/checkpoint/store.go:142-145 | the emptying delete loses another entry if and only if one is there |
| StoreInterleaving.EmptyingDeleteLosesAnEntry | internal/checkpoint/store.go:142-145 | a concrete run, from no call in flight to two successful ones, that loses an entry |
| CheckpointStore.SetRaw | internal/checkpoint/store.go:65-97 | adds the key if absent, never overwrites, changes nothing when it fails, and fails only on a fault or the fifth conflict |
| CheckpointStore.Delete | internal/checkpoint/store.go:126-148 | removes exactly the key, changes nothing when it fails, and fails only on a fault or the fifth conflict |
| CheckpointStore.GetRaw | internal/checkpoint/store.go:47-61 | the stored value, or none without Secret or entry; fails only on a fault |
| CheckpointStore.Get | internal/checkpoint/store.go:107-117 | the stored count; fails only on a fault or when it is not an int32 |
| Checkpoint.KeyInjective | internal/checkpoint/store.go:33-38 | distinct workloads and distinct UIDs have distinct keys |
| Checkpoint.CheckpointRoundTrip | internal/workload/hpa.go:25-29 | decoding a checkpoint gives the saved effective field for every kind |
| Checkpoint.BoundsRoundTrip | internal/workload/hpa.go:25-29 | HPA bounds read back, with min omitted or present |
| Decimal.ParseFormatInt | internal/checkpoint/store.go:107-122 | every integer reads back from its decimal text if it is an int32, and not at all otherwise |
| MergePatch.ApplyDiff | internal/workload/daemonset.go:117-122 | section 2 of RFC 7396: applying the difference of two null-free documents to the first yields the second |
| MergePatch.DiffTouchesOnlyChanges | internal/workload/replica.go:92-93 | members that do not differ are not in the patch, and keep whatever value they have when it is applied |
| FieldDocs.PatchRoundTrip | internal/workload/replica.go:103-107 | the merge patch makes the wanted field live from any live field of the kind |
| FieldDocs.SelectorPatchIsExact | internal/workload/daemonset.go:117-124 | restoring yields exactly the checkpointed nodeSelector for any live one |
| Workloads.CallIsSafe | internal/workload/replica.go:39-112 | a call of any handler, stopped after any write, keeps: no checkpoint means live as intended, a checkpoint decodes to what is intended |
| Workloads.RestoreRecovers | internal/workload/replica.go:66-90 | a completed Restore leaves the intended field and no checkpoint, for every kind, and cannot fail from a safe state |
| Workloads.SleepConverges | internal/workload/daemonset.go:52-94 | a completed, unguarded Sleep puts replica workloads and DaemonSets to sleep from every state |
| Workloads.SleepOnceConverges | internal/workload/suspend.go:37-71 | CronJobs, Jobs and HPAs fall asleep if and only if there was no checkpoint or they were asleep already |
| Workloads.SentinelKeepsLabels | internal/workload/daemonset.go:82-87 | Sleep adds nyx.dev/asleep=true, unless the key is there, and keeps every original label |
| Workloads.CallIsIdempotent | internal/workload/hpa.go:59-63 | a repeated call has nothing to write, for every kind and direction |
| Workloads.DryRunWritesNothing | internal/workload/suspend.go:49-53 | with dryRun no handler writes anything |
| Workloads.SuspendingAnActiveJob | internal/workload/job.go:41-53 | a call suspends a Job with active pods if and only if it is a real Restore of a checkpoint saying suspended |
| Workloads.RestoreResuspendsRunningJob | internal/workload/suspend.go:92-96 | a concrete Restore that suspends a running Job |
| Cluster.PassIsPointwise | internal/workload/apply.go:46-65 | a successful pass leaves each listed workload as its own completed call does, however often it is listed, and nothing else changes |
| Cluster.PassIsIdempotent | internal/workload/apply.go:46-65 | after a successful pass no listed ref has anything left to write, duplicates included |
| Cluster.DryRunPassIsIdentity | internal/workload/apply.go:46-65 | a dry-run pass over any list changes no workload and no checkpoint |
| Cluster.CallsCommute | internal/workload/apply.go:49-63 | calls on different workloads do not see or disturb each other, wherever they stop |
| Cluster.PassesCommute | internal/checkpoint/store.go:40-42 | schedules sharing one Secret with disjoint targets give the same result in either order |
| ExactRestore.ExactRestoreInvariant | internal/workload/replica.go:64-90 | exact restore along every run of stopped calls, edits, recreations and changed settings |
| ExactRestore.FreshStart | internal/workload/replica.go:50-60 | an operator that starts without checkpoints starts with the invariant |
| ExactRestore.RecoveryAfterAnyRun | internal/workload/handler.go:35-37 | after any run one completed Restore gives the intended field and clears the checkpoint |
| ExactRestore.SafePassSucceeds | internal/workload/apply.go:46-65 | from a safe state no handler fails by itself, asleep or awake, so a pass gets to the end of its list |
| ExactRestore.AwakePassRecovers | internal/workload/apply.go:46-65 | after any run an awake pass cannot fail, and gives every listed workload its intended field and no checkpoint |
| ExactRestore.AsleepPassConverges | internal/workload/apply.go:46-65 | after a successful asleep pass an unguarded listed workload is asleep, the other kinds than replicas and DaemonSets if and only if they had no checkpoint or slept already |
| ExactRestore.RecreatedStartsClean | internal/checkpoint/store.go:33-35 | a recreated workload is never restored from an old UID's checkpoint |
| ExactRestore.UnusedHasNoCheckpoint | internal/checkpoint/store.go:33-35 | a UID never used before has no entry, even under the same name |
| ExactRestore.GuardedNeverCheckpointed | internal/workload/statefulset.go:50-64 | a StatefulSet with whenScaled Delete and no opt-in is never checkpointed along a run |
| ExactRestore.GuardedNeverScaled | internal/workload/statefulset.go:50-64 | and no call ever writes it |
| ExactRestore.OnlyRestoreSuspendsActiveJob | internal/workload/job.go:41-53 | in a run, a call suspends an active Job if and only if it is a real Restore of an intended suspension |
| OperatorSafety.AnyPassIsSafe | internal/workload/apply.go:46-65 | however a pass of the code ends, the exact-restore invariant holds after it |
| OperatorSafety.AnyReconcileIsSafe | internal/controller/sleepschedule_controller.go:75-182 | however a Reconcile ends, the exact-restore invariant holds after it |
| OperatorSafety.AnyDryRunIsIdentity | internal/workload/apply.go:46-65 | however a dry-run pass of the code ends, no workload and no checkpoint has changed |
| OperatorSafety.AnyPassIsLocal | internal/workload/apply.go:46-65 | however a pass of the code ends, it leaves every workload it does not list alone |
| Promises.UndisturbedPassSucceeds | internal/controller/sleepschedule_controller.go:75-182 | from a safe state, with a known timezone and a target that can be listed, a pass the server does not fail succeeds |
| Promises.DecidesTheSchedule | internal/controller/sleepschedule_controller.go:109-115 | a pass sleeps exactly outside the windows and without an override |
| Promises.DryRunChangesNothing | docs/user-guide.md:55 | with spec.dryRun no workload and no checkpoint changes, however the pass ends |
| Promises.AwakePassRestoresAll | internal/workload/daemonset.go:96-128 | inside a window or an override an undisturbed pass gives every selected workload its intended field and clears its checkpoint |
| Promises.AsleepPassSleepsAll | internal/workload/replica.go:39-62 | outside, it puts every selected workload into the sleeping state of its kind: spec.sleepReplicas, the sentinel, suspended, or bounds of at least one; a risky StatefulSet without opt-in and a Job with active pods are not touched |
| Promises.UnselectedIsUntouched | internal/workload/resolve.go:39-71 | however it ends, a pass touches nothing the schedule does not select |
| Promises.StatusTellsThePhase | internal/controller/sleepschedule_controller.go:109-177 | the status says Awake inside a window, WokenByOverride outside while an override lasts, Asleep otherwise, with the transition and the count |
| Promises.OverrideLasts | internal/controller/sleepschedule_controller.go:280-353 | the value under wake lasts as long as it asks for, or spec.temporaryWake.defaultDuration, capped by maxDuration |
| Promises.NoOverride | internal/controller/sleepschedule_controller.go:280-353 | without a value, or with an unreadable one, there is no override |
| Handlers.SleepReplicas | internal/workload/replica.go:39-62 | does its plan, or a prefix of it when it fails, which it does only if the server disturbs it or its plan is an error |
| Handlers.RestoreReplicas | internal/workload/replica.go:66-90 | likewise |
| Handlers.SleepDaemonSets | internal/workload/daemonset.go:52-94 | likewise |
| Handlers.InjectSentinel | internal/workload/daemonset.go:83-86 | the loop builds the sentinel plus all live labels, which win |
| Handlers.SleepOnceOnly | internal/workload/hpa.go:51-104 | likewise, for CronJobs, Jobs and HPAs |
| Handlers.RestoreFields | internal/workload/daemonset.go:96-128 | likewise, for DaemonSets, CronJobs, Jobs and HPAs |
| Handlers.Apply | internal/workload/apply.go:46-65 | complete calls in order up to the first error, which may stop inside its call; an error only if the server disturbs it or some plan is an error |
| Handlers.SuccessfulPass | internal/workload/apply.go:46-65 | a pass without error is every call completed, in order |
| Targets.Registry.constructor | internal/workload/registry.go:19-28 | kinds in first-registration order, each with its last handler |
| Targets.LaterHandlerReplaces | internal/workload/registry.go:17-28 | a kind is registered if and only if some handler has it, and then with the last one |
| Targets.Default | internal/workload/registry.go:33-35 | exactly the six handled kinds |
| Targets.RequestedKinds | internal/workload/resolve.go:99-112 | requested kinds without repetition, all registered ones when none is requested |
| Targets.ExKeyUnambiguous | internal/workload/resolve.go:133 | a key of slash-free parts equals no other key, whatever strings the other holds |
| Targets.ExclusionIsExact | internal/workload/resolve.go:125-131 | the two lookups decide the meant exclusion, namespaced or wildcard |
| Targets.EmptySelector | internal/workload/resolve.go:86-91 | no selector selects nothing and the empty one everything, and both convert |
| Targets.LabelIsDemanded | internal/workload/resolve.go:86-91 | each matchLabels entry demands its label with its value |
| Targets.ExpressionIsDemanded | internal/workload/resolve.go:86-91 | each matchExpressions entry adds its demand |
| Targets.OperatorsMean | internal/workload/resolve.go:86-91 | In is one of its values, NotIn and DoesNotExist negate In and Exists, and a matchLabels entry is In with one value |
| Targets.OperatorsConvert | internal/workload/resolve.go:86-91 | In and NotIn need values, Exists and DoesNotExist take none, and no other operator converts |
| Targets.OrderedMeans | internal/workload/resolve.go:62-70 | kinds come in order, of one kind namespaces do, and of one namespace names do |
| Targets.ListKind | internal/workload/resolve.go:74-95 | exactly the workloads of the kind in the target, by namespace or by matchLabels and matchExpressions; errors exactly for an unknown mode, a bad selector or a failed List call |
| Targets.Resolve | internal/workload/resolve.go:39-71 | exactly the selected workloads, sorted by kind, namespace and name; unhandled kinds reported; every ref has a handler; errors exactly when listing does |
| Controller.EffectIsLocal | internal/controller/sleepschedule_controller.go:323-344 | a pass acts on the wake value as in the runs of Wake and touches no other key |
| Controller.ReconcilesAreARun | internal/controller/sleepschedule_controller.go:75-182 | the passes of the controller make one of those runs, failing passes and changed settings included |
| Controller.ProcessWakeEntries | internal/controller/sleepschedule_controller.go:280-353 | the wake state and the ConfigMap after the pass, unchanged on error |
| Controller.Reconcile | internal/controller/sleepschedule_controller.go:75-182 | an error-free pass gives the specified ConfigMap, workloads, checkpoints, status and delay; a failing one writes no status and leaves a stopped pass in the decided direction over selected workloads only, and it fails only if the server disturbs it, the timezone or the target is unusable, or a plan is an error; it is requeued at once exactly on a status conflict; every pass is one step of the wake runs and touches no other ConfigMap entry |
| Controller.PassTracksSpecification | internal/controller/sleepschedule_controller.go:109-115 | the decision is the continuous specification with the resolved expiry, and holds until the requeue up to the one-second floor; without a requeue for ever, if and only if the openings in sight are not overlooked |
| Controller.StatusReportsThePass | internal/controller/sleepschedule_controller.go:159-177 | after the pass the status equals the computed one, and compares equal to it |
| Controller.ReconcileIsIdempotent | internal/controller/sleepschedule_controller.go:75-182 | a second pass at the same instant writes nothing if and only if a stamped expiry is still in the future after truncation and writable |
| Controller.OneSecondHolds | internal/controller/sleepschedule_controller.go:338-344 | a resolved duration of at least a second before year 10000 meets that condition |
| Controller.SubSecondOverrideIsNotStable | internal/controller/sleepschedule_controller.go:338-344 | a one-millisecond override is stamped and then removed at the same instant |

## Left out

- The Kubernetes client, informer caches, leader election and work queues: reads are current, and each API call takes effect or fails.
- Events, audit log and metrics: output only. They repeat on every pass and are not part of idempotence.
- cmd/main.go, the Helm chart, RBAC and generated code: wiring without logic.
- The IANA database: a zone is an offset with at most one jump, so schedules whose horizon spans two jumps are not covered.
- ParseHHMM: reads "HH:MM" with two digits each, the only form the CRD admits; the further forms fmt.Sscanf accepts are not modelled.
- ParseEntry: whole numbers with the units ns, us, ms, s, m and h, ASCII white space, and the grammar of section 5.6 of RFC 3339; fractions of units and the leniency of time.Parse are not modelled.
- Decode: reads the checkpoint forms the operator writes and treats other JSON as corrupt; label strings hold no quote, so string escapes do not arise.
- Jumps outside MildJump: one that skips midnight by more than half a day (only the date line does), and one that repeats midnight in the middle of the span and places it after the jump.
- SampledControllerTracks: passes whose ConfigMap update fails, and durations edited during the run, are the subject of WakeBounded and NoReextension instead.
- Validate: the error texts and field paths are reduced to which check failed.
- ListKind: a selector whose keys or values are no label text is one case; the syntax of label text is not modelled.
- Edits that land inside a handler call, and two schedules that target one workload: the code promises no exact restore there.
- HPA defaulting by the API server: a restored unset minReplicas stays unset in the model.
- Conflicts of one operator's own store calls are arbitrary failures in CheckpointStore; concurrent operators are the subject of StoreInterleaving.
