/** What one Reconcile promises the user, in the terms of the API: literal kinds, settings and fields. */
module Promises {
  import opened Wrappers
  import opened Zones
  import opened Api
  import opened Checkpoint
  import opened Schedule
  import opened Wake
  import opened Workloads
  import opened Cluster
  import opened Handlers
  import opened ExactRestore
  import opened Controller
  import OperatorSafety
  import Requeue
  import Targets

  /** One Reconcile, with everything that goes in and comes out. */
  datatype Call = Call(before: Snapshot, after: Snapshot, spec: SleepScheduleSpec, optIn: bool, zone: Zone, now: nat,
                       cluster: seq<Targets.Listed>, r: Requeued, refs: seq<Ref>, eval: Evaluation,
                       disturbed: bool, terminating: bool) {
    ghost predicate Happened() {
      && ProperWorld(before.world) && zone.Valid() && zone.SkipsLessThanADay() && Targets.SlashFreeCluster(cluster)
      && Reconciles(before, after, spec, optIn, Some(zone), now, cluster, r, refs, eval, disturbed, terminating)
    }

    /** The expiry the pass resolves. */
    ghost function Expiry(): Option<int> { WakeOutcome(Ensured(before.configMap), spec, now).1.earliest }

    ghost predicate Selects(ref: Ref) { Targets.Selected(cluster, spec, ref) }
  }

  // ---------- when a pass succeeds ----------

  /** From a safe state, with a target that can be listed, a pass that the API server does not
      fail succeeds. */
  lemma UndisturbedPassSucceeds(k: Call, s: System)
    requires k.Happened() && Inv(s) && s.world == k.before.world && Resolvable(k.spec) && !k.disturbed
    ensures k.r.RequeueAfter?
  {
    if !k.r.RequeueAfter? {
      SafePassSucceeds(s, ConfigOf(k.spec, k.optIn), DecidesAsleep(k.before, k.spec, k.now, k.eval.awake), k.refs);
    }
  }

  /** A pass that succeeds decides the specification: asleep outside the windows, unless an
      override lasts. */
  lemma DecidesTheSchedule(k: Call)
    requires k.Happened() && k.r.RequeueAfter?
    ensures DecidesAsleep(k.before, k.spec, k.now, k.eval.awake) == Requeue.AsleepAt(k.spec, k.zone, k.Expiry(), k.now)
  {
    ActiveMeansFuture(Read(RawValue(Ensured(k.before.configMap))), k.now, WakeBounds(k.spec).0, WakeBounds(k.spec).1);
  }

  // ---------- dry run ----------

  /** spec.dryRun: nothing changes, however the pass ends. */
  lemma DryRunChangesNothing(k: Call)
    requires k.Happened() && k.spec.dryRun
    ensures k.after.world == k.before.world
  {
    var cfg, asleep := ConfigOf(k.spec, k.optIn), DecidesAsleep(k.before, k.spec, k.now, k.eval.awake);
    if ok :| PassRan(k.before.world, k.after.world, cfg, asleep, k.refs, ok) {
      OperatorSafety.AnyDryRunIsIdentity(k.before.world, k.after.world, cfg, asleep, k.refs, ok);
    }
  }

  // ---------- awake ----------

  /** Inside a window or an override, an undisturbed pass makes every selected workload what its
      owner intended, and clears its checkpoint. */
  lemma AwakePassRestoresAll(k: Call, s: System, ref: Ref)
    requires k.Happened() && Inv(s) && s.world == k.before.world && Resolvable(k.spec) && !k.disturbed && !k.spec.dryRun
    requires !Requeue.AsleepAt(k.spec, k.zone, k.Expiry(), k.now) && k.Selects(ref) && ref in k.before.world.objs
    ensures k.r.RequeueAfter? && ref in k.after.world.objs
    ensures SlotOf(k.after.world, ref).saved.None? && Effective(k.after.world.objs[ref].field) == s.intended[ref]
  {
    UndisturbedPassSucceeds(k, s);
    DecidesTheSchedule(k);
    AwakePassRestores(s, ConfigOf(k.spec, k.optIn), k.refs, ref);
  }

  // ---------- asleep ----------

  /** The sleeping state of each kind for spec.sleepReplicas == n. */
  predicate SleepsAs(kind: string, n: Int32, field: Field) {
    if kind == "Deployment" || kind == "StatefulSet" then
      field == Replicas(Some(n)) || (n == 1 && field == Replicas(None))
    else if kind == "DaemonSet" then
      field.NodeSelector? && "nyx.dev/asleep" in field.labels
    else if kind == "CronJob" || kind == "Job" then
      field == Suspend(Some(true))
    else
      kind == "HorizontalPodAutoscaler" && field == Bounds(Some(if n < 1 then 1 else n), if n < 1 then 1 else n)
  }

  /** A StatefulSet that deletes its volumes when scaled is spared unless it or the schedule opts
      in, a Job while it has active pods. */
  predicate Spared(kind: string, o: Obj, scheduleOptsIn: bool) {
    || (kind == "StatefulSet" && o.deletesPVCs && !(o.optIn || scheduleOptsIn))
    || (kind == "Job" && o.active > 0)
  }

  /** What an asleep call leaves of one workload. */
  lemma SleepingSlot(kind: string, spec: SleepScheduleSpec, optIn: bool, s: Slot)
    requires Proper(kind, s) && !spec.dryRun && !HandlerPlan(kind, ConfigOf(spec, optIn), true, s).fails
    ensures var after := Finished(kind, ConfigOf(spec, optIn), true, s);
            if Spared(kind, s.obj, optIn) then after == s
            else if kind == "Deployment" || kind == "StatefulSet" || kind == "DaemonSet" then
              SleepsAs(kind, spec.sleepReplicas, after.obj.field)
            else
              SleepsAs(kind, spec.sleepReplicas, after.obj.field) <==>
              s.saved.None? || SleepsAs(kind, spec.sleepReplicas, s.obj.field)
  {
    PlanLength(kind, ConfigOf(spec, optIn), true, s);
    DoOpsUnfold(s, SleepPlan(kind, ConfigOf(spec, optIn), s).ops);
  }

  /** Outside the windows and without an override, an undisturbed pass puts every selected workload
      to sleep, but for the spared ones, which it does not touch; a CronJob, Job or HPA with a
      checkpoint stays as it is. */
  lemma AsleepPassSleepsAll(k: Call, s: System, ref: Ref)
    requires k.Happened() && Inv(s) && s.world == k.before.world && Resolvable(k.spec) && !k.disturbed && !k.spec.dryRun
    requires Requeue.AsleepAt(k.spec, k.zone, k.Expiry(), k.now) && k.Selects(ref) && ref in k.before.world.objs
    ensures k.r.RequeueAfter? && ref in k.after.world.objs
    ensures var before, after := SlotOf(k.before.world, ref), SlotOf(k.after.world, ref);
            if Spared(ref.kind, before.obj, k.optIn) then after == before
            else if ref.kind == "Deployment" || ref.kind == "StatefulSet" || ref.kind == "DaemonSet" then
              SleepsAs(ref.kind, k.spec.sleepReplicas, after.obj.field)
            else
              SleepsAs(ref.kind, k.spec.sleepReplicas, after.obj.field) <==>
              before.saved.None? || SleepsAs(ref.kind, k.spec.sleepReplicas, before.obj.field)
  {
    UndisturbedPassSucceeds(k, s);
    DecidesTheSchedule(k);
    var cfg := ConfigOf(k.spec, k.optIn);
    PassIsPointwise(k.before.world, cfg, true, k.refs, ref);
    SafeCallsSucceed(ref.kind, cfg, true, SlotOf(s.world, ref), s.intended[ref]);
    SleepingSlot(ref.kind, k.spec, k.optIn, SlotOf(k.before.world, ref));
  }

  /** However it ends, a pass touches no workload and no checkpoint that the schedule does not select. */
  lemma UnselectedIsUntouched(k: Call, ref: Ref)
    requires k.Happened() && !k.Selects(ref) && ref in k.before.world.objs
    ensures ref in k.after.world.objs && SlotOf(k.after.world, ref) == SlotOf(k.before.world, ref)
  {
    var cfg, asleep := ConfigOf(k.spec, k.optIn), DecidesAsleep(k.before, k.spec, k.now, k.eval.awake);
    if k.after.world != k.before.world {
      var ok :| PassRan(k.before.world, k.after.world, cfg, asleep, k.refs, ok);
      OperatorSafety.AnyPassIsLocal(k.before.world, k.after.world, cfg, asleep, k.refs, ok, ref);
    }
  }

  // ---------- status ----------

  /** After a pass that succeeds the status says what the specification says: Awake inside a window,
      WokenByOverride outside one while an override lasts, and Asleep otherwise. */
  lemma StatusTellsThePhase(k: Call)
    requires k.Happened() && k.r.RequeueAfter?
    ensures k.after.status.phase == Some(if AwakeAt(k.spec, k.zone, k.now) then Awake
                                         else if k.Expiry().Some? then WokenByOverride
                                         else Phase.Asleep)
    ensures k.after.status.nextTransition == k.eval.next
    ensures k.after.status.activeWakes == if k.Expiry().Some? then 1 else 0
  {
    var ws := WakeOutcome(Ensured(k.before.configMap), k.spec, k.now).1;
    if k.eval.next.Some? { Requeue.TransitionsAreWholeSeconds(k.spec, k.zone, k.now, k.eval); }
    StatusReportsThePass(k.before.status, PhaseOf(k.eval.awake, ws.activeCount > 0), k.eval.next, ws.activeCount);
  }

  // ---------- the override ----------

  /** The value under "wake" keeps the schedule awake up to what it asks for (a duration from now,
      an instant, or spec.temporaryWake.defaultDuration), capped by spec.temporaryWake.maxDuration. */
  lemma OverrideLasts(k: Call, cm: ConfigMap, e: Entry)
    requires k.before.configMap == Some(cm) && "wake" in cm && ParseEntry(cm["wake"]) == Ok(e)
    ensures var tw := k.spec.temporaryWake;
            var def := if tw.Some? then tw.value.defaultDuration else 0;
            var wish := if e.Relative? then k.now + e.d else if e.Absolute? then e.t else k.now + def;
            var capped := if tw.Some? && 0 < tw.value.maxDuration < wish - k.now then k.now + tw.value.maxDuration else wish;
            k.Expiry() == if (e.NoExpiry? && def <= 0) || capped <= k.now then None else Some(capped)
  {
    ResolveIsCappedWish(e, k.now, WakeBounds(k.spec).0, WakeBounds(k.spec).1);
  }

  /** Without a value, or with one that cannot be read, there is no override. */
  lemma NoOverride(k: Call)
    requires k.before.configMap.None? || "wake" !in k.before.configMap.value || ParseEntry(k.before.configMap.value["wake"]).Err?
    ensures k.Expiry() == None
  {}
}
