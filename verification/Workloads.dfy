/** internal/workload: what Sleep and Restore of each kind do to one workload and its checkpoint.

    A handler call is a plan: the writes it issues, in order, when nothing goes wrong. The
    operator keeps nothing in memory, so a failed call or a crash leaves the effect of a
    prefix of the plan. */
module Workloads {
  import opened Wrappers
  import opened Api
  import opened Checkpoint

  const DEPLOYMENT := "Deployment"
  const STATEFUL_SET := "StatefulSet"
  const DAEMON_SET := "DaemonSet"
  const CRON_JOB := "CronJob"
  const JOB := "Job"
  const HPA := "HorizontalPodAutoscaler"

  /** The field shape of a kind with a handler. */
  function ShapeOfKind(kind: string): Option<Shape> {
    if kind == DEPLOYMENT || kind == STATEFUL_SET then Some(ReplicaShape)
    else if kind == DAEMON_SET then Some(SelectorShape)
    else if kind == CRON_JOB || kind == JOB then Some(SuspendShape)
    else if kind == HPA then Some(BoundsShape)
    else None
  }

  const SENTINEL_KEY := "nyx.dev/asleep"
  const SENTINEL_VALUE := "true"

  /** A workload as the handlers see it: its identity, the field its kind sleeps by, a Job's
      active pods, a StatefulSet's whenScaled Delete policy and its opt-in annotation. */
  datatype Obj = Obj(uid: string, field: Field, active: nat, deletesPVCs: bool, optIn: bool)

  /** The schedule's settings at the time of a call; optIn is its allow-pvc-deletion annotation. */
  datatype Config = Config(sleepReplicas: Int32, dryRun: bool, optIn: bool)

  /** One workload with its checkpoint entry, if any. */
  datatype Slot = Slot(obj: Obj, saved: Option<string>)

  datatype Op = Save(raw: string) | Patch(field: Field) | Forget

  /** `fails` is an error return that precedes every write. */
  datatype Plan = Plan(ops: seq<Op>, fails: bool)

  const NOTHING := Plan([], false)
  const FAILURE := Plan([], true)

  // ---------- the handlers ----------

  function SleepReplica(cfg: Config, s: Slot): Plan
    requires s.obj.field.Replicas?
  {
    if s.saved.Some? && Decode(ReplicaShape, s.saved.value).None? then FAILURE
    else
      var save := if s.saved.Some? || cfg.dryRun then [] else [Save(Encode(s.obj.field))];
      Plan(save + PatchReplicas(cfg, s.obj.field, Replicas(Some(cfg.sleepReplicas))), false)
  }

  function PatchReplicas(cfg: Config, live: Field, want: Field): seq<Op> {
    if Effective(live) == want || cfg.dryRun then [] else [Patch(want)]
  }

  function RestoreReplica(cfg: Config, s: Slot): Plan {
    if s.saved.None? then NOTHING
    else match Decode(ReplicaShape, s.saved.value)
         case None => FAILURE
         case Some(orig) =>
           if cfg.dryRun then NOTHING
           else Plan(PatchReplicas(cfg, s.obj.field, orig) + [Forget], false)
  }

  /** sentinel plus the live labels; a live label wins. */
  function AsleepSelector(labels: map<string, string>): map<string, string> {
    map[SENTINEL_KEY := SENTINEL_VALUE] + labels
  }

  function SleepDaemonSet(cfg: Config, s: Slot): Plan
    requires s.obj.field.NodeSelector?
  {
    if SENTINEL_KEY in s.obj.field.labels || cfg.dryRun then NOTHING
    else
      var save := if s.saved.Some? then [] else [Save(Encode(s.obj.field))];
      Plan(save + [Patch(NodeSelector(AsleepSelector(s.obj.field.labels)))], false)
  }

  /** sleepSuspend and HPA Sleep: nothing at all once a checkpoint exists. */
  function SleepOnce(cfg: Config, s: Slot, asleep: Field): Plan {
    if s.saved.Some? || cfg.dryRun then NOTHING
    else Plan([Save(Encode(s.obj.field)), Patch(asleep)], false)
  }

  /** Restore of DaemonSets, CronJobs, Jobs and HPAs. */
  function RestoreField(cfg: Config, s: Slot): Plan {
    if s.saved.None? then NOTHING
    else match Decode(ShapeOf(s.obj.field), s.saved.value)
         case None => FAILURE
         case Some(orig) => if cfg.dryRun then NOTHING else Plan([Patch(orig), Forget], false)
  }

  function AtLeastOne(n: Int32): Int32 { if n < 1 then 1 else n }

  /** The field of a sleeping CronJob, Job or HPA. */
  function NeutralField(cfg: Config, shape: Shape): Field {
    if shape.BoundsShape? then Bounds(Some(AtLeastOne(cfg.sleepReplicas)), AtLeastOne(cfg.sleepReplicas))
    else Suspend(Some(true))
  }

  /** The data-loss guards in front of Sleep. */
  predicate Guarded(kind: string, cfg: Config, o: Obj) {
    || (kind == STATEFUL_SET && o.deletesPVCs && !o.optIn && !cfg.optIn)
    || (kind == JOB && o.active > 0)
  }

  predicate FieldFits(kind: string, o: Obj) {
    ShapeOfKind(kind) == Some(ShapeOf(o.field))
  }

  function SleepPlan(kind: string, cfg: Config, s: Slot): Plan
    requires FieldFits(kind, s.obj)
  {
    if Guarded(kind, cfg, s.obj) then NOTHING
    else match ShapeOf(s.obj.field)
         case ReplicaShape => SleepReplica(cfg, s)
         case SelectorShape => SleepDaemonSet(cfg, s)
         case shape => SleepOnce(cfg, s, NeutralField(cfg, shape))
  }

  function RestorePlan(kind: string, cfg: Config, s: Slot): Plan
    requires FieldFits(kind, s.obj)
  {
    if ShapeOf(s.obj.field).ReplicaShape? then RestoreReplica(cfg, s) else RestoreField(cfg, s)
  }

  function HandlerPlan(kind: string, cfg: Config, asleep: bool, s: Slot): Plan
    requires FieldFits(kind, s.obj)
  {
    if asleep then SleepPlan(kind, cfg, s) else RestorePlan(kind, cfg, s)
  }

  // ---------- effect of the writes ----------

  /** A checkpoint is written once and never overwritten. */
  function DoOp(s: Slot, op: Op): Slot {
    match op
    case Save(raw) => if s.saved.Some? then s else s.(saved := Some(raw))
    case Patch(field) => s.(obj := s.obj.(field := field))
    case Forget => s.(saved := None)
  }

  function DoOps(s: Slot, ops: seq<Op>): Slot
    decreases |ops|
  {
    if ops == [] then s else DoOps(DoOp(s, ops[0]), ops[1..])
  }

  /** Where a call stops after its first `steps` writes. */
  function Stopped(kind: string, cfg: Config, asleep: bool, s: Slot, steps: nat): Slot
    requires FieldFits(kind, s.obj) && steps <= |HandlerPlan(kind, cfg, asleep, s).ops|
  {
    DoOps(s, HandlerPlan(kind, cfg, asleep, s).ops[..steps])
  }

  function Finished(kind: string, cfg: Config, asleep: bool, s: Slot): Slot
    requires FieldFits(kind, s.obj)
  {
    DoOps(s, HandlerPlan(kind, cfg, asleep, s).ops)
  }

  /** Every plan is at most a write of the checkpoint store and one of the workload. */
  lemma PlanLength(kind: string, cfg: Config, asleep: bool, s: Slot)
    requires FieldFits(kind, s.obj)
    ensures |HandlerPlan(kind, cfg, asleep, s).ops| <= 2
    ensures HandlerPlan(kind, cfg, asleep, s).fails ==> HandlerPlan(kind, cfg, asleep, s).ops == []
  {}

  lemma DoOpsUnfold(s: Slot, ops: seq<Op>)
    requires |ops| <= 2
    ensures |ops| == 0 ==> DoOps(s, ops) == s
    ensures |ops| == 1 ==> DoOps(s, ops) == DoOp(s, ops[0])
    ensures |ops| == 2 ==> DoOps(s, ops) == DoOp(DoOp(s, ops[0]), ops[1])
  {
    if |ops| == 2 { assert DoOps(DoOp(s, ops[0]), ops[1..]) == DoOp(DoOp(s, ops[0]), ops[1..][0]); }
  }

  // ---------- exact restore of one workload ----------

  /** Nothing is lost: without a checkpoint the workload is as intended, and a checkpoint
      decodes to what is intended. */
  predicate Safe(s: Slot, intended: Field) {
    if s.saved.Some? then Decode(ShapeOf(s.obj.field), s.saved.value) == Some(intended)
    else Effective(s.obj.field) == intended
  }

  predicate Proper(kind: string, s: Slot) { FieldFits(kind, s.obj) && Storable(s.obj.field) }

  /** A call of any handler, stopped anywhere, loses nothing. */
  lemma CallIsSafe(kind: string, cfg: Config, asleep: bool, s: Slot, intended: Field, steps: nat)
    requires Proper(kind, s) && Safe(s, intended)
    requires steps <= |HandlerPlan(kind, cfg, asleep, s).ops|
    ensures Safe(Stopped(kind, cfg, asleep, s, steps), intended)
  {
    if asleep { SleepIsSafe(kind, cfg, s, intended, steps); } else { RestoreIsSafe(kind, cfg, s, intended, steps); }
  }

  lemma SleepIsSafe(kind: string, cfg: Config, s: Slot, intended: Field, steps: nat)
    requires Proper(kind, s) && Safe(s, intended) && steps <= |SleepPlan(kind, cfg, s).ops|
    ensures Safe(Stopped(kind, cfg, true, s, steps), intended)
  {
    var ops := SleepPlan(kind, cfg, s).ops;
    SleepShape(kind, cfg, s);
    DoOpsUnfold(s, ops[..steps]);
    CheckpointRoundTrip(s.obj.field);
    SavedOnceIsSafe(s, intended);
  }

  /** Sleep saves the live field only where nothing is saved, and otherwise only patches. */
  predicate SavesThenPatches(s: Slot, ops: seq<Op>) {
    && |ops| <= 2
    && (forall i :: 0 <= i < |ops| && ops[i].Save? ==> i == 0 && s.saved.None? && ops[i].raw == Encode(s.obj.field))
    && (forall i :: 0 <= i < |ops| && ops[i].Patch? ==>
          && ShapeOf(ops[i].field) == ShapeOf(s.obj.field) && Storable(ops[i].field)
          && (s.saved.None? ==> i == 1 && ops[0].Save?))
    && (forall i :: 0 <= i < |ops| ==> !ops[i].Forget?)
  }

  lemma SleepShape(kind: string, cfg: Config, s: Slot)
    requires Proper(kind, s)
    ensures SavesThenPatches(s, SleepPlan(kind, cfg, s).ops)
  {
    match ShapeOf(s.obj.field)
    case ReplicaShape => ReplicaSleepShape(cfg, s);
    case SelectorShape => SelectorSleepShape(cfg, s);
    case shape => OnceSleepShape(cfg, s, NeutralField(cfg, shape));
  }

  lemma ReplicaSleepShape(cfg: Config, s: Slot)
    requires s.obj.field.Replicas?
    ensures SavesThenPatches(s, SleepReplica(cfg, s).ops)
  {}

  lemma SelectorSleepShape(cfg: Config, s: Slot)
    requires s.obj.field.NodeSelector? && Storable(s.obj.field)
    ensures SavesThenPatches(s, SleepDaemonSet(cfg, s).ops)
  {
    assert Storable(NodeSelector(AsleepSelector(s.obj.field.labels)));
  }

  lemma OnceSleepShape(cfg: Config, s: Slot, asleep: Field)
    requires ShapeOf(asleep) == ShapeOf(s.obj.field) && Storable(asleep)
    ensures SavesThenPatches(s, SleepOnce(cfg, s, asleep).ops)
  {}

  lemma SavedOnceIsSafe(s: Slot, intended: Field)
    requires Safe(s, intended)
    requires Decode(ShapeOf(s.obj.field), Encode(s.obj.field)) == Some(Effective(s.obj.field))
    ensures s.saved.None? ==> Safe(DoOp(s, Save(Encode(s.obj.field))), intended)
  {}

  lemma RestoreIsSafe(kind: string, cfg: Config, s: Slot, intended: Field, steps: nat)
    requires Proper(kind, s) && Safe(s, intended)
    requires steps <= |RestorePlan(kind, cfg, s).ops|
    ensures Safe(Stopped(kind, cfg, false, s, steps), intended)
  {
    PlanLength(kind, cfg, false, s);
    DoOpsUnfold(s, RestorePlan(kind, cfg, s).ops[..steps]);
    RestoredIsEffective(s, intended);
  }

  /** A call writes only fields that fit the kind and can be stored, from any state. */
  lemma StoppedIsProper(kind: string, cfg: Config, asleep: bool, s: Slot, steps: nat)
    requires Proper(kind, s) && steps <= |HandlerPlan(kind, cfg, asleep, s).ops|
    ensures Proper(kind, Stopped(kind, cfg, asleep, s, steps))
  {
    var ops := HandlerPlan(kind, cfg, asleep, s).ops;
    PlanLength(kind, cfg, asleep, s);
    DoOpsUnfold(s, ops[..steps]);
    if asleep { SleepShape(kind, cfg, s); }
  }

  /** A decoded field is already effective, so writing it back makes it live exactly. */
  lemma RestoredIsEffective(s: Slot, intended: Field)
    requires Safe(s, intended)
    ensures Effective(intended) == intended
  {}

  // ---------- recovery and convergence ----------

  /** From any safe state a Restore that runs to its end leaves the workload as intended and
      no checkpoint, and a safe state never fails. */
  lemma RestoreRecovers(kind: string, cfg: Config, s: Slot, intended: Field)
    requires Proper(kind, s) && Safe(s, intended) && !cfg.dryRun
    ensures !RestorePlan(kind, cfg, s).fails
    ensures Finished(kind, cfg, false, s).saved.None?
    ensures Effective(Finished(kind, cfg, false, s).obj.field) == intended
  {
    PlanLength(kind, cfg, false, s);
    DoOpsUnfold(s, RestorePlan(kind, cfg, s).ops);
    RestoredIsEffective(s, intended);
  }

  /** In a safe state no call of any handler fails by itself. */
  lemma SafeCallsSucceed(kind: string, cfg: Config, asleep: bool, s: Slot, intended: Field)
    requires Proper(kind, s) && Safe(s, intended)
    ensures !HandlerPlan(kind, cfg, asleep, s).fails
  {}

  predicate Asleep(cfg: Config, o: Obj) {
    match o.field
    case Replicas(_) => Effective(o.field) == Replicas(Some(cfg.sleepReplicas))
    case NodeSelector(labels) => SENTINEL_KEY in labels
    case Suspend(flag) => flag == Some(true)
    case Bounds(_, _) => o.field == NeutralField(cfg, BoundsShape)
  }

  /** A Sleep that runs to its end, unguarded, puts replica workloads and DaemonSets to sleep
      from every state. */
  lemma SleepConverges(kind: string, cfg: Config, s: Slot)
    requires FieldFits(kind, s.obj) && !cfg.dryRun && !Guarded(kind, cfg, s.obj)
    requires s.obj.field.Replicas? || s.obj.field.NodeSelector?
    requires !SleepPlan(kind, cfg, s).fails
    ensures Asleep(cfg, Finished(kind, cfg, true, s).obj)
  {
    PlanLength(kind, cfg, true, s);
    DoOpsUnfold(s, SleepPlan(kind, cfg, s).ops);
  }

  /** CronJobs, Jobs and HPAs fall asleep exactly when no checkpoint stood in the way, or
      they were asleep already. A crash between checkpoint and patch therefore keeps them
      awake until the next Restore. */
  lemma SleepOnceConverges(kind: string, cfg: Config, s: Slot)
    requires FieldFits(kind, s.obj) && !cfg.dryRun && !Guarded(kind, cfg, s.obj)
    requires s.obj.field.Suspend? || s.obj.field.Bounds?
    ensures Asleep(cfg, Finished(kind, cfg, true, s).obj) <==> s.saved.None? || Asleep(cfg, s.obj)
  {
    PlanLength(kind, cfg, true, s);
    DoOpsUnfold(s, SleepPlan(kind, cfg, s).ops);
  }

  /** A real sleep keeps every original node label: only the sentinel is new. */
  lemma SentinelKeepsLabels(cfg: Config, s: Slot)
    requires FieldFits(DAEMON_SET, s.obj) && !cfg.dryRun
    ensures var before := s.obj.field.labels;
            var after := Finished(DAEMON_SET, cfg, true, s).obj.field;
            && after.NodeSelector? && SENTINEL_KEY in after.labels
            && after.labels.Keys == before.Keys + {SENTINEL_KEY}
            && after.labels == (if "nyx.dev/asleep" in before then before else before["nyx.dev/asleep" := "true"])
            && forall k :: k in before ==> after.labels[k] == before[k]
  {
    PlanLength(DAEMON_SET, cfg, true, s);
    DoOpsUnfold(s, SleepPlan(DAEMON_SET, cfg, s).ops);
  }

  // ---------- idempotence, dry run, guards ----------

  /** After a completed call the same call has nothing left to write. */
  lemma CallIsIdempotent(kind: string, cfg: Config, asleep: bool, s: Slot)
    requires Proper(kind, s) && !HandlerPlan(kind, cfg, asleep, s).fails
    ensures Proper(kind, Finished(kind, cfg, asleep, s))
    ensures HandlerPlan(kind, cfg, asleep, Finished(kind, cfg, asleep, s)) == NOTHING
  {
    PlanLength(kind, cfg, asleep, s);
    if cfg.dryRun {
      DryRunWritesNothing(kind, cfg, asleep, s);
    } else if asleep {
      SleepIsIdempotent(kind, cfg, s);
    } else {
      RestoreIsIdempotent(kind, cfg, s);
    }
  }

  lemma SleepIsIdempotent(kind: string, cfg: Config, s: Slot)
    requires Proper(kind, s) && !SleepPlan(kind, cfg, s).fails && !cfg.dryRun
    ensures Proper(kind, Finished(kind, cfg, true, s))
    ensures SleepPlan(kind, cfg, Finished(kind, cfg, true, s)) == NOTHING
  {
    SleepShape(kind, cfg, s);
    DoOpsUnfold(s, SleepPlan(kind, cfg, s).ops);
    CheckpointRoundTrip(s.obj.field);
    if !Guarded(kind, cfg, s.obj) {
      match ShapeOf(s.obj.field)
      case ReplicaShape => ReplicaSleepIsIdempotent(cfg, s);
      case SelectorShape => SentinelKeepsLabels(cfg, s);
      case _ =>
    }
  }

  lemma ReplicaSleepIsIdempotent(cfg: Config, s: Slot)
    requires s.obj.field.Replicas? && !SleepReplica(cfg, s).fails && !cfg.dryRun
    requires Decode(ReplicaShape, Encode(s.obj.field)).Some?
    ensures var t := DoOps(s, SleepReplica(cfg, s).ops); t.obj.field.Replicas? && SleepReplica(cfg, t) == NOTHING
  {
    DoOpsUnfold(s, SleepReplica(cfg, s).ops);
  }

  lemma RestoreIsIdempotent(kind: string, cfg: Config, s: Slot)
    requires Proper(kind, s) && !RestorePlan(kind, cfg, s).fails && !cfg.dryRun
    ensures Proper(kind, Finished(kind, cfg, false, s))
    ensures RestorePlan(kind, cfg, Finished(kind, cfg, false, s)) == NOTHING
  {
    PlanLength(kind, cfg, false, s);
    DoOpsUnfold(s, RestorePlan(kind, cfg, s).ops);
  }

  /** With dryRun set no handler of any kind writes anything, whatever the state. */
  lemma DryRunWritesNothing(kind: string, cfg: Config, asleep: bool, s: Slot)
    requires FieldFits(kind, s.obj) && cfg.dryRun
    ensures HandlerPlan(kind, cfg, asleep, s).ops == []
  {}

  /** The one way a call suspends a Job with active pods is a real Restore of a checkpoint
      that says suspended; Sleep never does. */
  lemma SuspendingAnActiveJob(cfg: Config, asleep: bool, s: Slot, steps: nat)
    requires FieldFits(JOB, s.obj) && s.obj.active > 0 && s.obj.field != Suspend(Some(true))
    requires steps <= |HandlerPlan(JOB, cfg, asleep, s).ops|
    ensures Stopped(JOB, cfg, asleep, s, steps).obj.field == Suspend(Some(true)) <==>
            && !asleep && !cfg.dryRun && steps > 0
            && s.saved.Some? && Decode(SuspendShape, s.saved.value) == Some(Suspend(Some(true)))
  {
    var ops := HandlerPlan(JOB, cfg, asleep, s).ops;
    PlanLength(JOB, cfg, asleep, s);
    DoOpsUnfold(s, ops[..steps]);
  }

  /** It happens: a Job that was suspended before the sleep and resumed during it is suspended
      again by the wake-up, under its running pods. */
  lemma RestoreResuspendsRunningJob(cfg: Config) returns (resumed: Slot)
    requires !cfg.dryRun
    ensures var slept := Finished(JOB, cfg, true, Slot(Obj("uid", Suspend(Some(true)), 0, false, false), None));
            resumed == slept.(obj := slept.obj.(field := Suspend(Some(false)), active := 1))
    ensures Finished(JOB, cfg, false, resumed).obj == resumed.obj.(field := Suspend(Some(true)))
  {
    var before := Slot(Obj("uid", Suspend(Some(true)), 0, false, false), None);
    DoOpsUnfold(before, SleepPlan(JOB, cfg, before).ops);
    var slept := Finished(JOB, cfg, true, before);
    resumed := slept.(obj := slept.obj.(field := Suspend(Some(false)), active := 1));
    DoOpsUnfold(resumed, RestorePlan(JOB, cfg, resumed).ops);
  }
}
