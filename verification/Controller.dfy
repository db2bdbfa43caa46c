/** internal/controller/sleepschedule_controller.go: one reconcile pass. */
module Controller {
  import opened Wrappers
  import opened Clock
  import opened Timestamp
  import opened Zones
  import opened Api
  import opened Schedule
  import opened Transitions
  import opened NoTransition
  import opened Wake
  import opened Workloads
  import opened Cluster
  import opened ApiServer
  import opened Handlers
  import Evaluator
  import Targets
  import Requeue

  const WAKE_KEY := "wake"

  type ConfigMap = map<string, string>

  /** What a schedule's passes read and write. */
  datatype Snapshot = Snapshot(world: World, configMap: Option<ConfigMap>, status: Status)

  ghost function SnapshotOf(c: Client): Snapshot
    reads c
  {
    Snapshot(c.World(), c.configMap, c.status)
  }

  // ---------- the wake ConfigMap ----------

  function RawValue(cm: Option<ConfigMap>): Option<string> {
    if cm.Some? && WAKE_KEY in cm.value then Some(cm.value[WAKE_KEY]) else None
  }

  function WakeBounds(spec: SleepScheduleSpec): (int, int) {
    if spec.temporaryWake.Some?
    then (spec.temporaryWake.value.defaultDuration, spec.temporaryWake.value.maxDuration) else (0, 0)
  }

  /** The effect and the wake state of processing the value in cm. */
  function WakeOutcome(cm: Option<ConfigMap>, spec: SleepScheduleSpec, now: nat): (Effect, WakeState) {
    Decide(Read(RawValue(cm)), now, WakeBounds(spec).0, WakeBounds(spec).1)
  }

  function WithEffect(cm: Option<ConfigMap>, e: Effect): Option<ConfigMap> {
    match e
    case Keep => cm
    case Stamp(expiry) => if cm.Some? then Some(cm.value[WAKE_KEY := FormatExpiry(expiry)]) else cm
    case Drop => if cm.Some? then Some(cm.value - {WAKE_KEY}) else cm
  }

  function WakePass(spec: SleepScheduleSpec, now: nat, updateOk: bool): Wake.Pass {
    Wake.Pass(now, WakeBounds(spec).0, WakeBounds(spec).1, updateOk)
  }

  /** No entry but the wake value is added, removed or changed. */
  ghost predicate OthersKept(before: Option<ConfigMap>, after: Option<ConfigMap>) {
    && (before.Some? ==> after.Some?)
    && forall k :: k != WAKE_KEY && after.Some? ==>
         && (k in after.value <==> before.Some? && k in before.value)
         && (k in after.value ==> after.value[k] == before.value[k])
  }

  /** One step of the runs in Wake, and nothing else. */
  ghost predicate WakeStep(before: Option<ConfigMap>, after: Option<ConfigMap>, spec: SleepScheduleSpec, now: nat, updateOk: bool) {
    RawValue(after) == After(RawValue(before), WakePass(spec, now, updateOk)) && OthersKept(before, after)
  }

  /** The effect on the value is the one of the runs in Wake, and no other key is touched. */
  lemma EffectIsLocal(cm: Option<ConfigMap>, spec: SleepScheduleSpec, now: nat)
    ensures var after := WithEffect(cm, WakeOutcome(cm, spec, now).0);
            WakeStep(cm, after, spec, now, true) && (after.Some? <==> cm.Some?)
  {}

  /** So the passes of the controller, whatever settings each of them finds, make one of the
      runs over which Wake proves its bounds. */
  lemma ReconcilesAreARun(cms: seq<Option<ConfigMap>>, specs: seq<SleepScheduleSpec>, ps: seq<Wake.Pass>)
    requires |cms| == |ps| + 1 && |specs| == |ps|
    requires forall k :: 0 <= k < |ps| ==>
               && ps[k] == WakePass(specs[k], ps[k].now, ps[k].updateOk)
               && WakeStep(cms[k], cms[k + 1], specs[k], ps[k].now, ps[k].updateOk)
    ensures Wake.IsRun(seq(|cms|, k requires 0 <= k < |cms| => RawValue(cms[k])), ps)
  {
    var vs := seq(|cms|, k requires 0 <= k < |cms| => RawValue(cms[k]));
    forall k | 0 <= k < |ps| ensures vs[k + 1] == After(vs[k], ps[k]) {
      assert WakeStep(cms[k], cms[k + 1], specs[k], ps[k].now, ps[k].updateOk);
    }
  }

  /** Create-only: an existing ConfigMap is left as it is; a terminating namespace is no error. */
  method EnsureWakeConfigMap(c: Client) returns (ok: bool)
    modifies c`configMap, c`faults
    ensures c.configMap == old(c.configMap) || (old(c.configMap).None? && c.configMap == Some(map[]))
    ensures ok ==> c.configMap.Some? || c.terminating
    ensures c.faults == old(c.faults) + if ok then 0 else 1
  {
    var got, cm := c.GetConfigMap();
    if !got { return false; }
    if cm.Some? { return true; }
    var created, refused := c.CreateConfigMap();
    return created || refused;
  }

  method ProcessWakeEntries(c: Client, spec: SleepScheduleSpec, now: nat) returns (ok: bool, ws: WakeState)
    modifies c`configMap, c`faults
    ensures ok ==> ws == WakeOutcome(old(c.configMap), spec, now).1
    ensures c.configMap == if ok then WithEffect(old(c.configMap), WakeOutcome(old(c.configMap), spec, now).0)
                           else old(c.configMap)
    ensures c.faults == old(c.faults) + if ok then 0 else 1
  {
    var got, cm := c.GetConfigMap();
    if !got { return false, INACTIVE; }
    if cm.None? || WAKE_KEY !in cm.value { return true, INACTIVE; }
    var parsed := ParseEntry(cm.value[WAKE_KEY]);
    if parsed.Err? { return true, INACTIVE; }
    var (def, max) := WakeBounds(spec);
    var res := Resolve(parsed.value, now, def, max);
    if res.Err? { return true, INACTIVE; }
    var data := cm.value;
    if res.value.expiry <= now {
      data := data - {WAKE_KEY};
      ok := c.UpdateConfigMap(data);
      return ok, INACTIVE;
    }
    if res.value.changed {
      data := data[WAKE_KEY := FormatExpiry(res.value.expiry)];
      ok := c.UpdateConfigMap(data);
      if !ok { return false, INACTIVE; }
    }
    return true, WakeState(1, Some(res.value.expiry));
  }

  // ---------- status ----------

  predicate StatusChanged(cur: Status, phase: Phase, next: Option<int>, activeWakes: int) {
    cur.phase != Some(phase) || cur.activeWakes != activeWakes || cur.nextTransition != next
  }

  function PhaseOf(awake: bool, forcedAwake: bool): Phase {
    if awake then Awake else if forcedAwake then WokenByOverride else Phase.Asleep
  }

  // ---------- one pass ----------

  function ConfigOf(spec: SleepScheduleSpec, optIn: bool): Config { Config(spec.sleepReplicas, spec.dryRun, optIn) }

  ghost function Ensured(cm: Option<ConfigMap>): Option<ConfigMap> { if cm.None? then Some(map[]) else cm }

  ghost predicate DecidesAsleep(s: Snapshot, spec: SleepScheduleSpec, now: nat, awake: bool) {
    !awake && WakeOutcome(Ensured(s.configMap), spec, now).1.activeCount == 0
  }

  function NextStatus(cur: Status, phase: Phase, next: Option<int>, activeWakes: int): Status {
    if StatusChanged(cur, phase, next, activeWakes) then StoredStatus(Status(Some(phase), next, activeWakes)) else cur
  }

  /** The snapshot after a pass in which every call succeeds. */
  ghost function Reconciled(s: Snapshot, spec: SleepScheduleSpec, optIn: bool,
                            now: nat, eval: Evaluation, refs: seq<Ref>): Snapshot
    requires ProperWorld(s.world)
  {
    var cm := Ensured(s.configMap);
    var (effect, ws) := WakeOutcome(cm, spec, now);
    Snapshot(
      Cluster.Pass(s.world, ConfigOf(spec, optIn), DecidesAsleep(s, spec, now, eval.awake), refs),
      WithEffect(cm, effect),
      NextStatus(s.status, PhaseOf(eval.awake, ws.activeCount > 0), eval.next, ws.activeCount))
  }

  /** What a pass that returns without an error has done; only in a terminating namespace
      may the ConfigMap still be missing. */
  ghost predicate Completed(before: Snapshot, after: Snapshot, spec: SleepScheduleSpec, optIn: bool,
                            now: nat, eval: Evaluation, refs: seq<Ref>, terminating: bool)
    requires ProperWorld(before.world)
  {
    var done := Reconciled(before, spec, optIn, now, eval, refs);
    && PassSucceeds(before.world, ConfigOf(spec, optIn), DecidesAsleep(before, spec, now, eval.awake), refs)
    && after.world == done.world && after.status == done.status
    && (after.configMap == done.configMap || (terminating && before.configMap.None? && after.configMap.None?))
  }

  /** A pass that writes nothing at all: no ConfigMap, no checkpoint or workload, no status. */
  ghost predicate WritesNothing(s: Snapshot, spec: SleepScheduleSpec, optIn: bool, now: nat, eval: Evaluation, refs: seq<Ref>)
    requires ProperWorld(s.world)
  {
    var ws := WakeOutcome(s.configMap, spec, now).1;
    && s.configMap.Some?
    && WakeOutcome(s.configMap, spec, now).0 == Keep
    && (forall ref :: ref in refs ==> Quiet(s.world, ConfigOf(spec, optIn), DecidesAsleep(s, spec, now, eval.awake), ref))
    && !StatusChanged(s.status, PhaseOf(eval.awake, ws.activeCount > 0), eval.next, ws.activeCount)
  }

  datatype Requeued = Failed | RequeueNow | RequeueAfter(delay: int)

  /** The ConfigMap part of a pass. */
  method ReadOverride(c: Client, spec: SleepScheduleSpec, now: nat) returns (ok: bool, ws: WakeState, ghost updateOk: bool)
    modifies c`configMap, c`faults
    ensures ok ==> ws == WakeOutcome(Ensured(old(c.configMap)), spec, now).1
    ensures ok ==> || c.configMap == WithEffect(Ensured(old(c.configMap)), WakeOutcome(Ensured(old(c.configMap)), spec, now).0)
                   || (c.terminating && old(c.configMap).None? && c.configMap.None?)
    ensures WakeStep(old(c.configMap), c.configMap, spec, now, updateOk)
    ensures c.faults == old(c.faults) + if ok then 0 else 1
  {
    updateOk := false;
    ok := EnsureWakeConfigMap(c);
    if !ok { return false, INACTIVE, false; }
    EffectIsLocal(c.configMap, spec, now);
    ok, ws := ProcessWakeEntries(c, spec, now);
    updateOk := ok;
  }

  /** The workloads and checkpoints are untouched, or as a pass over the refs in the decided
      direction left them. */
  ghost predicate LeftByAPass(before: World, after: World, cfg: Config, asleep: bool, refs: seq<Ref>)
    requires ProperWorld(before)
  {
    after == before || exists ok :: PassRan(before, after, cfg, asleep, refs, ok)
  }

  /** The refs are the workloads the schedule selects, of handled kinds. */
  ghost predicate AreSelected(cluster: seq<Targets.Listed>, spec: SleepScheduleSpec, refs: seq<Ref>) {
    && (Targets.SlashFreeCluster(cluster) ==> forall ref :: ref in refs <==> Targets.Selected(cluster, spec, ref))
    && (forall ref :: ref in refs ==> ShapeOfKind(ref.kind).Some?)
  }

  /** The target can be listed, or no kind asks for it. */
  ghost predicate Resolvable(spec: SleepScheduleSpec) {
    Targets.Listable(spec.target) || forall k :: Targets.Requested(spec, k) ==> ShapeOfKind(k).None?
  }

  /** Resolves the targets and applies the decision to them. */
  method ActOnTargets(c: Client, spec: SleepScheduleSpec, optIn: bool, asleep: bool, cluster: seq<Targets.Listed>)
    returns (ok: bool, ghost refs: seq<Ref>)
    requires ProperWorld(c.World())
    modifies c`objs, c`secret, c`revision, c`faults, c`conflicts
    ensures ProperWorld(c.World())
    ensures LeftByAPass(old(c.World()), c.World(), ConfigOf(spec, optIn), asleep, refs)
    ensures (refs == [] && c.World() == old(c.World())) || AreSelected(cluster, spec, refs)
    ensures ok ==>
              && c.World() == Cluster.Pass(old(c.World()), ConfigOf(spec, optIn), asleep, refs)
              && PassSucceeds(old(c.World()), ConfigOf(spec, optIn), asleep, refs)
              && AreSelected(cluster, spec, refs)
    ensures c.Later(old(c.faults), old(c.conflicts))
    ensures !ok ==> || c.Disturbed(old(c.faults), old(c.conflicts)) || !Resolvable(spec)
                    || (AreSelected(cluster, spec, refs) && !PassSucceeds(old(c.World()), ConfigOf(spec, optIn), asleep, refs))
  {
    ghost var w := c.World();
    var reg := Targets.Default();
    var targets := Targets.Resolve(c, cluster, spec, reg);
    if targets.Err? { return false, []; }
    refs := targets.value.0;
    ok := Apply(c, ConfigOf(spec, optIn), asleep, targets.value.0);
    assert PassRan(w, c.World(), ConfigOf(spec, optIn), asleep, refs, ok);
    if ok { SuccessfulPass(w, c.World(), ConfigOf(spec, optIn), asleep, refs); }
  }

  /** What a Reconcile does: `disturbed` says that the API server failed it, beyond what is retried. */
  ghost predicate Reconciles(before: Snapshot, after: Snapshot, spec: SleepScheduleSpec, optIn: bool, zone: Option<Zone>, now: nat,
                             cluster: seq<Targets.Listed>, r: Requeued, refs: seq<Ref>, eval: Evaluation, disturbed: bool, terminating: bool)
    requires ProperWorld(before.world) && (zone.Some? ==> zone.value.Valid() && zone.value.SkipsLessThanADay())
  {
    var cfg, asleep := ConfigOf(spec, optIn), DecidesAsleep(before, spec, now, eval.awake);
    && (r.RequeueAfter? ==>
          && zone.Some? && IsEvaluation(spec, zone.value, now, eval) && AreSelected(cluster, spec, refs)
          && Completed(before, after, spec, optIn, now, eval, refs, terminating)
          && Requeue.IsDelay(now, eval.next, WakeOutcome(Ensured(before.configMap), spec, now).1.earliest, r.delay))
    && (!r.RequeueAfter? ==>
          && after.status == before.status
          && (|| disturbed || zone.None? || !Resolvable(spec)
              || (AreSelected(cluster, spec, refs) && !PassSucceeds(before.world, cfg, asleep, refs))))
    && LeftByAPass(before.world, after.world, cfg, asleep, refs)
    && (after.world == before.world ||
          (zone.Some? && IsEvaluation(spec, zone.value, now, eval) && AreSelected(cluster, spec, refs)))
  }

  /** Reconcile. `cluster` is what listing returns, `zone` the result of loading spec.timezone. */
  method Reconcile(c: Client, spec: SleepScheduleSpec, optIn: bool, zone: Option<Zone>, now: nat,
                   cluster: seq<Targets.Listed>)
    returns (r: Requeued, ghost refs: seq<Ref>, ghost eval: Evaluation, ghost updateOk: bool)
    requires ProperWorld(c.World())
    requires zone.Some? ==> zone.value.Valid() && zone.value.SkipsLessThanADay()
    modifies c`objs, c`secret, c`revision, c`configMap, c`status, c`faults, c`conflicts, c`statusConflicts
    ensures ProperWorld(c.World())
    ensures r.RequeueNow? <==> c.statusConflicts > old(c.statusConflicts)
    ensures Reconciles(old(SnapshotOf(c)), SnapshotOf(c), spec, optIn, zone, now, cluster, r, refs, eval,
                       c.Disturbed(old(c.faults), old(c.conflicts)), c.terminating)
    ensures WakeStep(old(c.configMap), c.configMap, spec, now, updateOk)
  {
    refs := [];
    eval := Evaluation(false, Phase.Asleep, None);
    ghost var before := SnapshotOf(c);
    var ok, ws;
    ok, ws, updateOk := ReadOverride(c, spec, now);
    if !ok || zone.None? { return Failed, refs, eval, updateOk; }
    var res := Evaluator.Evaluate(spec, zone.value, now);
    eval := res;
    r, refs := ActAndReport(c, spec, optIn, now, cluster, res, ws);
    HalvesReconcile(before, SnapshotOf(c), spec, optIn, zone.value, now, cluster, r, refs, eval, ws,
                    c.Disturbed(old(c.faults), old(c.conflicts)), c.terminating);
  }

  /** The ConfigMap part and the acting part make a Reconcile. */
  lemma HalvesReconcile(before: Snapshot, after: Snapshot, spec: SleepScheduleSpec, optIn: bool, zone: Zone, now: nat,
                        cluster: seq<Targets.Listed>, r: Requeued, refs: seq<Ref>, eval: Evaluation, ws: WakeState,
                        disturbed: bool, terminating: bool)
    requires ProperWorld(before.world) && zone.Valid() && zone.SkipsLessThanADay() && IsEvaluation(spec, zone, now, eval)
    requires ws == WakeOutcome(Ensured(before.configMap), spec, now).1
    requires || after.configMap == WithEffect(Ensured(before.configMap), WakeOutcome(Ensured(before.configMap), spec, now).0)
             || (terminating && before.configMap.None? && after.configMap.None?)
    requires LeftByAPass(before.world, after.world, ConfigOf(spec, optIn), !eval.awake && ws.activeCount == 0, refs)
    requires after.world == before.world || AreSelected(cluster, spec, refs)
    requires !r.RequeueAfter? ==>
               && after.status == before.status
               && (|| disturbed || !Resolvable(spec)
                   || (AreSelected(cluster, spec, refs)
                       && !PassSucceeds(before.world, ConfigOf(spec, optIn), !eval.awake && ws.activeCount == 0, refs)))
    requires r.RequeueAfter? ==>
               var asleep := !eval.awake && ws.activeCount == 0;
               && after.world == Cluster.Pass(before.world, ConfigOf(spec, optIn), asleep, refs)
               && PassSucceeds(before.world, ConfigOf(spec, optIn), asleep, refs)
               && AreSelected(cluster, spec, refs)
               && after.status == NextStatus(before.status, PhaseOf(eval.awake, ws.activeCount > 0), eval.next, ws.activeCount)
               && Requeue.IsDelay(now, eval.next, ws.earliest, r.delay)
    ensures Reconciles(before, after, spec, optIn, Some(zone), now, cluster, r, refs, eval, disturbed, terminating)
  {}

  /** The second half of Reconcile: decide, act, write the status and ask for the next pass. */
  method ActAndReport(c: Client, spec: SleepScheduleSpec, optIn: bool, now: nat, cluster: seq<Targets.Listed>,
                      res: Evaluation, ws: WakeState)
    returns (r: Requeued, ghost refs: seq<Ref>)
    requires ProperWorld(c.World()) && res.phase == PhaseFor(res.awake)
    modifies c`objs, c`secret, c`revision, c`status, c`faults, c`conflicts, c`statusConflicts
    ensures ProperWorld(c.World())
    ensures r.RequeueNow? <==> c.statusConflicts > old(c.statusConflicts)
    ensures LeftByAPass(old(c.World()), c.World(), ConfigOf(spec, optIn), !res.awake && ws.activeCount == 0, refs)
    ensures c.World() == old(c.World()) || AreSelected(cluster, spec, refs)
    ensures c.Later(old(c.faults), old(c.conflicts))
    ensures !r.RequeueAfter? ==>
              && c.status == old(c.status)
              && (|| c.Disturbed(old(c.faults), old(c.conflicts)) || !Resolvable(spec)
                  || (AreSelected(cluster, spec, refs)
                      && !PassSucceeds(old(c.World()), ConfigOf(spec, optIn), !res.awake && ws.activeCount == 0, refs)))
    ensures r.RequeueAfter? ==>
              var asleep := !res.awake && ws.activeCount == 0;
              && c.World() == Cluster.Pass(old(c.World()), ConfigOf(spec, optIn), asleep, refs)
              && PassSucceeds(old(c.World()), ConfigOf(spec, optIn), asleep, refs)
              && AreSelected(cluster, spec, refs)
              && c.status == NextStatus(old(c.status), PhaseOf(res.awake, ws.activeCount > 0), res.next, ws.activeCount)
              && Requeue.IsDelay(now, res.next, ws.earliest, r.delay)
  {
    var forcedAwake := ws.activeCount > 0;
    var asleep := !res.awake && !forcedAwake;
    var phase := if !res.awake && forcedAwake then WokenByOverride else res.phase;
    var ok;
    ok, refs := ActOnTargets(c, spec, optIn, asleep, cluster);
    if !ok { return Failed, refs; }
    var e := UpdateStatusIfChanged(c, phase, res.next, ws.activeCount);
    if e.Conflict? { return RequeueNow, refs; }
    if !e.NoError? { return Failed, refs; }
    var delay := Requeue.RequeueDelay(now, res.next, ws.earliest);
    return RequeueAfter(delay), refs;
  }

  /** Writes the status only when it differs. */
  method UpdateStatusIfChanged(c: Client, phase: Phase, next: Option<int>, activeWakes: int) returns (e: ApiError)
    modifies c`status, c`faults, c`statusConflicts
    ensures c.faults == old(c.faults) + if e.NoError? then 0 else 1
    ensures c.statusConflicts == old(c.statusConflicts) + if e.Conflict? then 1 else 0
    ensures c.status == if e.NoError? then NextStatus(old(c.status), phase, next, activeWakes) else old(c.status)
  {
    if StatusChanged(c.status, phase, next, activeWakes) {
      e := c.UpdateStatus(Status(Some(phase), next, activeWakes));
    } else {
      e := NoError;
    }
  }

  /** The decision of a pass is the continuous specification at its instant, with the expiry
      the pass resolved; so it holds until the requeue as far as the one-second floor allows. */
  lemma PassTracksSpecification(s: Snapshot, spec: SleepScheduleSpec, z: Zone, now: nat, eval: Evaluation, delay: int)
    requires MildJump(z) && Exact(spec, z) && IsEvaluation(spec, z, now, eval)
    requires Requeue.IsDelay(now, eval.next, WakeOutcome(Ensured(s.configMap), spec, now).1.earliest, delay)
    ensures var asleep := DecidesAsleep(s, spec, now, eval.awake);
            var expiry := WakeOutcome(Ensured(s.configMap), spec, now).1.earliest;
            && asleep == Requeue.AsleepAt(spec, z, expiry, now)
            && (delay > SECOND ==> forall t :: now <= t < now + delay ==> Requeue.AsleepAt(spec, z, expiry, t) == asleep)
            && (delay == 0 ==> ((forall t :: now <= t ==> Requeue.AsleepAt(spec, z, expiry, t) == asleep) <==>
                                !Overlooked(spec, z, now)))
            && (forall t :: now <= t < now + delay && Requeue.AsleepAt(spec, z, expiry, t) != asleep ==> now + delay - t < SECOND)
  {
    var expiry := WakeOutcome(Ensured(s.configMap), spec, now).1.earliest;
    ActiveMeansFuture(Read(RawValue(Ensured(s.configMap))), now, WakeBounds(spec).0, WakeBounds(spec).1);
    Requeue.DecisionHoldsUntilRequeue(spec, z, now, eval, expiry, delay);
  }

  lemma ActiveMeansFuture(r: Reading, now: nat, def: int, max: int)
    ensures var ws := Decide(r, now, def, max).1;
            (ws.activeCount > 0 <==> ws.earliest.Some?) && (ws.earliest.Some? ==> now < ws.earliest.value)
  {}

  // ---------- idempotence ----------

  /** The stamped expiry is still in the future when it reads back. */
  ghost predicate StampHolds(e: Effect, now: nat) {
    e.Stamp? ==> now < Truncate(e.expiry) && e.expiry < END
  }

  lemma OneSecondHolds(e: Effect, now: nat)
    requires e.Stamp? ==> now + SECOND <= e.expiry < END
    ensures StampHolds(e, now)
  {}

  ghost function Reread(r: Reading, e: Effect): Reading {
    match e
    case Keep => r
    case Stamp(expiry) => Stamped(expiry)
    case Drop => Absent
  }

  /** A value read again at the same instant is left alone with the same count exactly when
      its stamp holds. */
  lemma RereadIsStable(r: Reading, now: nat, def: int, max: int)
    ensures var (e, ws) := Decide(r, now, def, max);
            var (e', ws') := Decide(Reread(r, e), now, def, max);
            StampHolds(e, now) <==> e' == Keep && ws'.activeCount == ws.activeCount
  {}

  lemma ReadAfterEffect(cm: Option<ConfigMap>, e: Effect)
    requires cm.Some?
    ensures Read(RawValue(WithEffect(cm, e))) == Reread(Read(RawValue(cm)), e)
  {
    if e.Stamp? { StampReadsBack(e.expiry); }
  }

  /** Whether or not it is written, the status ends up reporting the pass: transitions are
      whole seconds, so its text form loses nothing. */
  lemma StatusReportsThePass(cur: Status, phase: Phase, next: Option<int>, wakes: int)
    requires next.Some? ==> Truncate(next.value) == next.value
    ensures NextStatus(cur, phase, next, wakes) == Status(Some(phase), next, wakes)
    ensures !StatusChanged(NextStatus(cur, phase, next, wakes), phase, next, wakes)
  {}

  /** Reconcile is idempotent: after a successful pass, a second one at the same instant with
      the same inputs writes nothing, however often a ref is listed, exactly when a stamped
      expiry survives its truncation to the second and can be written as a timestamp. */
  lemma ReconcileIsIdempotent(s: Snapshot, spec: SleepScheduleSpec, optIn: bool, z: Zone,
                              now: nat, eval: Evaluation, refs: seq<Ref>)
    requires ProperWorld(s.world) && z.Valid() && z.SkipsLessThanADay() && IsEvaluation(spec, z, now, eval)
    requires PassSucceeds(s.world, ConfigOf(spec, optIn), DecidesAsleep(s, spec, now, eval.awake), refs)
    ensures var t := Reconciled(s, spec, optIn, now, eval, refs);
            && ProperWorld(t.world)
            && (WritesNothing(t, spec, optIn, now, eval, refs) <==> StampHolds(WakeOutcome(Ensured(s.configMap), spec, now).0, now))
            && (WritesNothing(t, spec, optIn, now, eval, refs) ==> Reconciled(t, spec, optIn, now, eval, refs) == t)
  {
    var t := Reconciled(s, spec, optIn, now, eval, refs);
    var cfg, asleep := ConfigOf(spec, optIn), DecidesAsleep(s, spec, now, eval.awake);
    var cm := Ensured(s.configMap);
    var (effect, ws) := WakeOutcome(cm, spec, now);
    RereadIsStable(Read(RawValue(cm)), now, WakeBounds(spec).0, WakeBounds(spec).1);
    ReadAfterEffect(cm, effect);
    PassIsIdempotent(s.world, cfg, asleep, refs);
    if eval.next.Some? { Requeue.TransitionsAreWholeSeconds(spec, z, now, eval); }
    StatusReportsThePass(s.status, PhaseOf(eval.awake, ws.activeCount > 0), eval.next, ws.activeCount);
    assert Ensured(t.configMap) == t.configMap;
    if StampHolds(effect, now) {
      assert DecidesAsleep(t, spec, now, eval.awake) == asleep;
      QuietPassIsIdentity(t.world, cfg, asleep, refs);
    }
  }

  /** An override of a millisecond, set on a whole second, is stamped and then removed by the
      very next pass of the same instant. */
  lemma SubSecondOverrideIsNotStable(now: nat)
    requires now % SECOND == 0 && now + SECOND < END
    ensures var (e, ws) := Decide(Entered(Relative(1_000_000)), now, 0, 0);
            e.Stamp? && ws.activeCount == 1 && Decide(Reread(Entered(Relative(1_000_000)), e), now, 0, 0).0 == Drop
  {
    MillisecondIsDropped(now);
  }

  lemma MillisecondIsDropped(now: int)
    requires now % SECOND == 0
    ensures Truncate(now + 1_000_000) == now
  {}
}
