/** Whole runs of the operator against a changing cluster: handler calls that may stop after
    any write, changing settings, external edits, deletions and recreations. */
module ExactRestore {
  import opened Wrappers
  import opened Checkpoint
  import opened Workloads
  import opened Cluster

  /** `intended` is the last value each workload's owner set while no checkpoint was held;
      `used` lists every incarnation there has ever been. Both are history, not state. */
  datatype System = System(world: World, intended: map<Ref, Field>, used: set<(Ref, string)>)

  datatype Event =
    | HandlerCall(ref: Ref, asleep: bool, cfg: Config, steps: nat)
    | Edit(ref: Ref, field: Field)
    | Annotate(ref: Ref, active: nat, deletesPVCs: bool, optIn: bool)
    | Create(ref: Ref, obj: Obj)
    | Remove(ref: Ref)

  ghost predicate Enabled(s: System, e: Event) {
    ProperWorld(s.world) &&
    match e
    case HandlerCall(ref, asleep, cfg, steps) => steps <= |PlanFor(s.world, cfg, asleep, ref).ops|
    case Edit(ref, field) =>
      ref in s.world.objs && ShapeOf(field) == ShapeOf(s.world.objs[ref].field) && Storable(field)
    case Annotate(ref, _, _, _) => ref in s.world.objs
    case Create(ref, obj) => ref !in s.world.objs && ProperObj(ref, obj) && (ref, obj.uid) !in s.used
    case Remove(ref) => ref in s.world.objs
  }

  ghost function Next(s: System, e: Event): System
    requires Enabled(s, e)
  {
    var w := s.world;
    match e
    case HandlerCall(ref, asleep, cfg, steps) => s.(world := Call(w, cfg, asleep, ref, steps))
    case Edit(ref, field) =>
      var edited := w.(objs := w.objs[ref := w.objs[ref].(field := field)]);
      if SlotOf(w, ref).saved.Some? then s.(world := edited)
      else s.(world := edited, intended := s.intended[ref := Effective(field)])
    case Annotate(ref, active, deletesPVCs, optIn) =>
      s.(world := w.(objs := w.objs[ref := w.objs[ref].(active := active, deletesPVCs := deletesPVCs, optIn := optIn)]))
    case Create(ref, obj) =>
      System(w.(objs := w.objs[ref := obj]), s.intended[ref := Effective(obj.field)], s.used + {(ref, obj.uid)})
    case Remove(ref) => s.(world := w.(objs := w.objs - {ref}), intended := s.intended - {ref})
  }

  /** A run: the states before and after each event. */
  ghost predicate IsRun(ss: seq<System>, es: seq<Event>) {
    && |ss| == |es| + 1
    && forall k :: 0 <= k < |es| ==> Enabled(ss[k], es[k]) && ss[k + 1] == Next(ss[k], es[k])
  }

  /** Every workload is safe, and every checkpoint belongs to an incarnation that once lived. */
  ghost predicate Inv(s: System) {
    && ProperWorld(s.world)
    && (forall ref :: ref in s.world.objs ==>
          && ref in s.intended && (ref, s.world.objs[ref].uid) in s.used
          && Safe(SlotOf(s.world, ref), s.intended[ref]))
    && (forall inc :: inc in s.used ==> PlainRef(inc.0))
    && (forall k :: k in s.world.store ==> IssuedKey(s.used, k))
  }

  ghost predicate IssuedKey(used: set<(Ref, string)>, k: string) {
    exists inc :: inc in used && k == KeyOf(inc.0, inc.1)
  }

  /** An operator that starts with no checkpoints starts safe. */
  lemma FreshStart(objs: map<Ref, Obj>)
    requires ProperWorld(World(objs, map[]))
    ensures Inv(System(World(objs, map[]), map ref | ref in objs :: Effective(objs[ref].field),
                       set ref | ref in objs :: (ref, objs[ref].uid)))
  {}

  /** A UID that has never been used has no checkpoint, even under the same name. */
  lemma UnusedHasNoCheckpoint(s: System, ref: Ref, uid: string)
    requires Inv(s) && PlainRef(ref) && (ref, uid) !in s.used
    ensures KeyOf(ref, uid) !in s.world.store
  {
    if KeyOf(ref, uid) in s.world.store {
      var inc :| inc in s.used && KeyOf(ref, uid) == KeyOf(inc.0, inc.1);
      KeysDiffer(ref, uid, inc.0, inc.1);
      assert false;
    }
  }

  lemma CallPreserves(s: System, ref: Ref, asleep: bool, cfg: Config, steps: nat)
    requires Inv(s) && steps <= |PlanFor(s.world, cfg, asleep, ref).ops|
    ensures Inv(Next(s, HandlerCall(ref, asleep, cfg, steps)))
  {
    var t := Next(s, HandlerCall(ref, asleep, cfg, steps));
    CallKeepsProper(s.world, cfg, asleep, ref, steps);
    forall r | r in t.world.objs
      ensures (r, t.world.objs[r].uid) in t.used && Safe(SlotOf(t.world, r), t.intended[r])
    {
      CallLocal(s.world, cfg, asleep, ref, steps, r);
      assert SlotOf(t.world, r).obj == t.world.objs[r] && SlotOf(s.world, r).obj == s.world.objs[r];
      if r == ref && ShapeOfKind(ref.kind).Some? {
        var slot := SlotOf(s.world, ref);
        CallIsSafe(ref.kind, cfg, asleep, slot, s.intended[ref], steps);
        DoOpsKeepsIdentity(slot, PlanFor(s.world, cfg, asleep, ref).ops[..steps]);
      }
    }
    CallIssuesOwnKey(s, ref, asleep, cfg, steps);
  }

  lemma CallIssuesOwnKey(s: System, ref: Ref, asleep: bool, cfg: Config, steps: nat)
    requires Inv(s) && steps <= |PlanFor(s.world, cfg, asleep, ref).ops|
    ensures forall k :: k in Call(s.world, cfg, asleep, ref, steps).store ==> IssuedKey(s.used, k)
  {
    if ref in s.world.objs {
      var uid := s.world.objs[ref].uid;
      DoOpsKeepsIdentity(SlotOf(s.world, ref), PlanFor(s.world, cfg, asleep, ref).ops[..steps]);
      assert IssuedKey(s.used, KeyOf(ref, uid)) by { assert (ref, uid) in s.used; }
    }
  }

  ghost function Edited(s: Slot, field: Field): Slot { s.(obj := s.obj.(field := field)) }

  lemma EditedSlotIsSafe(s: Slot, intended: Field, field: Field)
    requires Safe(s, intended) && ShapeOf(field) == ShapeOf(s.obj.field)
    ensures Safe(Edited(s, field), if s.saved.Some? then intended else Effective(field))
  {}

  lemma EditPreserves(s: System, ref: Ref, field: Field)
    requires Inv(s) && Enabled(s, Edit(ref, field))
    ensures Inv(Next(s, Edit(ref, field)))
  {
    var t := Next(s, Edit(ref, field));
    assert t.world.store == s.world.store;
    assert ProperWorld(t.world);
    forall r | r in t.world.objs
      ensures r in t.intended && (r, t.world.objs[r].uid) in t.used && Safe(SlotOf(t.world, r), t.intended[r])
    {
      if r == ref {
        EditedSlotIsSafe(SlotOf(s.world, ref), s.intended[ref], field);
        assert SlotOf(t.world, ref) == Edited(SlotOf(s.world, ref), field);
      } else {
        assert SlotOf(t.world, r) == SlotOf(s.world, r);
      }
    }
  }

  lemma AnnotatePreserves(s: System, ref: Ref, active: nat, deletesPVCs: bool, optIn: bool)
    requires Inv(s) && Enabled(s, Annotate(ref, active, deletesPVCs, optIn))
    ensures Inv(Next(s, Annotate(ref, active, deletesPVCs, optIn)))
  {
    var t := Next(s, Annotate(ref, active, deletesPVCs, optIn));
    assert t.world.store == s.world.store && t.world.objs.Keys == s.world.objs.Keys;
    forall r | r in t.world.objs
      ensures ProperObj(r, t.world.objs[r]) && (r, t.world.objs[r].uid) in t.used && Safe(SlotOf(t.world, r), t.intended[r])
    {
      AnnotatedSlotIsSafe(SlotOf(s.world, r), SlotOf(t.world, r), t.intended[r]);
    }
  }

  lemma AnnotatedSlotIsSafe(s: Slot, t: Slot, intended: Field)
    requires Safe(s, intended) && t.saved == s.saved && t.obj.field == s.obj.field
    ensures Safe(t, intended)
  {}

  lemma CreatePreserves(s: System, ref: Ref, obj: Obj)
    requires Inv(s) && Enabled(s, Create(ref, obj))
    ensures Inv(Next(s, Create(ref, obj)))
  {
    var t := Next(s, Create(ref, obj));
    UnusedHasNoCheckpoint(s, ref, obj.uid);
    forall r | r in t.world.objs
      ensures (r, t.world.objs[r].uid) in t.used && Safe(SlotOf(t.world, r), t.intended[r])
    {
      if r != ref { assert SlotOf(t.world, r) == SlotOf(s.world, r); }
    }
    forall k | k in t.world.store ensures IssuedKey(t.used, k) {
      var inc :| inc in s.used && k == KeyOf(inc.0, inc.1);
      assert inc in t.used;
    }
  }

  lemma RemovePreserves(s: System, ref: Ref)
    requires Inv(s) && Enabled(s, Remove(ref))
    ensures Inv(Next(s, Remove(ref)))
  {}

  lemma StepPreserves(s: System, e: Event)
    requires Inv(s) && Enabled(s, e)
    ensures Inv(Next(s, e))
  {
    match e
    case HandlerCall(ref, asleep, cfg, steps) => CallPreserves(s, ref, asleep, cfg, steps);
    case Edit(ref, field) => EditPreserves(s, ref, field);
    case Annotate(ref, active, deletesPVCs, optIn) => AnnotatePreserves(s, ref, active, deletesPVCs, optIn);
    case Create(ref, obj) => CreatePreserves(s, ref, obj);
    case Remove(ref) => RemovePreserves(s, ref);
  }

  /** Exact restore: along every run, a workload without a checkpoint is live as intended and
      a checkpoint decodes to what is intended, wherever calls stopped. */
  lemma {:induction false} ExactRestoreInvariant(ss: seq<System>, es: seq<Event>, j: nat)
    requires IsRun(ss, es) && j < |ss| && Inv(ss[0])
    ensures Inv(ss[j])
  {
    if j > 0 {
      ExactRestoreInvariant(ss, es, j - 1);
      StepPreserves(ss[j - 1], es[j - 1]);
    }
  }

  /** Recovery: after any run, one Restore that completes makes the workload live as intended
      and leaves no checkpoint of it. */
  lemma RecoveryAfterAnyRun(ss: seq<System>, es: seq<Event>, j: nat, ref: Ref, cfg: Config)
    requires IsRun(ss, es) && j < |ss| && Inv(ss[0]) && ref in ss[j].world.objs && !cfg.dryRun
    ensures Inv(ss[j]) && !PlanFor(ss[j].world, cfg, false, ref).fails
    ensures var w := FullCall(ss[j].world, cfg, false, ref);
            && ref in w.objs && SlotOf(w, ref).saved.None?
            && Effective(w.objs[ref].field) == ss[j].intended[ref]
  {
    ExactRestoreInvariant(ss, es, j);
    var w := ss[j].world;
    var n := |PlanFor(w, cfg, false, ref).ops|;
    RestoreRecovers(ref.kind, cfg, SlotOf(w, ref), ss[j].intended[ref]);
    CallLocal(w, cfg, false, ref, n, ref);
    assert PlanFor(w, cfg, false, ref).ops[..n] == PlanFor(w, cfg, false, ref).ops;
  }

  /** In a safe state no handler fails for any workload, so a pass over handled kinds, asleep or
      awake, gets to the end of its list. */
  lemma {:induction false} SafePassSucceeds(s: System, cfg: Config, asleep: bool, refs: seq<Ref>)
    requires Inv(s) && forall ref :: ref in refs ==> ShapeOfKind(ref.kind).Some?
    ensures PassSucceeds(s.world, cfg, asleep, refs)
    decreases |refs|
  {
    if refs != [] {
      var ref := refs[0];
      if ref in s.world.objs { SafeCallsSucceed(ref.kind, cfg, asleep, SlotOf(s.world, ref), s.intended[ref]); }
      var n := |PlanFor(s.world, cfg, asleep, ref).ops|;
      CallPreserves(s, ref, asleep, cfg, n);
      SafePassSucceeds(Next(s, HandlerCall(ref, asleep, cfg, n)), cfg, asleep, refs[1..]);
    }
  }

  /** Recovery of a pass: from a safe state an awake pass gives every listed workload its intended
      field and clears its checkpoint. */
  lemma AwakePassRestores(s: System, cfg: Config, refs: seq<Ref>, ref: Ref)
    requires Inv(s) && !cfg.dryRun && PassSucceeds(s.world, cfg, false, refs) && ref in refs && ref in s.world.objs
    ensures var w := Pass(s.world, cfg, false, refs);
            && ref in w.objs && SlotOf(w, ref).saved.None?
            && Effective(w.objs[ref].field) == s.intended[ref]
  {
    PassIsPointwise(s.world, cfg, false, refs, ref);
    RestoreRecovers(ref.kind, cfg, SlotOf(s.world, ref), s.intended[ref]);
    assert SlotOf(Pass(s.world, cfg, false, refs), ref).obj == Pass(s.world, cfg, false, refs).objs[ref];
  }

  /** So it does after any run. */
  lemma AwakePassRecovers(ss: seq<System>, es: seq<Event>, j: nat, cfg: Config, refs: seq<Ref>)
    requires IsRun(ss, es) && j < |ss| && Inv(ss[0]) && !cfg.dryRun
    requires forall ref :: ref in refs ==> ShapeOfKind(ref.kind).Some?
    ensures Inv(ss[j]) && PassSucceeds(ss[j].world, cfg, false, refs)
    ensures var w := Pass(ss[j].world, cfg, false, refs);
            forall ref :: ref in refs && ref in ss[j].world.objs ==>
              && ref in w.objs && SlotOf(w, ref).saved.None?
              && Effective(w.objs[ref].field) == ss[j].intended[ref]
  {
    ExactRestoreInvariant(ss, es, j);
    SafePassSucceeds(ss[j], cfg, false, refs);
    var w := Pass(ss[j].world, cfg, false, refs);
    forall ref | ref in refs && ref in ss[j].world.objs
      ensures ref in w.objs && SlotOf(w, ref).saved.None? && Effective(w.objs[ref].field) == ss[j].intended[ref]
    {
      AwakePassRestores(ss[j], cfg, refs, ref);
    }
  }

  /** Convergence of a pass: a successful asleep pass puts every listed, unguarded replica
      workload and DaemonSet to sleep, and the other kinds exactly unless a checkpoint stands
      without the sleep it was taken for. */
  lemma AsleepPassConverges(w: World, cfg: Config, refs: seq<Ref>, ref: Ref)
    requires ProperWorld(w) && PassSucceeds(w, cfg, true, refs) && !cfg.dryRun
    requires ref in refs && ref in w.objs && !Guarded(ref.kind, cfg, w.objs[ref])
    ensures var after := Pass(w, cfg, true, refs);
            && ref in after.objs
            && (Asleep(cfg, after.objs[ref]) <==>
                  || w.objs[ref].field.Replicas? || w.objs[ref].field.NodeSelector?
                  || SlotOf(w, ref).saved.None? || Asleep(cfg, w.objs[ref]))
  {
    var slot := SlotOf(w, ref);
    PassIsPointwise(w, cfg, true, refs, ref);
    assert SlotOf(Pass(w, cfg, true, refs), ref).obj == Pass(w, cfg, true, refs).objs[ref];
    if slot.obj.field.Replicas? || slot.obj.field.NodeSelector? {
      SucceededPlan(w, cfg, true, refs, ref);
      SleepConverges(ref.kind, cfg, slot);
    } else {
      SleepOnceConverges(ref.kind, cfg, slot);
    }
  }

  /** A recreated workload has no checkpoint, whatever its predecessor left behind, so
      Restore does not touch it. */
  lemma RecreatedStartsClean(s: System, ref: Ref, obj: Obj, cfg: Config)
    requires Inv(s) && Enabled(s, Create(ref, obj))
    ensures var t := Next(s, Create(ref, obj));
            && ProperWorld(t.world) && t.world.store == s.world.store
            && SlotOf(t.world, ref).saved.None? && PlanFor(t.world, cfg, false, ref) == NOTHING
  {
    CreatePreserves(s, ref, obj);
    UnusedHasNoCheckpoint(s, ref, obj.uid);
  }

  // ---------- data-loss guards over whole runs ----------

  /** The StatefulSet deletes its volumes when scaled, and neither it nor any schedule that
      handles it opts in. */
  ghost predicate NeverOptedIn(ss: seq<System>, es: seq<Event>, ref: Ref) {
    && ref.kind == STATEFUL_SET
    && (forall k :: 0 <= k < |ss| && ref in ss[k].world.objs ==>
          ss[k].world.objs[ref].deletesPVCs && !ss[k].world.objs[ref].optIn)
    && (forall k :: 0 <= k < |es| && es[k].HandlerCall? && es[k].ref == ref ==> !es[k].cfg.optIn)
  }

  /** Such a StatefulSet is never checkpointed. */
  lemma {:induction false} GuardedNeverCheckpointed(ss: seq<System>, es: seq<Event>, ref: Ref, j: nat)
    requires IsRun(ss, es) && Inv(ss[0]) && NeverOptedIn(ss, es, ref) && j < |ss|
    requires ref in ss[0].world.objs ==> SlotOf(ss[0].world, ref).saved.None?
    ensures ref in ss[j].world.objs ==> SlotOf(ss[j].world, ref).saved.None?
  {
    if j > 0 {
      GuardedNeverCheckpointed(ss, es, ref, j - 1);
      ExactRestoreInvariant(ss, es, j - 1);
      GuardedStep(ss[j - 1], es[j - 1], ref);
    }
  }

  lemma GuardedStep(s: System, e: Event, ref: Ref)
    requires Inv(s) && Enabled(s, e) && ref.kind == STATEFUL_SET
    requires ref in s.world.objs ==>
               && s.world.objs[ref].deletesPVCs && !s.world.objs[ref].optIn && SlotOf(s.world, ref).saved.None?
    requires e.HandlerCall? && e.ref == ref ==> !e.cfg.optIn
    ensures ref in Next(s, e).world.objs ==> SlotOf(Next(s, e).world, ref).saved.None?
  {
    match e
    case HandlerCall(r, asleep, cfg, steps) => GuardedCall(s, r, asleep, cfg, steps, ref);
    case Create(r, obj) => UnusedHasNoCheckpoint(s, r, obj.uid);
    case _ =>
  }

  lemma GuardedCall(s: System, r: Ref, asleep: bool, cfg: Config, steps: nat, ref: Ref)
    requires Inv(s) && Enabled(s, HandlerCall(r, asleep, cfg, steps)) && ref.kind == STATEFUL_SET
    requires ref in s.world.objs ==>
               && s.world.objs[ref].deletesPVCs && !s.world.objs[ref].optIn && SlotOf(s.world, ref).saved.None?
    requires r == ref ==> !cfg.optIn
    ensures var w := Call(s.world, cfg, asleep, r, steps); ref in w.objs ==> SlotOf(w, ref).saved.None?
  {
    CallKeepsProper(s.world, cfg, asleep, r, steps);
    if ref in s.world.objs { CallLocal(s.world, cfg, asleep, r, steps, ref); }
  }

  /** And no handler call ever writes its replicas. */
  lemma GuardedNeverScaled(ss: seq<System>, es: seq<Event>, ref: Ref, j: nat)
    requires IsRun(ss, es) && Inv(ss[0]) && NeverOptedIn(ss, es, ref) && j < |es| && es[j].HandlerCall?
    requires ref in ss[0].world.objs ==> SlotOf(ss[0].world, ref).saved.None?
    requires ref in ss[j].world.objs
    ensures ref in ss[j + 1].world.objs && ss[j + 1].world.objs[ref] == ss[j].world.objs[ref]
  {
    GuardedNeverCheckpointed(ss, es, ref, j);
    var s, e := ss[j], es[j];
    CallLocal(s.world, e.cfg, e.asleep, e.ref, e.steps, ref);
    assert SlotOf(ss[j + 1].world, ref).obj == ss[j + 1].world.objs[ref];
  }

  /** Over whole runs, the only event of the operator that suspends a Job with active pods is
      a Restore of a checkpoint that says suspended. */
  lemma OnlyRestoreSuspendsActiveJob(s: System, e: Event, ref: Ref)
    requires Inv(s) && Enabled(s, e) && e.HandlerCall? && ref in s.world.objs && ref.kind == JOB
    requires s.world.objs[ref].active > 0 && s.world.objs[ref].field != Suspend(Some(true))
    ensures ref in Next(s, e).world.objs
    ensures Next(s, e).world.objs[ref].field == Suspend(Some(true)) <==>
            && e.ref == ref && !e.asleep && !e.cfg.dryRun && e.steps > 0
            && SlotOf(s.world, ref).saved.Some? && s.intended[ref] == Suspend(Some(true))
  {
    CallLocal(s.world, e.cfg, e.asleep, e.ref, e.steps, ref);
    assert SlotOf(Next(s, e).world, ref).obj == Next(s, e).world.objs[ref];
    if e.ref == ref {
      SuspendingAnActiveJob(e.cfg, e.asleep, SlotOf(s.world, ref), e.steps);
    }
  }
}
