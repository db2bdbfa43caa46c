/** internal/workload: the handlers and Apply as they run against the API server. Each is
    proved to do exactly its plan when it succeeds, and a prefix of it when it does not. */
module Handlers {
  import opened Wrappers
  import opened Checkpoint
  import opened Workloads
  import opened Cluster
  import opened FieldDocs
  import opened MergePatch
  import opened ApiServer
  import Store = CheckpointStore

  // ---------- single writes as slot operations ----------

  lemma SlotsCompose(w: World, ref: Ref, s: Slot, t: Slot)
    requires ref in w.objs && s.obj.uid == t.obj.uid
    ensures WithSlot(WithSlot(w, ref, s), ref, t) == WithSlot(w, ref, t)
  {}

  lemma SlotIsHere(w: World, ref: Ref)
    requires ref in w.objs
    ensures WithSlot(w, ref, SlotOf(w, ref)) == w
  {}

  /** SetRaw on the workload's own key. */
  method SaveField(c: Client, ref: Ref, raw: string) returns (ok: bool)
    requires ref in c.objs
    modifies c`secret, c`revision, c`faults, c`conflicts
    ensures c.Later(old(c.faults), old(c.conflicts)) && (!ok ==> c.Disturbed(old(c.faults), old(c.conflicts)))
    ensures c.World() == if ok then WithSlot(old(c.World()), ref, DoOp(SlotOf(old(c.World()), ref), Save(raw)))
                         else old(c.World())
  {
    ghost var w := c.World();
    ok := Store.SetRaw(c, KeyOf(ref, c.objs[ref].uid), raw);
    SlotIsHere(w, ref);
    assert c.objs == c.objs[ref := c.objs[ref]];
  }

  /** Deletes the workload's own key. */
  method ForgetField(c: Client, ref: Ref) returns (ok: bool)
    requires ref in c.objs
    modifies c`secret, c`revision, c`faults, c`conflicts
    ensures c.Later(old(c.faults), old(c.conflicts)) && (!ok ==> c.Disturbed(old(c.faults), old(c.conflicts)))
    ensures c.World() == if ok then WithSlot(old(c.World()), ref, DoOp(SlotOf(old(c.World()), ref), Forget))
                         else old(c.World())
  {
    ok := Store.Delete(c, KeyOf(ref, c.objs[ref].uid));
    assert c.objs == c.objs[ref := c.objs[ref]];
  }

  /** The merge patch from the field as loaded to the wanted one. */
  method PatchField(c: Client, ref: Ref, live: Field, want: Field) returns (ok: bool)
    requires ref in c.objs && c.objs[ref].field == live && ShapeOf(want) == ShapeOf(live)
    modifies c`objs, c`faults
    ensures c.faults == old(c.faults) + if ok then 0 else 1
    ensures c.World() == if ok then WithSlot(old(c.World()), ref, DoOp(SlotOf(old(c.World()), ref), Patch(want)))
                         else old(c.World())
  {
    ghost var w := c.World();
    PatchRoundTrip(live, want);
    ok := c.PatchObj(ref, Diff(DocOf(live), DocOf(want)));
    assert WithSlot(w, ref, SlotOf(w, ref)).store == w.store by { SlotIsHere(w, ref); }
  }

  /** GetRaw of the workload's own key. */
  method LoadSaved(c: Client, ref: Ref, uid: string) returns (ok: bool, raw: Option<string>)
    requires ref in c.objs && c.objs[ref].uid == uid
    modifies c`faults
    ensures c.faults == old(c.faults) + if ok then 0 else 1
    ensures ok ==> raw == SlotOf(c.World(), ref).saved
  {
    ok, raw := Store.GetRaw(c, KeyOf(ref, uid));
  }

  // ---------- stopping after a prefix of the plan ----------

  /** The call wrote the first `steps` operations of its plan, all of them if it succeeded. */
  ghost predicate Ran(before: World, after: World, cfg: Config, asleep: bool, ref: Ref, ok: bool, steps: nat)
    requires ProperWorld(before)
  {
    var plan := PlanFor(before, cfg, asleep, ref);
    && steps <= |plan.ops|
    && after == Call(before, cfg, asleep, ref, steps)
    && (ok ==> steps == |plan.ops| && !plan.fails)
  }

  lemma RanNothing(w: World, cfg: Config, asleep: bool, ref: Ref, ok: bool)
    requires ProperWorld(w) && (ok ==> PlanFor(w, cfg, asleep, ref) == NOTHING)
    ensures Ran(w, w, cfg, asleep, ref, ok, 0)
  {}

  lemma RanFirst(w: World, cfg: Config, asleep: bool, ref: Ref, ok: bool)
    requires ProperWorld(w) && ref in w.objs && PlanFor(w, cfg, asleep, ref).ops != []
    requires ok ==> |PlanFor(w, cfg, asleep, ref).ops| == 1 && !PlanFor(w, cfg, asleep, ref).fails
    ensures Ran(w, WithSlot(w, ref, DoOp(SlotOf(w, ref), PlanFor(w, cfg, asleep, ref).ops[0])), cfg, asleep, ref, ok, 1)
  {
    DoOpsUnfold(SlotOf(w, ref), PlanFor(w, cfg, asleep, ref).ops[..1]);
  }

  lemma RanSecond(w: World, cfg: Config, asleep: bool, ref: Ref, ok: bool)
    requires ProperWorld(w) && ref in w.objs && |PlanFor(w, cfg, asleep, ref).ops| == 2
    requires ok ==> !PlanFor(w, cfg, asleep, ref).fails
    ensures var ops := PlanFor(w, cfg, asleep, ref).ops;
            var first := WithSlot(w, ref, DoOp(SlotOf(w, ref), ops[0]));
            && SlotOf(first, ref) == DoOp(SlotOf(w, ref), ops[0])
            && Ran(w, WithSlot(first, ref, DoOp(SlotOf(first, ref), ops[1])), cfg, asleep, ref, ok, 2)
  {
    var ops := PlanFor(w, cfg, asleep, ref).ops;
    var s := DoOp(SlotOf(w, ref), ops[0]);
    DoOpsUnfold(SlotOf(w, ref), ops[..2]);
    assert ops[..2] == ops;
    SlotsCompose(w, ref, s, DoOp(s, ops[1]));
  }

  // ---------- the writes of a plan ----------

  /** The checkpoint first, then the workload. */
  method SaveThenPatch(c: Client, cfg: Config, ref: Ref, save: bool, live: Field, patch: bool, want: Field)
    returns (ok: bool, ghost steps: nat)
    requires ProperWorld(c.World()) && ref in c.objs && c.objs[ref].field == live && ShapeOf(want) == ShapeOf(live)
    requires PlanFor(c.World(), cfg, true, ref) ==
             Plan((if save then [Save(Encode(live))] else []) + (if patch then [Patch(want)] else []), false)
    modifies c`objs, c`secret, c`revision, c`faults, c`conflicts
    ensures Ran(old(c.World()), c.World(), cfg, true, ref, ok, steps)
    ensures c.Later(old(c.faults), old(c.conflicts))
    ensures !ok ==> c.Disturbed(old(c.faults), old(c.conflicts))
  {
    ghost var w := c.World();
    steps := 0;
    if save {
      ok := SaveField(c, ref, Encode(live));
      if !ok {
        RanNothing(w, cfg, true, ref, false);
        return false, 0;
      }
      steps := 1;
      RanFirst(w, cfg, true, ref, !patch);
    }
    if !patch {
      if !save { RanNothing(w, cfg, true, ref, true); }
      return true, steps;
    }
    if save { RanSecond(w, cfg, true, ref, true); } else { RanFirst(w, cfg, true, ref, true); }
    ok := PatchField(c, ref, live, want);
    if ok {
      steps := steps + 1;
    } else if !save {
      RanNothing(w, cfg, true, ref, false);
    }
  }

  /** The workload first, then the checkpoint. */
  method PatchThenForget(c: Client, cfg: Config, ref: Ref, live: Field, patch: bool, want: Field)
    returns (ok: bool, ghost steps: nat)
    requires ProperWorld(c.World()) && ref in c.objs && c.objs[ref].field == live && ShapeOf(want) == ShapeOf(live)
    requires PlanFor(c.World(), cfg, false, ref) == Plan((if patch then [Patch(want)] else []) + [Forget], false)
    modifies c`objs, c`secret, c`revision, c`faults, c`conflicts
    ensures Ran(old(c.World()), c.World(), cfg, false, ref, ok, steps)
    ensures c.Later(old(c.faults), old(c.conflicts))
    ensures !ok ==> c.Disturbed(old(c.faults), old(c.conflicts))
  {
    ghost var w := c.World();
    steps := 0;
    if patch {
      ok := PatchField(c, ref, live, want);
      if !ok {
        RanNothing(w, cfg, false, ref, false);
        return false, 0;
      }
      steps := 1;
      RanFirst(w, cfg, false, ref, false);
      RanSecond(w, cfg, false, ref, true);
    } else {
      RanFirst(w, cfg, false, ref, true);
    }
    ok := ForgetField(c, ref);
    if ok {
      steps := steps + 1;
    } else if !patch {
      RanNothing(w, cfg, false, ref, false);
    }
  }

  // ---------- replica.go ----------

  /** sleepReplica, behind the PVC guard for StatefulSets. */
  method SleepReplicas(c: Client, cfg: Config, ref: Ref) returns (ok: bool, ghost steps: nat)
    requires ProperWorld(c.World()) && ShapeOfKind(ref.kind) == Some(ReplicaShape)
    modifies c`objs, c`secret, c`revision, c`faults, c`conflicts
    ensures Ran(old(c.World()), c.World(), cfg, true, ref, ok, steps)
    ensures c.Later(old(c.faults), old(c.conflicts))
    ensures !ok ==> c.Disturbed(old(c.faults), old(c.conflicts)) || PlanFor(old(c.World()), cfg, true, ref).fails
  {
    ghost var w := c.World();
    var got, o := c.GetObj(ref);
    if !got {
      RanNothing(w, cfg, true, ref, false);
      return false, 0;
    }
    if o.None? || Guarded(ref.kind, cfg, o.value) {
      RanNothing(w, cfg, true, ref, true);
      return true, 0;
    }
    var loaded := o.value;
    var live := Effective(loaded.field).count.value;
    var read, found := Store.Get(c, KeyOf(ref, loaded.uid));
    if !read {
      RanNothing(w, cfg, true, ref, false);
      return false, 0;
    }
    ok, steps := SaveThenPatch(c, cfg, ref, found.None? && !cfg.dryRun, loaded.field,
                               live != cfg.sleepReplicas && !cfg.dryRun, Replicas(Some(cfg.sleepReplicas)));
  }

  /** restoreReplica. */
  method RestoreReplicas(c: Client, cfg: Config, ref: Ref) returns (ok: bool, ghost steps: nat)
    requires ProperWorld(c.World()) && ShapeOfKind(ref.kind) == Some(ReplicaShape)
    modifies c`objs, c`secret, c`revision, c`faults, c`conflicts
    ensures Ran(old(c.World()), c.World(), cfg, false, ref, ok, steps)
    ensures c.Later(old(c.faults), old(c.conflicts))
    ensures !ok ==> c.Disturbed(old(c.faults), old(c.conflicts)) || PlanFor(old(c.World()), cfg, false, ref).fails
  {
    ghost var w := c.World();
    var got, o := c.GetObj(ref);
    if !got {
      RanNothing(w, cfg, false, ref, false);
      return false, 0;
    }
    if o.None? {
      RanNothing(w, cfg, false, ref, true);
      return true, 0;
    }
    var loaded := o.value;
    var read, orig := Store.Get(c, KeyOf(ref, loaded.uid));
    if !read {
      RanNothing(w, cfg, false, ref, false);
      return false, 0;
    }
    if orig.None? || cfg.dryRun {
      RanNothing(w, cfg, false, ref, true);
      return true, 0;
    }
    ok, steps := PatchThenForget(c, cfg, ref, loaded.field, Effective(loaded.field).count.value != orig.value,
                                 Replicas(Some(orig.value)));
  }

  // ---------- daemonset.go ----------

  /** Keeps the original keys; the sentinel makes the set unsatisfiable. */
  method InjectSentinel(labels: map<string, string>) returns (sel: map<string, string>)
    ensures sel == AsleepSelector(labels)
  {
    sel := map[SENTINEL_KEY := SENTINEL_VALUE];
    var rest := labels.Keys;
    while rest != {}
      invariant rest <= labels.Keys
      invariant sel == map[SENTINEL_KEY := SENTINEL_VALUE] + map k | k in labels.Keys - rest :: labels[k]
      decreases |rest|
    {
      var k :| k in rest;
      sel := sel[k := labels[k]];
      rest := rest - {k};
    }
    assert (map k | k in labels.Keys - {} :: labels[k]) == labels;
  }

  method SleepDaemonSets(c: Client, cfg: Config, ref: Ref) returns (ok: bool, ghost steps: nat)
    requires ProperWorld(c.World()) && ShapeOfKind(ref.kind) == Some(SelectorShape)
    modifies c`objs, c`secret, c`revision, c`faults, c`conflicts
    ensures Ran(old(c.World()), c.World(), cfg, true, ref, ok, steps)
    ensures c.Later(old(c.faults), old(c.conflicts))
    ensures !ok ==> c.Disturbed(old(c.faults), old(c.conflicts)) || PlanFor(old(c.World()), cfg, true, ref).fails
  {
    ghost var w := c.World();
    var got, o := c.GetObj(ref);
    if !got {
      RanNothing(w, cfg, true, ref, false);
      return false, 0;
    }
    if o.None? || SENTINEL_KEY in o.value.field.labels || cfg.dryRun {
      RanNothing(w, cfg, true, ref, true);
      return true, 0;
    }
    var loaded := o.value;
    var read, found := LoadSaved(c, ref, loaded.uid);
    if !read {
      RanNothing(w, cfg, true, ref, false);
      return false, 0;
    }
    var sel := InjectSentinel(loaded.field.labels);
    ok, steps := SaveThenPatch(c, cfg, ref, found.None?, loaded.field, true, NodeSelector(sel));
  }

  // ---------- suspend.go, job.go, cronjob.go, hpa.go ----------

  /** Sleep of CronJobs, Jobs (behind the active-pods guard) and HPAs. */
  method SleepOnceOnly(c: Client, cfg: Config, ref: Ref) returns (ok: bool, ghost steps: nat)
    requires ProperWorld(c.World())
    requires ShapeOfKind(ref.kind) == Some(SuspendShape) || ShapeOfKind(ref.kind) == Some(BoundsShape)
    modifies c`objs, c`secret, c`revision, c`faults, c`conflicts
    ensures Ran(old(c.World()), c.World(), cfg, true, ref, ok, steps)
    ensures c.Later(old(c.faults), old(c.conflicts))
    ensures !ok ==> c.Disturbed(old(c.faults), old(c.conflicts)) || PlanFor(old(c.World()), cfg, true, ref).fails
  {
    ghost var w := c.World();
    var got, o := c.GetObj(ref);
    if !got {
      RanNothing(w, cfg, true, ref, false);
      return false, 0;
    }
    if o.None? || Guarded(ref.kind, cfg, o.value) {
      RanNothing(w, cfg, true, ref, true);
      return true, 0;
    }
    var loaded := o.value;
    var read, found := LoadSaved(c, ref, loaded.uid);
    if !read {
      RanNothing(w, cfg, true, ref, false);
      return false, 0;
    }
    if found.Some? || cfg.dryRun {
      RanNothing(w, cfg, true, ref, true);
      return true, 0;
    }
    ok, steps := SaveThenPatch(c, cfg, ref, true, loaded.field, true, NeutralField(cfg, ShapeOf(loaded.field)));
  }

  /** Restore of DaemonSets, CronJobs, Jobs and HPAs. */
  method RestoreFields(c: Client, cfg: Config, ref: Ref) returns (ok: bool, ghost steps: nat)
    requires ProperWorld(c.World())
    requires ShapeOfKind(ref.kind).Some? && !ShapeOfKind(ref.kind).value.ReplicaShape?
    modifies c`objs, c`secret, c`revision, c`faults, c`conflicts
    ensures Ran(old(c.World()), c.World(), cfg, false, ref, ok, steps)
    ensures c.Later(old(c.faults), old(c.conflicts))
    ensures !ok ==> c.Disturbed(old(c.faults), old(c.conflicts)) || PlanFor(old(c.World()), cfg, false, ref).fails
  {
    ghost var w := c.World();
    var got, o := c.GetObj(ref);
    if !got {
      RanNothing(w, cfg, false, ref, false);
      return false, 0;
    }
    if o.None? {
      RanNothing(w, cfg, false, ref, true);
      return true, 0;
    }
    var loaded := o.value;
    var read, raw := LoadSaved(c, ref, loaded.uid);
    if !read {
      RanNothing(w, cfg, false, ref, false);
      return false, 0;
    }
    if raw.None? {
      RanNothing(w, cfg, false, ref, true);
      return true, 0;
    }
    var orig := Decode(ShapeOf(loaded.field), raw.value);
    if orig.None? {
      RanNothing(w, cfg, false, ref, false);
      return false, 0;
    }
    if cfg.dryRun {
      RanNothing(w, cfg, false, ref, true);
      return true, 0;
    }
    ok, steps := PatchThenForget(c, cfg, ref, loaded.field, true, orig.value);
  }

  // ---------- apply.go ----------

  /** Dispatches one ref to the handler of its kind. */
  method Handle(c: Client, cfg: Config, asleep: bool, ref: Ref) returns (ok: bool, ghost steps: nat)
    requires ProperWorld(c.World())
    modifies c`objs, c`secret, c`revision, c`faults, c`conflicts
    ensures Ran(old(c.World()), c.World(), cfg, asleep, ref, ok, steps)
    ensures c.Later(old(c.faults), old(c.conflicts))
    ensures !ok ==> c.Disturbed(old(c.faults), old(c.conflicts)) || PlanFor(old(c.World()), cfg, asleep, ref).fails
  {
    match ShapeOfKind(ref.kind) {
      case None =>
        RanNothing(c.World(), cfg, asleep, ref, false);
        return false, 0;
      case Some(ReplicaShape) =>
        if asleep { ok, steps := SleepReplicas(c, cfg, ref); } else { ok, steps := RestoreReplicas(c, cfg, ref); }
      case Some(SelectorShape) =>
        if asleep { ok, steps := SleepDaemonSets(c, cfg, ref); } else { ok, steps := RestoreFields(c, cfg, ref); }
      case Some(_) =>
        if asleep { ok, steps := SleepOnceOnly(c, cfg, ref); } else { ok, steps := RestoreFields(c, cfg, ref); }
    }
  }

  /** Where a pass may leave the cluster: at its end when it succeeds, and otherwise inside
      the call that failed, after every earlier call ran completely. */
  ghost predicate PassRan(before: World, after: World, cfg: Config, asleep: bool, refs: seq<Ref>, ok: bool)
    requires ProperWorld(before)
    decreases |refs|
  {
    if refs == [] then after == before && ok
    else
      || (!ok && exists steps :: Ran(before, after, cfg, asleep, refs[0], false, steps))
      || (&& !PlanFor(before, cfg, asleep, refs[0]).fails
          && (CallKeepsProper(before, cfg, asleep, refs[0], |PlanFor(before, cfg, asleep, refs[0]).ops|);
              PassRan(FullCall(before, cfg, asleep, refs[0]), after, cfg, asleep, refs[1..], ok)))
  }

  /** Apply: every ref in order, stopping at the first error. */
  method Apply(c: Client, cfg: Config, asleep: bool, refs: seq<Ref>) returns (ok: bool)
    requires ProperWorld(c.World())
    modifies c`objs, c`secret, c`revision, c`faults, c`conflicts
    ensures ProperWorld(c.World())
    ensures PassRan(old(c.World()), c.World(), cfg, asleep, refs, ok)
    ensures c.Later(old(c.faults), old(c.conflicts))
    ensures !ok ==> c.Disturbed(old(c.faults), old(c.conflicts)) || !PassSucceeds(old(c.World()), cfg, asleep, refs)
  {
    ghost var w := c.World();
    for i := 0 to |refs|
      invariant ProperWorld(c.World())
      invariant forall after, good ::
                  PassRan(c.World(), after, cfg, asleep, refs[i..], good) ==> PassRan(w, after, cfg, asleep, refs, good)
      invariant PassSucceeds(w, cfg, asleep, refs) ==> PassSucceeds(c.World(), cfg, asleep, refs[i..])
      invariant c.Later(old(c.faults), old(c.conflicts))
    {
      ghost var here := c.World();
      ghost var steps;
      assert refs[i..][0] == refs[i] && refs[i..][1..] == refs[i + 1..];
      ok, steps := Handle(c, cfg, asleep, refs[i]);
      CallKeepsProper(here, cfg, asleep, refs[i], steps);
      if !ok {
        assert PassRan(here, c.World(), cfg, asleep, refs[i..], false);
        return false;
      }
    }
    assert PassRan(c.World(), c.World(), cfg, asleep, refs[|refs|..], true);
    return true;
  }

  /** A pass that succeeds is the Pass function. */
  lemma {:induction false} SuccessfulPass(before: World, after: World, cfg: Config, asleep: bool, refs: seq<Ref>)
    requires ProperWorld(before) && PassRan(before, after, cfg, asleep, refs, true)
    ensures after == Pass(before, cfg, asleep, refs) && PassSucceeds(before, cfg, asleep, refs)
    decreases |refs|
  {
    if refs != [] {
      CallKeepsProper(before, cfg, asleep, refs[0], |PlanFor(before, cfg, asleep, refs[0]).ops|);
      SuccessfulPass(FullCall(before, cfg, asleep, refs[0]), after, cfg, asleep, refs[1..]);
    }
  }
}
