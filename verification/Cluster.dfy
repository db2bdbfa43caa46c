/** The workloads of a cluster with the checkpoint Secret they share, calls of handlers on
    it, and passes of Sleeper.Apply (internal/workload/apply.go). */
module Cluster {
  import opened Wrappers
  import opened Checkpoint
  import opened Workloads

  datatype Ref = Ref(kind: string, namespace: string, name: string)

  /** `store` is the data of the checkpoint Secret; schedules of the same name share it. */
  datatype World = World(objs: map<Ref, Obj>, store: map<string, string>)

  function KeyOf(ref: Ref, uid: string): string { Key(ref.kind, ref.namespace, ref.name, uid) }

  predicate PlainRef(ref: Ref) { Plain(ref.kind) && Plain(ref.namespace) && Plain(ref.name) }

  ghost predicate ProperObj(ref: Ref, o: Obj) {
    PlainRef(ref) && FieldFits(ref.kind, o) && Storable(o.field)
  }

  /** What the API server's own validation guarantees of the workloads it holds. */
  ghost predicate ProperWorld(w: World) {
    forall ref :: ref in w.objs ==> ProperObj(ref, w.objs[ref])
  }

  lemma KeysDiffer(a: Ref, u: string, b: Ref, v: string)
    requires PlainRef(a) && PlainRef(b) && (a != b || u != v)
    ensures KeyOf(a, u) != KeyOf(b, v)
  {
    if KeyOf(a, u) == KeyOf(b, v) {
      KeyInjective(a.kind, a.namespace, a.name, u, b.kind, b.namespace, b.name, v);
      assert false;
    }
  }

  function SavedAt(store: map<string, string>, key: string): Option<string> {
    if key in store then Some(store[key]) else None
  }

  function SlotOf(w: World, ref: Ref): Slot
    requires ref in w.objs
  {
    Slot(w.objs[ref], SavedAt(w.store, KeyOf(ref, w.objs[ref].uid)))
  }

  /** The world with one workload and its checkpoint entry replaced. */
  function WithSlot(w: World, ref: Ref, s: Slot): World
    requires ref in w.objs
  {
    var key := KeyOf(ref, s.obj.uid);
    World(w.objs[ref := s.obj], if s.saved.Some? then w.store[key := s.saved.value] else w.store - {key})
  }

  /** The plan of one ref: an unsupported kind is an error, a vanished workload a no-op. */
  function PlanFor(w: World, cfg: Config, asleep: bool, ref: Ref): Plan
    requires ref in w.objs ==> FieldFits(ref.kind, w.objs[ref])
  {
    if ShapeOfKind(ref.kind).None? then FAILURE
    else if ref !in w.objs then NOTHING
    else HandlerPlan(ref.kind, cfg, asleep, SlotOf(w, ref))
  }

  /** A call on one ref, stopped after `steps` writes. */
  function Call(w: World, cfg: Config, asleep: bool, ref: Ref, steps: nat): World
    requires ref in w.objs ==> FieldFits(ref.kind, w.objs[ref])
    requires steps <= |PlanFor(w, cfg, asleep, ref).ops|
  {
    if ref !in w.objs then w
    else WithSlot(w, ref, DoOps(SlotOf(w, ref), PlanFor(w, cfg, asleep, ref).ops[..steps]))
  }

  function FullCall(w: World, cfg: Config, asleep: bool, ref: Ref): World
    requires ref in w.objs ==> FieldFits(ref.kind, w.objs[ref])
  {
    Call(w, cfg, asleep, ref, |PlanFor(w, cfg, asleep, ref).ops|)
  }

  // ---------- locality ----------

  lemma {:induction false} DoOpsKeepsIdentity(s: Slot, ops: seq<Op>)
    ensures DoOps(s, ops).obj == s.obj.(field := DoOps(s, ops).obj.field)
    decreases |ops|
  {
    if ops != [] { DoOpsKeepsIdentity(DoOp(s, ops[0]), ops[1..]); }
  }

  /** Replacing one slot leaves every other slot alone. */
  lemma WithSlotLocal(w: World, ref: Ref, s: Slot, other: Ref)
    requires ref in w.objs && s.obj.uid == w.objs[ref].uid && PlainRef(ref)
    requires other in w.objs && PlainRef(other)
    ensures other in WithSlot(w, ref, s).objs
    ensures SlotOf(WithSlot(w, ref, s), other) == if other == ref then s else SlotOf(w, other)
  {
    if other != ref { KeysDiffer(other, w.objs[other].uid, ref, s.obj.uid); }
  }

  /** A stopped call changes the slot of its ref and nothing else. */
  lemma CallLocal(w: World, cfg: Config, asleep: bool, ref: Ref, steps: nat, other: Ref)
    requires ProperWorld(w) && steps <= |PlanFor(w, cfg, asleep, ref).ops| && other in w.objs
    ensures other in Call(w, cfg, asleep, ref, steps).objs
    ensures SlotOf(Call(w, cfg, asleep, ref, steps), other) ==
            if other == ref then DoOps(SlotOf(w, ref), PlanFor(w, cfg, asleep, ref).ops[..steps]) else SlotOf(w, other)
  {
    if ref in w.objs {
      var ops := PlanFor(w, cfg, asleep, ref).ops[..steps];
      DoOpsKeepsIdentity(SlotOf(w, ref), ops);
      WithSlotLocal(w, ref, DoOps(SlotOf(w, ref), ops), other);
    }
  }

  /** Fields written by a plan fit the kind and can be stored. */
  lemma CallKeepsProper(w: World, cfg: Config, asleep: bool, ref: Ref, steps: nat)
    requires ProperWorld(w) && steps <= |PlanFor(w, cfg, asleep, ref).ops|
    ensures ProperWorld(Call(w, cfg, asleep, ref, steps))
    ensures Call(w, cfg, asleep, ref, steps).objs.Keys == w.objs.Keys
  {
    if ref in w.objs && ShapeOfKind(ref.kind).Some? {
      StoppedIsProper(ref.kind, cfg, asleep, SlotOf(w, ref), steps);
    }
  }

  // ---------- passes ----------

  /** Apply: handle the refs in order, stop at the first error. */
  function Pass(w: World, cfg: Config, asleep: bool, refs: seq<Ref>): World
    requires ProperWorld(w)
    decreases |refs|
  {
    if refs == [] || PlanFor(w, cfg, asleep, refs[0]).fails then w
    else
      CallKeepsProper(w, cfg, asleep, refs[0], |PlanFor(w, cfg, asleep, refs[0]).ops|);
      Pass(FullCall(w, cfg, asleep, refs[0]), cfg, asleep, refs[1..])
  }

  predicate PassSucceeds(w: World, cfg: Config, asleep: bool, refs: seq<Ref>)
    requires ProperWorld(w)
    decreases |refs|
  {
    refs == [] ||
    (!PlanFor(w, cfg, asleep, refs[0]).fails &&
     (CallKeepsProper(w, cfg, asleep, refs[0], |PlanFor(w, cfg, asleep, refs[0]).ops|);
      PassSucceeds(FullCall(w, cfg, asleep, refs[0]), cfg, asleep, refs[1..])))
  }

  lemma {:induction false} PassKeepsProper(w: World, cfg: Config, asleep: bool, refs: seq<Ref>)
    requires ProperWorld(w)
    ensures ProperWorld(Pass(w, cfg, asleep, refs)) && Pass(w, cfg, asleep, refs).objs.Keys == w.objs.Keys
    decreases |refs|
  {
    if refs != [] && !PlanFor(w, cfg, asleep, refs[0]).fails {
      CallKeepsProper(w, cfg, asleep, refs[0], |PlanFor(w, cfg, asleep, refs[0]).ops|);
      PassKeepsProper(FullCall(w, cfg, asleep, refs[0]), cfg, asleep, refs[1..]);
    }
  }

  /** The ref has nothing left to write. */
  ghost predicate Quiet(w: World, cfg: Config, asleep: bool, ref: Ref)
    requires ProperWorld(w)
  {
    PlanFor(w, cfg, asleep, ref) == NOTHING
  }

  lemma CallMakesQuiet(w: World, cfg: Config, asleep: bool, ref: Ref)
    requires ProperWorld(w) && !PlanFor(w, cfg, asleep, ref).fails
    ensures ProperWorld(FullCall(w, cfg, asleep, ref)) && Quiet(FullCall(w, cfg, asleep, ref), cfg, asleep, ref)
  {
    var n := |PlanFor(w, cfg, asleep, ref).ops|;
    CallKeepsProper(w, cfg, asleep, ref, n);
    if ref in w.objs {
      CallLocal(w, cfg, asleep, ref, n, ref);
      CallIsIdempotent(ref.kind, cfg, asleep, SlotOf(w, ref));
      assert PlanFor(w, cfg, asleep, ref).ops[..n] == PlanFor(w, cfg, asleep, ref).ops;
    }
  }

  lemma CallKeepsQuiet(w: World, cfg: Config, asleep: bool, ref: Ref, other: Ref)
    requires ProperWorld(w) && Quiet(w, cfg, asleep, other)
    ensures ProperWorld(FullCall(w, cfg, asleep, ref)) && Quiet(FullCall(w, cfg, asleep, ref), cfg, asleep, other)
  {
    var n := |PlanFor(w, cfg, asleep, ref).ops|;
    CallKeepsProper(w, cfg, asleep, ref, n);
    if other in w.objs { CallLocal(w, cfg, asleep, ref, n, other); }
  }

  lemma {:induction false} PassKeepsQuiet(w: World, cfg: Config, asleep: bool, refs: seq<Ref>, other: Ref)
    requires ProperWorld(w) && Quiet(w, cfg, asleep, other)
    ensures ProperWorld(Pass(w, cfg, asleep, refs)) && Quiet(Pass(w, cfg, asleep, refs), cfg, asleep, other)
    decreases |refs|
  {
    if refs != [] && !PlanFor(w, cfg, asleep, refs[0]).fails {
      CallKeepsQuiet(w, cfg, asleep, refs[0], other);
      PassKeepsQuiet(FullCall(w, cfg, asleep, refs[0]), cfg, asleep, refs[1..], other);
    }
  }

  /** After a successful pass no ref of the list, duplicates included, has anything left to write. */
  lemma {:induction false} PassIsIdempotent(w: World, cfg: Config, asleep: bool, refs: seq<Ref>)
    requires ProperWorld(w) && PassSucceeds(w, cfg, asleep, refs)
    ensures ProperWorld(Pass(w, cfg, asleep, refs))
    ensures forall ref :: ref in refs ==> Quiet(Pass(w, cfg, asleep, refs), cfg, asleep, ref)
    decreases |refs|
  {
    if refs != [] {
      var next := FullCall(w, cfg, asleep, refs[0]);
      CallMakesQuiet(w, cfg, asleep, refs[0]);
      PassKeepsQuiet(next, cfg, asleep, refs[1..], refs[0]);
      PassIsIdempotent(next, cfg, asleep, refs[1..]);
      assert forall ref :: ref in refs <==> ref == refs[0] || ref in refs[1..];
    }
  }

  lemma FullCallSlot(w: World, cfg: Config, asleep: bool, ref: Ref, other: Ref)
    requires ProperWorld(w) && !PlanFor(w, cfg, asleep, ref).fails && other in w.objs
    ensures ProperWorld(FullCall(w, cfg, asleep, ref)) && other in FullCall(w, cfg, asleep, ref).objs
    ensures SlotOf(FullCall(w, cfg, asleep, ref), other) ==
            if other == ref then Finished(ref.kind, cfg, asleep, SlotOf(w, ref)) else SlotOf(w, other)
  {
    var n := |PlanFor(w, cfg, asleep, ref).ops|;
    CallKeepsProper(w, cfg, asleep, ref, n);
    CallLocal(w, cfg, asleep, ref, n, other);
    assert PlanFor(w, cfg, asleep, ref).ops[..n] == PlanFor(w, cfg, asleep, ref).ops;
  }

  /** A successful pass is pointwise: each listed workload ends as its own completed call leaves
      it, however often it is listed, and no other workload or checkpoint changes. */
  lemma {:induction false} PassIsPointwise(w: World, cfg: Config, asleep: bool, refs: seq<Ref>, ref: Ref)
    requires ProperWorld(w) && PassSucceeds(w, cfg, asleep, refs) && ref in w.objs
    ensures ref in Pass(w, cfg, asleep, refs).objs
    ensures SlotOf(Pass(w, cfg, asleep, refs), ref) ==
            if ref in refs then Finished(ref.kind, cfg, asleep, SlotOf(w, ref)) else SlotOf(w, ref)
    decreases |refs|
  {
    if refs != [] {
      var next := FullCall(w, cfg, asleep, refs[0]);
      FullCallSlot(w, cfg, asleep, refs[0], ref);
      PassIsPointwise(next, cfg, asleep, refs[1..], ref);
      if ref == refs[0] { CallIsIdempotent(ref.kind, cfg, asleep, SlotOf(w, ref)); }
    }
  }

  /** In a successful pass the plan of each listed ref, made from the state before the pass,
      does not fail. */
  lemma {:induction false} SucceededPlan(w: World, cfg: Config, asleep: bool, refs: seq<Ref>, ref: Ref)
    requires ProperWorld(w) && PassSucceeds(w, cfg, asleep, refs) && ref in refs && ref in w.objs
    ensures !PlanFor(w, cfg, asleep, ref).fails
    decreases |refs|
  {
    if ref != refs[0] {
      FullCallSlot(w, cfg, asleep, refs[0], ref);
      SucceededPlan(FullCall(w, cfg, asleep, refs[0]), cfg, asleep, refs[1..], ref);
    }
  }

  /** A pass over quiet refs succeeds and changes nothing. */
  lemma {:induction false} QuietPassIsIdentity(w: World, cfg: Config, asleep: bool, refs: seq<Ref>)
    requires ProperWorld(w) && forall ref :: ref in refs ==> Quiet(w, cfg, asleep, ref)
    ensures Pass(w, cfg, asleep, refs) == w && PassSucceeds(w, cfg, asleep, refs)
    decreases |refs|
  {
    if refs != [] {
      assert refs[0] in refs;
      QuietCallIsIdentity(w, cfg, asleep, refs[0]);
      QuietPassIsIdentity(w, cfg, asleep, refs[1..]);
    }
  }

  lemma QuietCallIsIdentity(w: World, cfg: Config, asleep: bool, ref: Ref)
    requires ProperWorld(w) && PlanFor(w, cfg, asleep, ref).ops == []
    ensures FullCall(w, cfg, asleep, ref) == w
  {}

  /** Dry run frames everything: no workload and no checkpoint changes, asleep or awake,
      whatever the list holds. */
  lemma {:induction false} DryRunPassIsIdentity(w: World, cfg: Config, asleep: bool, refs: seq<Ref>)
    requires ProperWorld(w) && cfg.dryRun
    ensures Pass(w, cfg, asleep, refs) == w
    decreases |refs|
  {
    if refs != [] && !PlanFor(w, cfg, asleep, refs[0]).fails {
      if refs[0] in w.objs { DryRunWritesNothing(refs[0].kind, cfg, asleep, SlotOf(w, refs[0])); }
      QuietCallIsIdentity(w, cfg, asleep, refs[0]);
      DryRunPassIsIdentity(w, cfg, asleep, refs[1..]);
    }
  }

  // ---------- schedules that share a Secret ----------

  lemma WithSlotsCommute(w: World, a: Ref, s: Slot, b: Ref, t: Slot)
    requires a in w.objs && b in w.objs && a != b && PlainRef(a) && PlainRef(b)
    ensures WithSlot(WithSlot(w, a, s), b, t) == WithSlot(WithSlot(w, b, t), a, s)
  {
    KeysDiffer(a, s.obj.uid, b, t.obj.uid);
    assert w.objs[a := s.obj][b := t.obj] == w.objs[b := t.obj][a := s.obj];
    assert WithSlot(WithSlot(w, a, s), b, t).store == WithSlot(WithSlot(w, b, t), a, s).store;
  }

  /** A call neither sees nor disturbs calls on other workloads, wherever both stop. */
  lemma CallsCommute(w: World, cfgA: Config, asleepA: bool, a: Ref, stepsA: nat, cfgB: Config, asleepB: bool, b: Ref, stepsB: nat)
    requires ProperWorld(w) && a != b
    requires stepsA <= |PlanFor(w, cfgA, asleepA, a).ops| && stepsB <= |PlanFor(w, cfgB, asleepB, b).ops|
    ensures var wa := Call(w, cfgA, asleepA, a, stepsA);
            var wb := Call(w, cfgB, asleepB, b, stepsB);
            && ProperWorld(wa) && ProperWorld(wb)
            && PlanFor(wa, cfgB, asleepB, b) == PlanFor(w, cfgB, asleepB, b)
            && PlanFor(wb, cfgA, asleepA, a) == PlanFor(w, cfgA, asleepA, a)
            && Call(wa, cfgB, asleepB, b, stepsB) == Call(wb, cfgA, asleepA, a, stepsA)
  {
    CallKeepsProper(w, cfgA, asleepA, a, stepsA);
    CallKeepsProper(w, cfgB, asleepB, b, stepsB);
    if b in w.objs { CallLocal(w, cfgA, asleepA, a, stepsA, b); }
    if a in w.objs { CallLocal(w, cfgB, asleepB, b, stepsB, a); }
    if a in w.objs && b in w.objs {
      var s := DoOps(SlotOf(w, a), PlanFor(w, cfgA, asleepA, a).ops[..stepsA]);
      var t := DoOps(SlotOf(w, b), PlanFor(w, cfgB, asleepB, b).ops[..stepsB]);
      WithSlotsCommute(w, a, s, b, t);
    }
  }

  lemma {:induction false} CallPassCommute(w: World, cfgA: Config, asleepA: bool, a: Ref, cfgB: Config, asleepB: bool, bs: seq<Ref>)
    requires ProperWorld(w) && a !in bs && !PlanFor(w, cfgA, asleepA, a).fails
    ensures var wa := FullCall(w, cfgA, asleepA, a);
            var wb := Pass(w, cfgB, asleepB, bs);
            && ProperWorld(wa) && ProperWorld(wb)
            && PlanFor(wb, cfgA, asleepA, a) == PlanFor(w, cfgA, asleepA, a)
            && Pass(wa, cfgB, asleepB, bs) == FullCall(wb, cfgA, asleepA, a)
    decreases |bs|
  {
    var n := |PlanFor(w, cfgA, asleepA, a).ops|;
    CallKeepsProper(w, cfgA, asleepA, a, n);
    PassKeepsProper(w, cfgB, asleepB, bs);
    if bs != [] {
      var b, m := bs[0], |PlanFor(w, cfgB, asleepB, bs[0]).ops|;
      CallsCommute(w, cfgA, asleepA, a, n, cfgB, asleepB, b, m);
      if !PlanFor(w, cfgB, asleepB, b).fails {
        CallPassCommute(FullCall(w, cfgB, asleepB, b), cfgA, asleepA, a, cfgB, asleepB, bs[1..]);
      }
    }
  }

  /** Isolation: passes of two schedules with disjoint targets give the same cluster and the
      same shared Secret in either order. */
  lemma {:induction false} PassesCommute(w: World, cfgA: Config, asleepA: bool, refsA: seq<Ref>,
                                         cfgB: Config, asleepB: bool, refsB: seq<Ref>)
    requires ProperWorld(w) && forall a :: a in refsA ==> a !in refsB
    ensures var wa := Pass(w, cfgA, asleepA, refsA);
            var wb := Pass(w, cfgB, asleepB, refsB);
            && ProperWorld(wa) && ProperWorld(wb)
            && Pass(wa, cfgB, asleepB, refsB) == Pass(wb, cfgA, asleepA, refsA)
    decreases |refsA|
  {
    PassKeepsProper(w, cfgA, asleepA, refsA);
    PassKeepsProper(w, cfgB, asleepB, refsB);
    if refsA != [] {
      var a := refsA[0];
      PassKeepsPlan(w, cfgA, asleepA, a, cfgB, asleepB, refsB);
      if !PlanFor(w, cfgA, asleepA, a).fails {
        CallPassCommute(w, cfgA, asleepA, a, cfgB, asleepB, refsB);
        PassesCommute(FullCall(w, cfgA, asleepA, a), cfgA, asleepA, refsA[1..], cfgB, asleepB, refsB);
      }
    }
  }

  lemma {:induction false} PassKeepsPlan(w: World, cfgA: Config, asleepA: bool, a: Ref, cfgB: Config, asleepB: bool, bs: seq<Ref>)
    requires ProperWorld(w) && a !in bs
    ensures ProperWorld(Pass(w, cfgB, asleepB, bs))
    ensures PlanFor(Pass(w, cfgB, asleepB, bs), cfgA, asleepA, a) == PlanFor(w, cfgA, asleepA, a)
    decreases |bs|
  {
    if bs != [] && !PlanFor(w, cfgB, asleepB, bs[0]).fails {
      var n := |PlanFor(w, cfgB, asleepB, bs[0]).ops|;
      CallKeepsProper(w, cfgB, asleepB, bs[0], n);
      if a in w.objs { CallLocal(w, cfgB, asleepB, bs[0], n, a); }
      PassKeepsPlan(FullCall(w, cfgB, asleepB, bs[0]), cfgA, asleepA, a, cfgB, asleepB, bs[1..]);
    }
  }
}
