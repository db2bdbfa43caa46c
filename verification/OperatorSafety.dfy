/** A pass of the operator, as the code runs it against the API server, stays within the runs
    of ExactRestore. */
module OperatorSafety {
  import opened Workloads
  import opened Cluster
  import opened Handlers
  import opened ExactRestore
  import opened Controller

  /** However a pass ends, on success, on an error of any call or by a crash in the middle,
      no workload loses the value its owner intended. */
  lemma {:induction false} AnyPassIsSafe(s: System, after: World, cfg: Config, asleep: bool, refs: seq<Ref>, ok: bool)
    requires Inv(s) && PassRan(s.world, after, cfg, asleep, refs, ok)
    ensures Inv(s.(world := after))
    decreases |refs|
  {
    if refs == [] {
      assert s.(world := after) == s;
    } else if !ok && exists steps :: Ran(s.world, after, cfg, asleep, refs[0], false, steps) {
      var steps :| Ran(s.world, after, cfg, asleep, refs[0], false, steps);
      CallPreserves(s, refs[0], asleep, cfg, steps);
      assert s.(world := after) == Next(s, HandlerCall(refs[0], asleep, cfg, steps));
    } else {
      var n := |PlanFor(s.world, cfg, asleep, refs[0]).ops|;
      CallPreserves(s, refs[0], asleep, cfg, n);
      var next := Next(s, HandlerCall(refs[0], asleep, cfg, n));
      AnyPassIsSafe(next, after, cfg, asleep, refs[1..], ok);
      assert next.(world := after) == s.(world := after);
    }
  }

  /** Nor does any Reconcile lose one: what it leaves behind, failing or not, is a pass's doing. */
  lemma AnyReconcileIsSafe(s: System, after: World, cfg: Config, asleep: bool, refs: seq<Ref>)
    requires Inv(s) && LeftByAPass(s.world, after, cfg, asleep, refs)
    ensures Inv(s.(world := after))
  {
    if ok :| PassRan(s.world, after, cfg, asleep, refs, ok) {
      AnyPassIsSafe(s, after, cfg, asleep, refs, ok);
    } else {
      assert s.(world := after) == s;
    }
  }

  /** With dryRun set a pass changes nothing, however it ends. */
  lemma {:induction false} AnyDryRunIsIdentity(w: World, after: World, cfg: Config, asleep: bool, refs: seq<Ref>, ok: bool)
    requires ProperWorld(w) && cfg.dryRun && PassRan(w, after, cfg, asleep, refs, ok)
    ensures after == w
    decreases |refs|
  {
    if refs != [] {
      var ref := refs[0];
      if ref in w.objs { DryRunWritesNothing(ref.kind, cfg, asleep, SlotOf(w, ref)); }
      QuietCallIsIdentity(w, cfg, asleep, ref);
      if !(!ok && exists steps :: Ran(w, after, cfg, asleep, ref, false, steps)) {
        AnyDryRunIsIdentity(w, after, cfg, asleep, refs[1..], ok);
      }
    }
  }

  /** However a pass ends, it leaves every workload it does not list, and its checkpoint, alone. */
  lemma {:induction false} AnyPassIsLocal(w: World, after: World, cfg: Config, asleep: bool, refs: seq<Ref>, ok: bool, other: Ref)
    requires ProperWorld(w) && PassRan(w, after, cfg, asleep, refs, ok) && other in w.objs && other !in refs
    ensures other in after.objs && SlotOf(after, other) == SlotOf(w, other)
    decreases |refs|
  {
    if refs != [] {
      if !ok && exists steps :: Ran(w, after, cfg, asleep, refs[0], false, steps) {
        var steps :| Ran(w, after, cfg, asleep, refs[0], false, steps);
        CallLocal(w, cfg, asleep, refs[0], steps, other);
      } else {
        FullCallSlot(w, cfg, asleep, refs[0], other);
        AnyPassIsLocal(FullCall(w, cfg, asleep, refs[0]), after, cfg, asleep, refs[1..], ok, other);
      }
    }
  }
}
