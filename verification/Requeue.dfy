/** requeueDelay, and why a controller that only looks at its requeue times follows the
    schedule: the sampled decision tracks the continuous one. */
module Requeue {
  import opened Wrappers
  import opened Clock
  import opened Zones
  import opened Api
  import opened Schedule
  import opened Transitions
  import opened NoTransition
  import opened Wake
  import opened Timestamp

  /** The wait for one event, floored at a second. */
  function Wait(now: int, t: int): (d: int)
    ensures d >= SECOND && d >= t - now && (d == SECOND || d == t - now)
  {
    if t - now < SECOND then SECOND else t - now
  }

  /** The delay is the shortest wait among the events there are, and 0 without any. */
  ghost predicate IsDelay(now: int, next: Option<int>, expiry: Option<int>, d: int) {
    && (d == 0 <==> next.None? && expiry.None?)
    && (next.Some? ==> d <= Wait(now, next.value))
    && (expiry.Some? ==> d <= Wait(now, expiry.value))
    && (d == 0 || (next.Some? && d == Wait(now, next.value)) || (expiry.Some? && d == Wait(now, expiry.value)))
  }

  /** In other words: the shorter of the waits, each at least a second. */
  lemma DelayIsShortest(now: int, next: Option<int>, expiry: Option<int>, d: int)
    ensures var toNext := if next.None? then 0 else if next.value - now < 1_000_000_000 then 1_000_000_000 else next.value - now;
            var toExpiry := if expiry.None? then 0 else if expiry.value - now < 1_000_000_000 then 1_000_000_000 else expiry.value - now;
            IsDelay(now, next, expiry, d) <==>
            d == if next.None? then toExpiry else if expiry.None? || toNext < toExpiry then toNext else toExpiry
  {}

  method Consider(best: int, now: int, t: Option<int>) returns (better: int)
    ensures better == if t.None? then best
                      else if best == 0 || Wait(now, t.value) < best then Wait(now, t.value) else best
  {
    if t.None? { return best; }
    var d := t.value - now;
    if d < SECOND { d := SECOND; }
    if best == 0 || d < best { return d; }
    return best;
  }

  method RequeueDelay(now: int, next: Option<int>, earliest: Option<int>) returns (best: int)
    ensures IsDelay(now, next, earliest, best)
  {
    best := 0;
    best := Consider(best, now, next);
    best := Consider(best, now, earliest);
  }

  /** The continuous specification: asleep outside the windows unless an override lasts. */
  ghost predicate AsleepAt(spec: SleepScheduleSpec, z: Zone, expiry: Option<int>, t: int) {
    !AwakeAt(spec, z, t) && !(expiry.Some? && t < expiry.value)
  }

  /** The decision of the pass at `now` holds until the requeue; without a requeue it holds for ever
      exactly unless all openings in sight are overlooked. Only under the one-second floor can a
      flip come before the requeue, and then it is acted on less than a second late. */
  lemma DecisionHoldsUntilRequeue(spec: SleepScheduleSpec, z: Zone, now: int, r: Evaluation, expiry: Option<int>, d: int)
    requires MildJump(z) && Exact(spec, z)
    requires IsEvaluation(spec, z, now, r) && IsDelay(now, r.next, expiry, d)
    requires expiry.Some? ==> now < expiry.value
    ensures d > SECOND ==> forall t :: now <= t < now + d ==> AsleepAt(spec, z, expiry, t) == AsleepAt(spec, z, expiry, now)
    ensures d == 0 ==>
              ((forall t :: now <= t ==> AsleepAt(spec, z, expiry, t) == AsleepAt(spec, z, expiry, now)) <==>
               !Overlooked(spec, z, now))
    ensures d == 0 || d >= SECOND
    ensures forall t :: now <= t < now + d && AsleepAt(spec, z, expiry, t) != AsleepAt(spec, z, expiry, now) ==>
              now + d - t < SECOND
  {
    NextTransitionExact(spec, z, now, r);
    if d == 0 {
      assert forall t :: AsleepAt(spec, z, expiry, t) == !AwakeAt(spec, z, t);
    } else {
      HoldsUntilAnEvent(spec, z, now, r, expiry, d);
    }
  }

  lemma HoldsUntilAnEvent(spec: SleepScheduleSpec, z: Zone, now: int, r: Evaluation, expiry: Option<int>, d: int)
    requires IsDelay(now, r.next, expiry, d) && d != 0 && r.awake == AwakeAt(spec, z, now)
    requires expiry.Some? ==> now < expiry.value
    requires r.next.Some? ==> now < r.next.value && forall t :: now <= t < r.next.value ==> AwakeAt(spec, z, t) == r.awake
    ensures d >= SECOND
    ensures forall t :: now <= t < now + d && AsleepAt(spec, z, expiry, t) != AsleepAt(spec, z, expiry, now) ==>
              d == SECOND && now + d - t < SECOND
  {}

  /** A schedule is never looked at again exactly when no override is active and it has no
      non-empty window, or the jump skips every opening in sight. */
  lemma NeverRequeued(spec: SleepScheduleSpec, z: Zone, now: int, r: Evaluation, expiry: Option<int>, d: int)
    requires MildJump(z) && IsEvaluation(spec, z, now, r) && IsDelay(now, r.next, expiry, d)
    ensures d == 0 <==> expiry.None? && (!HasOpenings(spec) || Overlooked(spec, z, now))
  {
    NoTransitionExactly(spec, z, now, r);
  }

  /** The decision made at `now` stands up to the requeue after d, or for ever without one, but for
      the last second before the requeue. */
  ghost predicate Tracks(spec: SleepScheduleSpec, z: Zone, now: int, d: int) {
    forall t :: now <= t && (d != 0 ==> t + SECOND <= now + d) ==> AwakeAt(spec, z, t) == AwakeAt(spec, z, now)
  }

  ghost predicate AlwaysTracks(spec: SleepScheduleSpec, z: Zone)
    requires z.Valid() && z.SkipsLessThanADay()
  {
    forall now, r, d :: IsEvaluation(spec, z, now, r) && IsDelay(now, r.next, None, d) ==> Tracks(spec, z, now, d)
  }

  /** Exactly then every decision, at whatever instant, tracks the schedule until the next one. */
  lemma TrackingCondition(spec: SleepScheduleSpec, z: Zone)
    requires MildJump(z) && z.at % SECOND == 0
    ensures AlwaysTracks(spec, z) <==> Exact(spec, z) && forall now :: !Overlooked(spec, z, now)
  {
    if Exact(spec, z) && forall now :: !Overlooked(spec, z, now) {
      forall now, r, d | IsEvaluation(spec, z, now, r) && IsDelay(now, r.next, None, d) ensures Tracks(spec, z, now, d) {
        NextTransitionExact(spec, z, now, r);
      }
    }
    if AlwaysTracks(spec, z) {
      TrackingIsExact(spec, z);
      forall now ensures !Overlooked(spec, z, now) {
        if Overlooked(spec, z, now) { OverlookedDoesNotTrack(spec, z, now); }
      }
    }
  }

  lemma OverlookedDoesNotTrack(spec: SleepScheduleSpec, z: Zone, now: int)
    requires MildJump(z) && Overlooked(spec, z, now)
    ensures !AlwaysTracks(spec, z)
  {
    var r := EvaluationExists(spec, z, now);
    NoTransitionExactly(spec, z, now, r);
    var t := OverlookedFlipsLater(spec, z, now);
    assert IsDelay(now, r.next, None, 0) && !Tracks(spec, z, now, 0);
  }

  lemma TrackingIsExact(spec: SleepScheduleSpec, z: Zone)
    requires MildJump(z) && z.at % SECOND == 0 && AlwaysTracks(spec, z)
    ensures Exact(spec, z)
  {
    if Flips(spec, z, z.at) { TrackedFlipIsAnEdge(spec, z, z.at); }
    forall w, day, m | CoveredEdge(spec, w, day, m) && z.Repeated(Edge(day, m))
      ensures !Flips(spec, z, z.Twin(Edge(day, m)))
    {
      TwinIsNoEdge(spec, z, Edge(day, m));
      WholeSeconds(day, m, z.before);
      WholeSeconds(day, m, z.after);
      if Flips(spec, z, z.Twin(Edge(day, m))) { TrackedFlipIsAnEdge(spec, z, z.Twin(Edge(day, m))); }
    }
  }

  /** A phase change on a whole second that is no edge instant leaves the pass just before it
      without its requeue. */
  lemma TrackedFlipIsAnEdge(spec: SleepScheduleSpec, z: Zone, t: int)
    requires MildJump(z) && AlwaysTracks(spec, z) && Flips(spec, z, t) && t % SECOND == 0
    ensures exists w, day, m :: EdgeInstant(spec, z, w, day, m, t)
  {
    var r := EvaluationExists(spec, z, t - 1);
    var d := if r.next.None? then 0 else Wait(t - 1, r.next.value);
    assert IsDelay(t - 1, r.next, None, d);
    TrackedFlipIsReported(spec, z, t, r, d);
    var w, day, m := BoundaryIsAnEdge(spec, z, t - 1, t);
  }

  lemma TrackedFlipIsReported(spec: SleepScheduleSpec, z: Zone, t: int, r: Evaluation, d: int)
    requires MildJump(z) && Flips(spec, z, t) && t % SECOND == 0 && IsEvaluation(spec, z, t - 1, r)
    requires d == (if r.next.None? then 0 else Wait(t - 1, r.next.value)) && Tracks(spec, z, t - 1, d)
    ensures r.next == Some(t)
  {
    if r.next.Some? {
      var b := r.next.value;
      var w, day, m := BoundaryIsAnEdge(spec, z, t - 1, b);
      TransitionsAreWholeSeconds(spec, z, t - 1, r);
      if t < b { NextWholeSecond(t, b); }
    }
  }

  lemma NextWholeSecond(t: int, b: int)
    requires t % SECOND == 0 && Truncate(b) == b && t < b
    ensures t + SECOND <= b
  {}

  // ---------- whole runs: the passes, what they read, and when they come ----------

  /** The expiry a pass resolves from what it reads. */
  function Resolved(r: Reading, p: Pass): Option<int> {
    if r.Entered? && Resolve(r.e, p.now, p.def, p.max).Ok?
    then Some(Resolve(r.e, p.now, p.def, p.max).value.expiry) else None
  }

  /** The passes of a run without user edits: pass k reads rs[k], evaluates to evals[k] and asks
      to come again after ds[k], and the next pass comes by then. It may come earlier: the
      stamp of the wake ConfigMap alone triggers one. */
  ghost predicate PassRun(spec: SleepScheduleSpec, z: Zone, rs: seq<Reading>, ps: seq<Pass>, evals: seq<Evaluation>, ds: seq<int>)
    requires z.Valid() && z.SkipsLessThanADay()
  {
    && IsReadingRun(rs, ps) && |evals| == |ds| == |ps|
    && (forall k :: 0 <= k < |ps| ==>
          && ps[k].updateOk && ps[k].def == ps[0].def && ps[k].max == ps[0].max
          && IsEvaluation(spec, z, ps[k].now, evals[k]))
    && (forall k :: 0 <= k < |ps| ==> IsDelay(ps[k].now, evals[k].next, Outcome(rs[k], ps[k]).1.earliest, ds[k]))
    && (forall k :: 0 < k < |ps| ==> Follows(ps[k - 1], ps[k], ds[k - 1]))
  }

  /** Pass q comes after p, by p's requeue if there is one. */
  predicate Follows(p: Pass, q: Pass, d: int) { p.now <= q.now && (d != 0 ==> q.now <= p.now + d) }

  /** What a pass decides from its evaluation and its reading. */
  predicate DecidesAsleep(r: Reading, p: Pass, eval: Evaluation) {
    !eval.awake && Outcome(r, p).1.activeCount == 0
  }

  /** What later passes find of a resolved expiry: itself, itself without the fraction of a
      second that stamping drops, or nothing once that has passed. */
  predicate Carries(r: Reading, expiry: int, now: int) {
    || r == Entered(Absolute(expiry))
    || r == Entered(Absolute(Truncate(expiry)))
    || (r == Absent && Truncate(expiry) <= now)
  }

  lemma FirstPassCarries(r: Reading, p: Pass, expiry: int)
    requires p.updateOk && Resolved(r, p) == Some(expiry) && expiry < END
    ensures Carries(AfterReading(r, p), expiry, p.now)
    ensures Outcome(r, p).1 == if p.now < expiry then WakeState(1, Some(expiry)) else INACTIVE
    ensures p.max > 0 ==> expiry <= p.now + p.max
  {}

  lemma LaterPassCarries(r: Reading, p: Pass, expiry: int, now: int)
    requires p.updateOk && Carries(r, expiry, now) && now <= p.now && (p.max > 0 ==> expiry <= p.now + p.max)
    ensures Carries(AfterReading(r, p), expiry, p.now)
    ensures exists x | x in {expiry, Truncate(expiry)} ::
              Outcome(r, p).1 == if p.now < x then WakeState(1, Some(x)) else INACTIVE
  {
    var x := if r == Entered(Absolute(expiry)) then expiry else Truncate(expiry);
    assert Outcome(r, p).1 == if p.now < x then WakeState(1, Some(x)) else INACTIVE;
  }

  lemma {:induction false} RunCarries(spec: SleepScheduleSpec, z: Zone, rs: seq<Reading>, ps: seq<Pass>,
                                      evals: seq<Evaluation>, ds: seq<int>, expiry: int, k: nat)
    requires z.Valid() && z.SkipsLessThanADay() && PassRun(spec, z, rs, ps, evals, ds)
    requires 0 < k < |ps| && Resolved(rs[0], ps[0]) == Some(expiry) && expiry < END
    ensures Carries(rs[k], expiry, ps[k - 1].now) && ps[0].now <= ps[k - 1].now <= ps[k].now
    ensures ps[k].max > 0 ==> expiry <= ps[k].now + ps[k].max
  {
    FirstPassCarries(rs[0], ps[0], expiry);
    assert Follows(ps[k - 1], ps[k], ds[k - 1]);
    if k > 1 {
      RunCarries(spec, z, rs, ps, evals, ds, expiry, k - 1);
      LaterPassCarries(rs[k - 1], ps[k - 1], expiry, ps[k - 2].now);
    }
  }

  /** Without a resolved expiry no pass counts an override active. */
  lemma {:induction false} RunWithoutOverride(spec: SleepScheduleSpec, z: Zone, rs: seq<Reading>, ps: seq<Pass>,
                                              evals: seq<Evaluation>, ds: seq<int>, k: nat)
    requires z.Valid() && z.SkipsLessThanADay() && PassRun(spec, z, rs, ps, evals, ds)
    requires k < |ps| && Resolved(rs[0], ps[0]).None?
    ensures rs[k] == rs[0] && Outcome(rs[k], ps[k]) == (Keep, INACTIVE)
  {
    if k > 0 {
      RunWithoutOverride(spec, z, rs, ps, evals, ds, k - 1);
      assert rs[k] == AfterReading(rs[k - 1], ps[k - 1]);
    }
    UnresolvedIsKept(rs[0], ps[0], ps[k]);
  }

  lemma UnresolvedIsKept(r: Reading, p: Pass, q: Pass)
    requires Resolved(r, p).None? && q.def == p.def && q.max == p.max
    ensures Outcome(r, q) == (Keep, INACTIVE) && AfterReading(r, q) == r
  {}

  /** What pass k counts active: the resolved expiry, or from the second pass on possibly the
      same without its fraction of a second. */
  lemma PassSees(spec: SleepScheduleSpec, z: Zone, rs: seq<Reading>, ps: seq<Pass>,
                 evals: seq<Evaluation>, ds: seq<int>, k: nat) returns (seen: Option<int>)
    requires z.Valid() && z.SkipsLessThanADay() && PassRun(spec, z, rs, ps, evals, ds) && k < |ps|
    requires Resolved(rs[0], ps[0]).Some? ==> Resolved(rs[0], ps[0]).value < END
    ensures var e := Resolved(rs[0], ps[0]);
            seen == e || (e.Some? && seen == Some(Truncate(e.value)))
    ensures Outcome(rs[k], ps[k]).1 ==
            if seen.Some? && ps[k].now < seen.value then WakeState(1, seen) else INACTIVE
  {
    var e := Resolved(rs[0], ps[0]);
    seen := e;
    if e.None? {
      RunWithoutOverride(spec, z, rs, ps, evals, ds, k);
    } else if k == 0 {
      FirstPassCarries(rs[0], ps[0], e.value);
    } else {
      RunCarries(spec, z, rs, ps, evals, ds, e.value, k);
      LaterPassCarries(rs[k], ps[k], e.value, ps[k - 1].now);
      if Outcome(rs[k], ps[k]).1 != (if ps[k].now < e.value then WakeState(1, e) else INACTIVE) {
        seen := Some(Truncate(e.value));
      }
    }
  }

  /** The sampled controller tracks the continuous specification: over a run of passes, whatever
      override the first one resolves (relative, absolute, default or capped), the decision in
      force at every instant is the specified one, or the pass that corrects it is less than a
      second away, or it is the fraction of a second that stamping takes off the override. */
  lemma SampledControllerTracks(spec: SleepScheduleSpec, z: Zone, rs: seq<Reading>, ps: seq<Pass>,
                                evals: seq<Evaluation>, ds: seq<int>, k: nat, t: int)
    requires MildJump(z) && Exact(spec, z) && PassRun(spec, z, rs, ps, evals, ds)
    requires k + 1 < |ps| && ps[k].now <= t < ps[k + 1].now
    requires Resolved(rs[0], ps[0]).Some? ==> Resolved(rs[0], ps[0]).value < END
    requires Overlooked(spec, z, ps[k].now) ==> ds[k] != 0
    ensures var e := Resolved(rs[0], ps[0]);
            || DecidesAsleep(rs[k], ps[k], evals[k]) == AsleepAt(spec, z, e, t)
            || ps[k + 1].now - t < SECOND
            || (e.Some? && Truncate(e.value) <= t < e.value)
  {
    var seen := PassSees(spec, z, rs, ps, evals, ds, k);
    var now, earliest := ps[k].now, Outcome(rs[k], ps[k]).1.earliest;
    DecisionHoldsUntilRequeue(spec, z, now, evals[k], earliest, ds[k]);
    assert Follows(ps[k], ps[k + 1], ds[k]);
    SameDecision(spec, z, seen, now, t);
    SameDecision(spec, z, seen, now, now);
  }

  ghost function StillActive(expiry: Option<int>, now: int): Option<int> {
    if expiry.Some? && now < expiry.value then expiry else None
  }

  /** An override that has ended by `now` makes no difference from then on. */
  lemma SameDecision(spec: SleepScheduleSpec, z: Zone, expiry: Option<int>, now: int, t: int)
    requires now <= t
    ensures AsleepAt(spec, z, StillActive(expiry, now), t) == AsleepAt(spec, z, expiry, t)
  {}

  /** Transitions are whole seconds, so the status keeps them exactly. */
  lemma TransitionsAreWholeSeconds(spec: SleepScheduleSpec, z: Zone, now: int, r: Evaluation)
    requires z.Valid() && z.SkipsLessThanADay() && IsEvaluation(spec, z, now, r) && r.next.Some?
    ensures Truncate(r.next.value) == r.next.value
  {
    var w, day, m := BoundaryIsAnEdge(spec, z, now, r.next.value);
    DateIsWholeSecond(z, day, m);
  }

  lemma DateIsWholeSecond(z: Zone, day: int, m: int)
    requires z.Valid()
    ensures Truncate(z.Date(Edge(day, m))) == z.Date(Edge(day, m))
  {
    DateIsEdgeMinusOffset(z, Edge(day, m));
    WholeSeconds(day, m, z.before);
    WholeSeconds(day, m, z.after);
  }

  lemma DateIsEdgeMinusOffset(z: Zone, wall: int)
    ensures z.Date(wall) == wall - z.before || z.Date(wall) == wall - z.after
  {}

  lemma WholeSeconds(day: int, m: int, offset: int)
    requires offset % SECOND == 0
    ensures Truncate(Edge(day, m) - offset) == Edge(day, m) - offset
  {
    var k := offset / 1_000_000_000;
    assert Edge(day, m) - offset == 1_000_000_000 * (day * 86400 + m * 60 - k);
  }
}
