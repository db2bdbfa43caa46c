/** internal/schedule/evaluator.go: is the schedule awake now, and when does it flip next. */
module Evaluator {
  import opened Wrappers
  import opened Clock
  import opened Zones
  import opened Api
  import opened Schedule
  import opened Transitions
  import opened NoTransition

  method WindowCoversDay(w: Window, wd: int) returns (yes: bool)
    ensures yes == Covers(w, wd)
  {
    for i := 0 to |w.days|
      invariant forall j :: 0 <= j < i ==> WeekdayOf(w.days[j]) != wd
    {
      if WeekdayOf(w.days[i]) == wd { return true; }
    }
    return false;
  }

  method IsAwakeAt(spec: SleepScheduleSpec, z: Zone, t: int) returns (awake: bool)
    ensures awake == AwakeAt(spec, z, t)
  {
    var wall := z.Wall(t);
    var minutes := MinuteOf(wall);
    for i := 0 to |spec.awake|
      invariant forall j, day :: 0 <= j < i ==> !InWindow(spec.awake[j], day, wall)
    {
      var w := spec.awake[i];
      var covers := WindowCoversDay(w, Weekday(DayNo(wall)));
      var from, to := ParseHHMM(w.from), ParseHHMM(w.to);
      forall day ensures InWindow(w, day, wall) <==>
                         && covers && day == DayNo(wall)
                         && from.Some? && to.Some? && from.value <= minutes < to.value
      {
        WindowInMinutes(w, day, wall);
      }
      if covers && from.Some? && to.Some? && from.value <= minutes < to.value {
        assert InWindow(w, DayNo(wall), wall);
        return true;
      }
    }
    return false;
  }

  /** Collects the boundaries of the horizon by day, window and edge, then sorts them. */
  method CandidateBoundaries(spec: SleepScheduleSpec, z: Zone, after: int, limit: int) returns (sorted: array<int>)
    requires z.Valid() && z.SkipsLessThanADay()
    ensures fresh(sorted)
    ensures multiset(sorted[..]) ==
            multiset(ScanEdges(spec, z, z.Date(Edge(DayNo(z.Wall(after)), 0)), after, limit))
    ensures Ascending(sorted[..])
  {
    var day := z.Date(Edge(DayNo(z.Wall(after)), 0));
    ghost var all := ScanEdges(spec, z, day, after, limit);
    var out: seq<int> := [];
    while day <= limit
      invariant out + ScanEdges(spec, z, day, after, limit) == all
      decreases limit - day
    {
      var today := BoundariesOfDay(spec.awake, z, day, after, limit);
      ghost var rest := ScanEdges(spec, z, z.NextDay(day), after, limit);
      assert out + (today + rest) == (out + today) + rest;
      out := out + today;
      NextDayAdvances(z, day);
      day := z.NextDay(day);
    }
    sorted := new int[|out|](i requires 0 <= i < |out| => out[i]);
    assert sorted[..] == out;
    InsertionSort(sorted);
  }

  method BoundariesOfDay(ws: seq<Window>, z: Zone, day: int, after: int, limit: int) returns (out: seq<int>)
    ensures out == DayEdges(ws, z, day, after, limit)
  {
    out := [];
    for i := 0 to |ws|
      invariant out == DayEdges(ws[..i], z, day, after, limit)
    {
      assert ws[..i + 1][..i] == ws[..i];
      var covers := WindowCoversDay(ws[i], Weekday(DayNo(z.Wall(day))));
      if covers {
        out := out + Keep(ws[i].from, z, day, after, limit) + Keep(ws[i].to, z, day, after, limit);
      }
    }
    assert ws[..|ws|] == ws;
  }

  ghost predicate Ascending(s: seq<int>) {
    forall i, j :: 0 <= i < j < |s| ==> s[i] <= s[j]
  }

  method InsertionSort(ts: array<int>)
    modifies ts
    ensures multiset(ts[..]) == old(multiset(ts[..]))
    ensures Ascending(ts[..])
  {
    var i := 1;
    while i < ts.Length
      invariant 1 <= i
      invariant forall p, q :: 0 <= p < q < i && q < ts.Length ==> ts[p] <= ts[q]
      invariant multiset(ts[..]) == old(multiset(ts[..]))
    {
      var j := i;
      while j > 0 && ts[j] < ts[j - 1]
        invariant 0 <= j <= i
        invariant forall p, q :: 0 <= p < q <= i && q != j ==> ts[p] <= ts[q]
        invariant multiset(ts[..]) == old(multiset(ts[..]))
      {
        ts[j], ts[j - 1] := ts[j - 1], ts[j];
        j := j - 1;
      }
      i := i + 1;
    }
  }

  lemma SameMembers(a: seq<int>, b: seq<int>)
    requires multiset(a) == multiset(b)
    ensures forall x :: x in a <==> x in b
  {
    assert forall x :: x in a <==> x in multiset(a);
    assert forall x :: x in b <==> x in multiset(b);
  }

  method FirstFlip(spec: SleepScheduleSpec, z: Zone, bs: seq<int>, awake: bool) returns (next: Option<int>)
    requires Ascending(bs)
    ensures next.None? ==> forall b :: b in bs ==> AwakeAt(spec, z, b) == awake
    ensures next.Some? ==>
              && next.value in bs && AwakeAt(spec, z, next.value) != awake
              && forall b :: b in bs && b < next.value ==> AwakeAt(spec, z, b) == awake
  {
    for i := 0 to |bs|
      invariant forall j :: 0 <= j < i ==> AwakeAt(spec, z, bs[j]) == awake
    {
      var there := IsAwakeAt(spec, z, bs[i]);
      if there != awake { return Some(bs[i]); }
    }
    return None;
  }

  /** Reports the phase at `now` and the first boundary in the horizon that flips it. */
  method Evaluate(spec: SleepScheduleSpec, z: Zone, now: int) returns (r: Evaluation)
    requires z.Valid() && z.SkipsLessThanADay()
    ensures IsEvaluation(spec, z, now, r)
    ensures MildJump(z) && Exact(spec, z) && !Hidden(spec, z) ==> MissesNothing(spec, z, now, r, HORIZON)
    ensures MildJump(z) ==> (r.next.None? <==> !HasOpenings(spec) || Overlooked(spec, z, now))
  {
    var awake := IsAwakeAt(spec, z, now);
    r := Evaluation(awake, PhaseFor(awake), None);
    ghost var all := Boundaries(spec, z, now);
    var sorted := CandidateBoundaries(spec, z, now, now + HORIZON);
    SameMembers(all, sorted[..]);
    var next := FirstFlip(spec, z, sorted[..], awake);
    r := r.(next := next);
    if MildJump(z) {
      NoTransitionExactly(spec, z, now, r);
      if Exact(spec, z) && !Hidden(spec, z) { ExactMissesNothing(spec, z, now, r, HORIZON); }
    }
  }
}
