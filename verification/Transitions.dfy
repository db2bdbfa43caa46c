/** When the boundary scan is exact: which phase changes it reports, and when it finds none. */
module Transitions {
  import opened Wrappers
  import opened Clock
  import opened Zones
  import opened Api
  import opened Schedule

  // ---------- the continuous phase: it changes at edges and nowhere else ----------

  /** The phase changes at t. */
  ghost predicate Flips(spec: SleepScheduleSpec, z: Zone, t: int) {
    AwakeAt(spec, z, t - 1) != AwakeAt(spec, z, t)
  }

  /** Minute m of `day` is an edge of a window that covers the day. */
  ghost predicate CoveredEdge(spec: SleepScheduleSpec, w: Window, day: int, m: int) {
    w in spec.awake && Covers(w, Weekday(day)) && IsEdgeMinute(w, m)
  }

  /** `b` is the instant of an edge of a window on a day the window covers. */
  ghost predicate EdgeInstant(spec: SleepScheduleSpec, z: Zone, w: Window, day: int, m: int, b: int) {
    CoveredEdge(spec, w, day, m) && b == z.Date(Edge(day, m))
  }

  lemma ReadingFlip(spec: SleepScheduleSpec, x: int) returns (w: Window, day: int, m: int)
    requires AwakeReading(spec, x - 1) != AwakeReading(spec, x)
    ensures CoveredEdge(spec, w, day, m) && x == Edge(day, m)
  {
    if AwakeReading(spec, x) {
      w, day :| w in spec.awake && InWindow(w, day, x);
      m := ParseHHMM(w.from).value;
      assert !InWindow(w, day, x - 1);
    } else {
      w, day :| w in spec.awake && InWindow(w, day, x - 1);
      m := ParseHHMM(w.to).value;
      assert !InWindow(w, day, x);
    }
    assert IsEdgeMinute(w, m);
  }

  /** Between two instants of different phase lies a first phase change. */
  lemma {:induction false} FirstChange(spec: SleepScheduleSpec, z: Zone, now: int, t: int) returns (c: int)
    requires now < t && AwakeAt(spec, z, now) != AwakeAt(spec, z, t)
    ensures now < c <= t && Flips(spec, z, c) && AwakeAt(spec, z, c) == AwakeAt(spec, z, t)
    ensures forall u :: now <= u < c ==> AwakeAt(spec, z, u) == AwakeAt(spec, z, now)
    decreases t - now
  {
    if AwakeAt(spec, z, now + 1) != AwakeAt(spec, z, now) {
      c := now + 1;
    } else {
      c := FirstChange(spec, z, now + 1, t);
    }
  }

  lemma {:induction false} FirstReadingChange(spec: SleepScheduleSpec, x: int, y: int) returns (c: int)
    requires x < y && AwakeReading(spec, x) != AwakeReading(spec, y)
    ensures x < c <= y && AwakeReading(spec, c - 1) != AwakeReading(spec, c) == AwakeReading(spec, y)
    ensures forall u :: x <= u < c ==> AwakeReading(spec, u) == AwakeReading(spec, x)
  {
    var utc := Zone(0, 0, 0);
    assert forall u :: AwakeAt(spec, utc, u) == AwakeReading(spec, u);
    c := FirstChange(spec, utc, x, y);
    assert Flips(spec, utc, c);
  }

  /** A window opens awake. */
  lemma OpensAwake(spec: SleepScheduleSpec, v: Window, day: int)
    requires v in spec.awake && NonEmpty(v) && Covers(v, Weekday(day))
    ensures CoveredEdge(spec, v, day, ParseHHMM(v.from).value)
    ensures AwakeReading(spec, Edge(day, ParseHHMM(v.from).value))
  {
    assert InWindow(v, day, Edge(day, ParseHHMM(v.from).value));
  }

  lemma EdgeParts(day: int, m: int)
    requires 0 <= m < 1440
    ensures DayNo(Edge(day, m)) == day && MinuteOf(Edge(day, m)) == m && TimeOfDay(Edge(day, m)) == m * MINUTE
  {}

  /** The last minute of a day is asleep, because windows end by 23:59. */
  lemma LastMinuteAsleep(spec: SleepScheduleSpec, day: int)
    ensures !AwakeReading(spec, Edge(day, 1439))
  {
    EdgeParts(day, 1439);
    forall w, d ensures !InWindow(w, d, Edge(day, 1439)) { WindowInMinutes(w, d, Edge(day, 1439)); }
  }

  lemma SameDay(x: int, day: int, m: int)
    requires 0 <= m < 1440 && x < Edge(day, m) <= Edge(DayNo(x), 1439)
    ensures day == DayNo(x)
  {}

  /** From an awake reading, overlapping windows stay awake up to a closing edge of the same day. */
  lemma ClosingEdge(spec: SleepScheduleSpec, x: int) returns (w: Window, m: int)
    requires AwakeReading(spec, x)
    ensures CoveredEdge(spec, w, DayNo(x), m) && 0 <= m < 1440 && x < Edge(DayNo(x), m)
    ensures !AwakeReading(spec, Edge(DayNo(x), m))
    ensures forall y :: x <= y < Edge(DayNo(x), m) ==> AwakeReading(spec, y)
  {
    LastMinuteAsleep(spec, DayNo(x));
    var v, d :| v in spec.awake && InWindow(v, d, x);
    WindowInMinutes(v, d, x);
    var c := FirstReadingChange(spec, x, Edge(DayNo(x), 1439));
    var day;
    w, day, m := ReadingFlip(spec, c);
    SameDay(x, day, m);
  }

  lemma OnItsDay(spec: SleepScheduleSpec, day: int, m: int)
    requires 0 <= m < 1440
    ensures AwakeReading(spec, Edge(day, m)) <==> exists w :: w in spec.awake && InWindow(w, day, Edge(day, m))
  {
    forall w, d | w in spec.awake && InWindow(w, d, Edge(day, m)) ensures d == day {
      WindowInMinutes(w, d, Edge(day, m));
    }
  }

  /** The pattern repeats every week. */
  lemma Weekly(spec: SleepScheduleSpec, day: int, m: int)
    requires 0 <= m < 1440
    ensures AwakeReading(spec, Edge(day + 7, m)) == AwakeReading(spec, Edge(day, m))
    ensures Weekday(day + 7) == Weekday(day)
  {
    forall w ensures InWindow(w, day + 7, Edge(day + 7, m)) == InWindow(w, day, Edge(day, m)) {
      WindowInMinutes(w, day, Edge(day, m));
      WindowInMinutes(w, day + 7, Edge(day + 7, m));
    }
    OnItsDay(spec, day, m);
    OnItsDay(spec, day + 7, m);
  }

  // ---------- what the scan sees ----------

  /** A jump across which the day loop still stands once on every calendar day. A midnight may be
      skipped, as in Havana or Beirut, by a jump of at most half a day; a repeated one is the
      first repeated reading, or one that Date places before the jump. */
  ghost predicate MildJump(z: Zone) {
    && z.Valid() && -DAY <= z.after - z.before < DAY
    && (forall day :: !z.Clear(Edge(day, 0)) ==>
          if z.before < z.after then z.after - z.before <= 12 * HOUR
          else Edge(day, 0) == z.SpanLow() || Edge(day, 0) <= z.at)
  }

  /** No midnight is skipped or repeated: every calendar day starts exactly once. */
  ghost predicate ClearMidnights(z: Zone) { forall day :: z.Clear(Edge(day, 0)) }

  lemma ClearMidnightsAreMild(z: Zone)
    requires z.Valid() && z.SkipsLessThanADay() && ClearMidnights(z)
    ensures MildJump(z)
  {
    var midnight := Edge(DayNo(z.SpanLow()) + 1, 0);
    DayParts(z.SpanLow());
    assert z.Clear(midnight);
  }

  /** The last calendar day that the skipped or repeated span touches. */
  ghost function JumpDay(z: Zone): int { DayNo(z.SpanHigh() - 1) }

  ghost predicate SkipsMidnight(z: Zone) { z.before < z.after && z.SpanLow() <= Edge(JumpDay(z), 0) }

  /** The time of day at which the day loop stands once a skipped midnight has carried it off. */
  ghost function Carry(z: Zone): int {
    if SkipsMidnight(z) then TimeOfDay(z.Wall(z.Date(Edge(JumpDay(z), 0)))) else 0
  }

  lemma JumpSpan(z: Zone)
    requires MildJump(z) && z.before < z.after
    ensures Edge(JumpDay(z), 0) < z.SpanHigh() <= Edge(JumpDay(z) + 1, 0)
    ensures Edge(JumpDay(z) - 1, 0) < z.SpanLow()
    ensures !SkipsMidnight(z) ==> Edge(JumpDay(z), 0) < z.SpanLow() && Carry(z) == 0
    ensures SkipsMidnight(z) ==>
              && z.after - z.before <= 12 * HOUR
              && Carry(z) == if Edge(JumpDay(z), 0) >= z.at then z.after - z.before else DAY - (z.after - z.before)
  {
    var midnight := Edge(JumpDay(z), 0);
    DayParts(z.SpanHigh() - 1);
    if SkipsMidnight(z) {
      assert !z.Clear(midnight);
      CarryOf(z, JumpDay(z));
    }
  }

  lemma CarryOf(z: Zone, day: int)
    requires 0 < z.after - z.before <= 12 * HOUR && z.SpanLow() <= Edge(day, 0) < z.SpanHigh()
    ensures z.Wall(z.Date(Edge(day, 0))) ==
            if Edge(day, 0) >= z.at then Edge(day, 0) + z.after - z.before else Edge(day, 0) - (z.after - z.before)
    ensures TimeOfDay(z.Wall(z.Date(Edge(day, 0)))) ==
            if Edge(day, 0) >= z.at then z.after - z.before else DAY - (z.after - z.before)
  {
    var g := z.after - z.before;
    TimeOn(day, g);
    TimeOn(day - 1, DAY - g);
  }

  lemma TimeOn(day: int, time: int)
    requires 0 <= time < DAY
    ensures DayNo(Edge(day, 0) + time) == day && TimeOfDay(Edge(day, 0) + time) == time
  {}

  /** The instant at which the day loop that starts on day `first` stands on `day`. */
  ghost function Visit(z: Zone, first: int, day: int): int {
    z.Date(Edge(day, 0) + VisitTime(z, first, day))
  }

  ghost function VisitTime(z: Zone, first: int, day: int): int {
    if first <= JumpDay(z) <= day then Carry(z) else 0
  }

  lemma VisitShows(z: Zone, first: int, day: int)
    requires MildJump(z) && first <= day
    ensures 0 <= VisitTime(z, first, day) < DAY
    ensures z.Wall(Visit(z, first, day)) == Edge(day, 0) + VisitTime(z, first, day)
    ensures DayNo(z.Wall(Visit(z, first, day))) == day
    ensures z.before < z.after ==> z.Clear(Edge(day, 0) + VisitTime(z, first, day))
  {
    if z.before < z.after { JumpSpan(z); }
    TimeOn(day, VisitTime(z, first, day));
  }

  lemma VisitsAscend(z: Zone, first: int, day: int, later: int)
    requires MildJump(z) && first <= day <= later
    ensures Visit(z, first, day) <= Visit(z, first, later)
  {
    VisitShows(z, first, day);
    VisitShows(z, first, later);
    if z.before < z.after {
      JumpSpan(z);
    } else if day < later {
      assert !z.Clear(Edge(day, 0)) ==> z.Clear(Edge(later, 0)) || Edge(later, 0) <= z.at;
    }
  }

  lemma VisitIsMidnight(z: Zone, first: int, day: int)
    requires MildJump(z) && first <= day && VisitTime(z, first, day) == 0 && !(SkipsMidnight(z) && day + 1 == JumpDay(z))
    ensures z.NextDay(Visit(z, first, day)) == Visit(z, first, day + 1)
  {
    VisitShows(z, first, day);
    NextDayKeepsTimeOfDay(z, Visit(z, first, day));
    if z.before < z.after { JumpSpan(z); }
    assert VisitTime(z, first, day + 1) == 0;
  }

  /** The day loop moves on to the next day, at a skipped midnight in two steps. */
  lemma VisitStep(z: Zone, first: int, day: int)
    requires MildJump(z) && first <= day
    ensures || z.NextDay(Visit(z, first, day)) == Visit(z, first, day + 1)
            || (z.NextDay(Visit(z, first, day)) == Start(z, JumpDay(z))
                && z.NextDay(z.NextDay(Visit(z, first, day))) == Visit(z, first, day + 1)
                && DayNo(z.Wall(Start(z, JumpDay(z)))) <= JumpDay(z) && day < JumpDay(z))
  {
    if SkipsMidnight(z) && day + 1 == JumpDay(z) {
      VisitBeforeTheJump(z, first, day);
    } else if VisitTime(z, first, day) == 0 {
      VisitIsMidnight(z, first, day);
    } else {
      VisitIsCarried(z, first, day);
    }
  }

  lemma VisitBeforeTheJump(z: Zone, first: int, day: int)
    requires MildJump(z) && SkipsMidnight(z) && first <= day && day + 1 == JumpDay(z)
    ensures z.NextDay(Visit(z, first, day)) == Start(z, JumpDay(z))
    ensures Start(z, JumpDay(z)) == Visit(z, first, day + 1) || z.NextDay(Start(z, JumpDay(z))) == Visit(z, first, day + 1)
    ensures DayNo(z.Wall(Start(z, JumpDay(z)))) <= JumpDay(z)
  {
    VisitShows(z, first, day);
    NextDayKeepsTimeOfDay(z, Visit(z, first, day));
    assert z.Wall(Visit(z, first, day)) + DAY == Edge(day + 1, 0);
    SkippedMidnightStep(z, first);
  }

  lemma VisitIsCarried(z: Zone, first: int, day: int)
    requires MildJump(z) && first <= day && VisitTime(z, first, day) != 0
    ensures z.NextDay(Visit(z, first, day)) == Visit(z, first, day + 1)
  {
    VisitShows(z, first, day);
    NextDayKeepsTimeOfDay(z, Visit(z, first, day));
    assert Edge(day + 1, 0) == Edge(day, 0) + DAY;
  }

  /** The instant at which the day loop starts, or is sent by AddDate. */
  ghost function Start(z: Zone, day: int): int { z.Date(Edge(day, 0)) }

  /** From where Date places a skipped midnight, the loop is on its day, or gets there next. */
  lemma SkippedMidnightStep(z: Zone, first: int)
    requires MildJump(z) && SkipsMidnight(z) && first <= JumpDay(z)
    ensures Start(z, JumpDay(z)) == Visit(z, first, JumpDay(z)) || z.NextDay(Start(z, JumpDay(z))) == Visit(z, first, JumpDay(z))
    ensures DayNo(z.Wall(Start(z, JumpDay(z)))) <= JumpDay(z)
  {
    var midnight, g := Edge(JumpDay(z), 0), z.after - z.before;
    JumpSpan(z);
    CarryOf(z, JumpDay(z));
    NextDayKeepsTimeOfDay(z, Start(z, JumpDay(z)));
    if midnight >= z.at {
      TimeOn(JumpDay(z), g);
    } else {
      TimeOn(JumpDay(z) - 1, DAY - g);
    }
  }

  lemma StartStep(z: Zone, first: int)
    requires MildJump(z)
    ensures || Start(z, first) == Visit(z, first, first)
            || (z.NextDay(Start(z, first)) == Visit(z, first, first) && first == JumpDay(z)
                && DayNo(z.Wall(Start(z, first))) <= first)
  {
    if SkipsMidnight(z) && first == JumpDay(z) { SkippedMidnightStep(z, first); }
  }

  lemma {:induction false} DayEdgesMember(ws: seq<Window>, z: Zone, day: int, after: int, limit: int, w: Window, m: int)
    requires w in ws && Covers(w, Weekday(DayNo(z.Wall(day)))) && IsEdgeMinute(w, m)
    requires after < z.Date(Edge(DayNo(z.Wall(day)), m)) <= limit
    ensures z.Date(Edge(DayNo(z.Wall(day)), m)) in DayEdges(ws, z, day, after, limit)
  {
    var b := z.Date(Edge(DayNo(z.Wall(day)), m));
    if w == ws[|ws| - 1] {
      assert b in Keep(w.from, z, day, after, limit) || b in Keep(w.to, z, day, after, limit);
      assert b in WindowEdges(w, z, day, after, limit);
    } else {
      DayEdgesMember(ws[..|ws| - 1], z, day, after, limit, w, m);
    }
  }

  lemma ScanContains(spec: SleepScheduleSpec, z: Zone, day: int, after: int, limit: int, b: int)
    requires z.Valid() && z.SkipsLessThanADay() && day <= limit
    requires || b in DayEdges(spec.awake, z, day, after, limit)
             || b in ScanEdges(spec, z, z.NextDay(day), after, limit)
    ensures b in ScanEdges(spec, z, day, after, limit)
  {}

  lemma {:induction false} DayEdgesAreDates(ws: seq<Window>, z: Zone, day: int, after: int, limit: int, b: int)
    returns (w: Window, m: int)
    requires b in DayEdges(ws, z, day, after, limit)
    ensures w in ws && Covers(w, Weekday(DayNo(z.Wall(day)))) && IsEdgeMinute(w, m)
    ensures b == z.Date(Edge(DayNo(z.Wall(day)), m)) && after < b <= limit
  {
    var last := ws[|ws| - 1];
    if b in DayEdges(ws[..|ws| - 1], z, day, after, limit) {
      w, m := DayEdgesAreDates(ws[..|ws| - 1], z, day, after, limit, b);
    } else if b in Keep(last.from, z, day, after, limit) {
      w, m := last, ParseHHMM(last.from).value;
    } else {
      w, m := last, ParseHHMM(last.to).value;
    }
  }

  /** The scan reaches every day of the horizon. */
  lemma {:induction false} ScanReaches(spec: SleepScheduleSpec, z: Zone, first: int, k: int, day: int, after: int, limit: int, b: int)
    requires MildJump(z) && first <= k <= day && Visit(z, first, day) <= limit
    requires b in DayEdges(spec.awake, z, Visit(z, first, day), after, limit)
    ensures b in ScanEdges(spec, z, Visit(z, first, k), after, limit)
    decreases day - k
  {
    VisitsAscend(z, first, k, day);
    if k < day {
      ScanReaches(spec, z, first, k + 1, day, after, limit, b);
      VisitsAscend(z, first, k + 1, day);
      VisitStep(z, first, k);
      ReachedInTwo(spec, z, z.NextDay(Visit(z, first, k)), Visit(z, first, k + 1), after, limit, b);
    }
    ScanContains(spec, z, Visit(z, first, k), after, limit, b);
  }

  lemma ReachedInTwo(spec: SleepScheduleSpec, z: Zone, t: int, u: int, after: int, limit: int, b: int)
    requires z.Valid() && z.SkipsLessThanADay() && (t == u || z.NextDay(t) == u) && u <= limit
    requires b in ScanEdges(spec, z, u, after, limit)
    ensures b in ScanEdges(spec, z, t, after, limit)
  {
    if t != u {
      NextDayAdvances(z, t);
      ScanContains(spec, z, t, after, limit, b);
    }
  }

  /** An edge instant of the horizon is collected if its day is not over yet and the day loop
      gets there in time. */
  lemma EdgeIsCollected(spec: SleepScheduleSpec, z: Zone, now: int, w: Window, day: int, m: int, b: int)
    requires MildJump(z) && EdgeInstant(spec, z, w, day, m, b) && now < b <= now + 8 * DAY
    requires DayNo(z.Wall(now)) <= day && Visit(z, DayNo(z.Wall(now)), day) <= now + 8 * DAY
    ensures b in Boundaries(spec, z, now)
  {
    var first, limit := DayNo(z.Wall(now)), now + HORIZON;
    VisitShows(z, first, day);
    DayEdgesMember(spec.awake, z, Visit(z, first, day), now, limit, w, m);
    ScanReaches(spec, z, first, first, day, now, limit, b);
    VisitsAscend(z, first, first, day);
    StartStep(z, first);
    ReachedInTwo(spec, z, Start(z, first), Visit(z, first, first), now, limit, b);
  }

  /** And everything collected is such an edge instant. */
  lemma {:induction false} ScanIsVisited(spec: SleepScheduleSpec, z: Zone, first: int, k: int, after: int, limit: int, b: int)
    returns (w: Window, day: int, m: int)
    requires MildJump(z) && first <= k && b in ScanEdges(spec, z, Visit(z, first, k), after, limit)
    ensures EdgeInstant(spec, z, w, day, m, b) && after < b <= limit
    ensures day > JumpDay(z) ==> first <= day && Visit(z, first, day) <= limit
    decreases limit - Visit(z, first, k)
  {
    var here := Visit(z, first, k);
    VisitShows(z, first, k);
    NextDayAdvances(z, here);
    if b in DayEdges(spec.awake, z, here, after, limit) {
      day := k;
      w, m := DayEdgesAreDates(spec.awake, z, here, after, limit, b);
    } else {
      VisitStep(z, first, k);
      var next := z.NextDay(here);
      NextDayAdvances(z, next);
      if next != Visit(z, first, k + 1) && b in DayEdges(spec.awake, z, next, after, limit) {
        day := DayNo(z.Wall(next));
        w, m := DayEdgesAreDates(spec.awake, z, next, after, limit, b);
      } else {
        w, day, m := ScanIsVisited(spec, z, first, k + 1, after, limit, b);
      }
    }
  }

  lemma BoundaryIsVisited(spec: SleepScheduleSpec, z: Zone, now: int, b: int) returns (w: Window, day: int, m: int)
    requires MildJump(z) && b in Boundaries(spec, z, now)
    ensures EdgeInstant(spec, z, w, day, m, b) && now < b <= now + 8 * DAY
    ensures day > JumpDay(z) ==>
              DayNo(z.Wall(now)) <= day && Visit(z, DayNo(z.Wall(now)), day) <= now + 8 * DAY
  {
    var first, limit := DayNo(z.Wall(now)), now + HORIZON;
    StartStep(z, first);
    var start := Start(z, first);
    if start != Visit(z, first, first) && b in DayEdges(spec.awake, z, start, now, limit) {
      day := DayNo(z.Wall(start));
      w, m := DayEdgesAreDates(spec.awake, z, start, now, limit, b);
    } else {
      w, day, m := ScanIsVisited(spec, z, first, first, now, limit, b);
    }
  }

  lemma {:induction false} ScanEdgesAreDates(spec: SleepScheduleSpec, z: Zone, from: int, after: int, limit: int, b: int)
    returns (w: Window, day: int, m: int)
    requires z.Valid() && z.SkipsLessThanADay() && b in ScanEdges(spec, z, from, after, limit)
    ensures EdgeInstant(spec, z, w, day, m, b) && after < b <= limit
    decreases limit - from
  {
    NextDayAdvances(z, from);
    if b in DayEdges(spec.awake, z, from, after, limit) {
      day := DayNo(z.Wall(from));
      w, m := DayEdgesAreDates(spec.awake, z, from, after, limit, b);
    } else {
      w, day, m := ScanEdgesAreDates(spec, z, z.NextDay(from), after, limit, b);
    }
  }

  /** Every collected boundary is an edge instant of the horizon. */
  lemma BoundaryIsAnEdge(spec: SleepScheduleSpec, z: Zone, now: int, b: int) returns (w: Window, day: int, m: int)
    requires z.Valid() && z.SkipsLessThanADay() && b in Boundaries(spec, z, now)
    ensures EdgeInstant(spec, z, w, day, m, b) && now < b <= now + HORIZON
  {
    w, day, m := ScanEdgesAreDates(spec, z, Start(z, DayNo(z.Wall(now))), now, now + HORIZON, b);
  }

  // ---------- when the first flipping boundary is the next transition ----------

  /** The outcome passes over no phase change of the next `span`. */
  ghost predicate MissesNothing(spec: SleepScheduleSpec, z: Zone, now: int, r: Evaluation, span: int) {
    forall t :: now <= t <= now + span && (r.next.Some? ==> t < r.next.value) ==> AwakeAt(spec, z, t) == r.awake
  }

  ghost predicate NeverMisses(spec: SleepScheduleSpec, z: Zone, span: int)
    requires z.Valid() && z.SkipsLessThanADay()
  {
    forall now, r :: IsEvaluation(spec, z, now, r) ==> MissesNothing(spec, z, now, r, span)
  }

  /** The two places where a phase change can escape the scan: the jump itself, where an
      opening or closing edge may have been skipped or gone back over, and the second
      instant of a repeated edge. */
  ghost predicate Exact(spec: SleepScheduleSpec, z: Zone) {
    && (Flips(spec, z, z.at) ==> exists w, day, m :: EdgeInstant(spec, z, w, day, m, z.at))
    && (forall w, day, m :: CoveredEdge(spec, w, day, m) && z.Repeated(Edge(day, m)) ==>
          !Flips(spec, z, z.Twin(Edge(day, m))))
  }

  /** Under that condition every phase change is an edge instant. */
  lemma FlipIsAnEdge(spec: SleepScheduleSpec, z: Zone, c: int) returns (w: Window, day: int, m: int)
    requires Exact(spec, z) && Flips(spec, z, c)
    ensures EdgeInstant(spec, z, w, day, m, c) && (c == z.at || z.Wall(c) == Edge(day, m))
  {
    if c == z.at {
      w, day, m :| EdgeInstant(spec, z, w, day, m, c);
    } else {
      assert z.Wall(c - 1) == z.Wall(c) - 1;
      w, day, m := ReadingFlip(spec, z.Wall(c));
      ShownBy(z, Edge(day, m), c);
      assert z.Repeated(Edge(day, m)) ==> c != z.Twin(Edge(day, m));
    }
  }

  /** The phase changes at c for the first time after now. */
  ghost predicate NextChange(spec: SleepScheduleSpec, z: Zone, now: int, c: int) {
    now < c && Flips(spec, z, c) && forall u :: now <= u < c ==> AwakeAt(spec, z, u) == AwakeAt(spec, z, now)
  }

  /** Where the first phase change is collected, or lies beyond the span, nothing is missed. */
  lemma CollectedMissesNothing(spec: SleepScheduleSpec, z: Zone, now: int, r: Evaluation, span: int)
    requires z.Valid() && z.SkipsLessThanADay() && IsEvaluation(spec, z, now, r)
    requires forall c :: NextChange(spec, z, now, c) && c <= now + span ==> c in Boundaries(spec, z, now)
    ensures MissesNothing(spec, z, now, r, span)
  {
    forall t | now <= t <= now + span && (r.next.Some? ==> t < r.next.value)
      ensures AwakeAt(spec, z, t) == r.awake
    {
      if AwakeAt(spec, z, t) != r.awake {
        var c := FirstChange(spec, z, now, t);
        assert NextChange(spec, z, now, c);
        assert false;
      }
    }
  }

  /** A phase change that is no edge instant escapes the evaluation just before it. */
  lemma FlipOffTheEdgesIsMissed(spec: SleepScheduleSpec, z: Zone, t: int, span: int) returns (r: Evaluation)
    requires z.Valid() && z.SkipsLessThanADay() && Flips(spec, z, t) && 0 < span
    ensures IsEvaluation(spec, z, t - 1, r)
    ensures MissesNothing(spec, z, t - 1, r, span) ==> exists w, day, m :: EdgeInstant(spec, z, w, day, m, t)
  {
    r := EvaluationExists(spec, z, t - 1);
    if MissesNothing(spec, z, t - 1, r, span) {
      var b := r.next.value;
      var w, day, m := BoundaryIsAnEdge(spec, z, t - 1, b);
      assert EdgeInstant(spec, z, w, day, m, t);
    }
  }

  lemma {:induction false} FirstOther(spec: SleepScheduleSpec, z: Zone, bs: seq<int>, awake: bool) returns (next: Option<int>)
    ensures next.None? ==> forall b :: b in bs ==> AwakeAt(spec, z, b) == awake
    ensures next.Some? ==>
              && next.value in bs && AwakeAt(spec, z, next.value) != awake
              && forall b :: b in bs && b < next.value ==> AwakeAt(spec, z, b) == awake
  {
    if bs == [] {
      next := None;
    } else {
      next := FirstOther(spec, z, bs[1..], awake);
      if AwakeAt(spec, z, bs[0]) != awake && (next.None? || bs[0] < next.value) { next := Some(bs[0]); }
    }
  }

  lemma EvaluationExists(spec: SleepScheduleSpec, z: Zone, now: int) returns (r: Evaluation)
    requires z.Valid() && z.SkipsLessThanADay()
    ensures IsEvaluation(spec, z, now, r)
  {
    var awake := AwakeAt(spec, z, now);
    var next := FirstOther(spec, z, Boundaries(spec, z, now), awake);
    r := Evaluation(awake, PhaseFor(awake), next);
  }

  /** IsEvaluation leaves no choice: the outcome is a function of the inputs. */
  lemma EvaluationUnique(spec: SleepScheduleSpec, z: Zone, now: int, r: Evaluation, s: Evaluation)
    requires z.Valid() && z.SkipsLessThanADay()
    requires IsEvaluation(spec, z, now, r) && IsEvaluation(spec, z, now, s)
    ensures r == s
  {}

  lemma NeverMissesIsExact(spec: SleepScheduleSpec, z: Zone, span: int)
    requires z.Valid() && z.SkipsLessThanADay() && NeverMisses(spec, z, span) && 0 < span
    ensures Exact(spec, z)
  {
    if Flips(spec, z, z.at) {
      var r := FlipOffTheEdgesIsMissed(spec, z, z.at, span);
    }
    forall w, day, m | CoveredEdge(spec, w, day, m) && z.Repeated(Edge(day, m))
      ensures !Flips(spec, z, z.Twin(Edge(day, m)))
    {
      TwinIsNoEdge(spec, z, Edge(day, m));
      if Flips(spec, z, z.Twin(Edge(day, m))) {
        var r := FlipOffTheEdgesIsMissed(spec, z, z.Twin(Edge(day, m)), span);
      }
    }
  }

  lemma TwinIsNoEdge(spec: SleepScheduleSpec, z: Zone, wall: int)
    requires z.Repeated(wall)
    ensures !exists w, day, m :: EdgeInstant(spec, z, w, day, m, z.Twin(wall))
  {
    forall w, day, m ensures !EdgeInstant(spec, z, w, day, m, z.Twin(wall)) {
      ShownBy(z, wall, z.Twin(wall));
      ShownBy(z, Edge(day, m), z.Date(Edge(day, m)));
    }
  }

  /** The jump leads to an edge, or leaves from one where the offset is not negative. */
  ghost predicate JumpMeetsAnEdge(spec: SleepScheduleSpec, z: Zone) {
    exists w, day, m :: CoveredEdge(spec, w, day, m) && PlacedThere(z, Edge(day, m))
  }

  ghost predicate PlacedThere(z: Zone, wall: int) {
    wall == z.at + z.after || (wall == z.at + z.before && 0 <= z.before)
  }

  lemma MeetingIsAnEdgeInstant(spec: SleepScheduleSpec, z: Zone)
    requires z.before <= z.after
    ensures JumpMeetsAnEdge(spec, z) <==> exists w, day, m :: EdgeInstant(spec, z, w, day, m, z.at)
  {
    if w, day, m :| CoveredEdge(spec, w, day, m) && PlacedThere(z, Edge(day, m)) {
      PlacedAtTheJump(z, Edge(day, m));
      assert EdgeInstant(spec, z, w, day, m, z.at);
    }
    if w, day, m :| EdgeInstant(spec, z, w, day, m, z.at) {
      PlacedAtTheJump(z, Edge(day, m));
      assert CoveredEdge(spec, w, day, m) && PlacedThere(z, Edge(day, m));
    }
  }

  /** The clock put forward: the jump must leave the phase as it was, or meet an edge. */
  lemma ForwardExact(spec: SleepScheduleSpec, z: Zone)
    requires z.before <= z.after
    ensures Exact(spec, z) <==>
            AwakeReading(spec, z.at + z.before - 1) == AwakeReading(spec, z.at + z.after) || JumpMeetsAnEdge(spec, z)
  {
    MeetingIsAnEdgeInstant(spec, z);
    assert z.Wall(z.at - 1) == z.at + z.before - 1 && z.Wall(z.at) == z.at + z.after;
    assert forall wall :: !z.Repeated(wall);
  }

  /** The phase is the same at every repeated reading, save perhaps at the very first of them where
      the offset is negative. */
  ghost predicate SteadyOverTheRepeated(spec: SleepScheduleSpec, z: Zone) {
    forall wall :: z.Repeated(wall) && (wall == z.at + z.after ==> 0 <= z.after) ==>
      AwakeReading(spec, wall - 1) == AwakeReading(spec, wall)
  }

  /** The clock put back: the phase must be steady. */
  lemma BackwardExact(spec: SleepScheduleSpec, z: Zone)
    requires z.after < z.before
    ensures Exact(spec, z) <==> SteadyOverTheRepeated(spec, z)
  {
    if Exact(spec, z) {
      forall wall | z.Repeated(wall) && (wall == z.at + z.after ==> 0 <= z.after)
        ensures AwakeReading(spec, wall - 1) == AwakeReading(spec, wall)
      {
        ExactMeansSteady(spec, z, wall);
      }
    }
    if SteadyOverTheRepeated(spec, z) { SteadyMeansExact(spec, z); }
  }

  lemma TwinFlips(spec: SleepScheduleSpec, z: Zone, wall: int)
    requires z.Repeated(wall) && (wall == z.at + z.after ==> 0 <= z.after)
    ensures Flips(spec, z, z.Twin(wall)) <==> AwakeReading(spec, wall - 1) != AwakeReading(spec, wall)
  {
    assert z.Wall(z.Twin(wall) - 1) == wall - 1 && z.Wall(z.Twin(wall)) == wall;
  }

  lemma ExactMeansSteady(spec: SleepScheduleSpec, z: Zone, wall: int)
    requires z.Repeated(wall) && (wall == z.at + z.after ==> 0 <= z.after)
    requires forall w, day, m :: CoveredEdge(spec, w, day, m) && wall == Edge(day, m) ==> !Flips(spec, z, z.Twin(wall))
    ensures AwakeReading(spec, wall - 1) == AwakeReading(spec, wall)
  {
    if AwakeReading(spec, wall - 1) != AwakeReading(spec, wall) {
      var w, day, m := ReadingFlip(spec, wall);
      TwinFlips(spec, z, wall);
      assert false;
    }
  }

  lemma SteadyMeansExact(spec: SleepScheduleSpec, z: Zone)
    requires z.after < z.before && SteadyOverTheRepeated(spec, z)
    ensures Exact(spec, z)
  {
    if Flips(spec, z, z.at) {
      var c := FirstReadingChange(spec, z.at + z.after, z.at + z.before - 1);
      assert z.Repeated(c);
      assert false;
    }
    forall w, day, m | CoveredEdge(spec, w, day, m) && z.Repeated(Edge(day, m))
      ensures !Flips(spec, z, z.Twin(Edge(day, m)))
    {
      if z.Twin(Edge(day, m)) != z.at { TwinFlips(spec, z, Edge(day, m)); }
    }
  }

  /** No midnight and no window edge lies in the zone's skipped or repeated span. */
  ghost predicate Regular(spec: SleepScheduleSpec, z: Zone) {
    && ClearMidnights(z)
    && (forall w, day, m :: CoveredEdge(spec, w, day, m) ==> z.Clear(Edge(day, m)))
  }

  /** A phase change at the jump has an edge among the readings jumped over. */
  lemma EdgeInTheSpan(spec: SleepScheduleSpec, z: Zone) returns (w: Window, day: int, m: int)
    requires Flips(spec, z, z.at)
    ensures CoveredEdge(spec, w, day, m)
    ensures if z.before <= z.after then z.SpanLow() <= Edge(day, m) <= z.SpanHigh()
            else z.SpanLow() < Edge(day, m) < z.SpanHigh()
  {
    assert z.Wall(z.at - 1) == z.at + z.before - 1 && z.Wall(z.at) == z.at + z.after;
    var c;
    if z.before <= z.after {
      c := FirstReadingChange(spec, z.at + z.before - 1, z.at + z.after);
    } else {
      c := FirstReadingChange(spec, z.at + z.after, z.at + z.before - 1);
    }
    w, day, m := ReadingFlip(spec, c);
  }

  /** A jump between the edges disturbs nothing. */
  lemma RegularIsExact(spec: SleepScheduleSpec, z: Zone)
    requires Regular(spec, z)
    ensures Exact(spec, z)
  {
    if Flips(spec, z, z.at) {
      var w, day, m := EdgeInTheSpan(spec, z);
      PlacedAtTheJump(z, Edge(day, m));
      assert EdgeInstant(spec, z, w, day, m, z.at);
    }
  }

  /** With a constant offset there is no skipped or repeated span to avoid. */
  lemma ConstantOffsetIsRegular(spec: SleepScheduleSpec, z: Zone)
    requires z.before == z.after
    ensures Regular(spec, z) && z.SkipsLessThanADay()
  {}
}
