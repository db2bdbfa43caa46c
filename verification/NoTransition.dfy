/** When Evaluate reports no transition, and when it misses one that lies beyond the days scanned. */
module NoTransition {
  import opened Clock
  import opened Zones
  import opened Api
  import opened Schedule
  import opened Transitions

  /** Some window is not empty: the schedule is awake every week, but for the jump. */
  ghost predicate HasOpenings(spec: SleepScheduleSpec) { exists v :: v in spec.awake && NonEmpty(v) }

  /** A window of one weekday whose opening on day d is skipped: last week's span is over by `now`,
      and next week's opening, or the visit of its day, lies beyond the horizon. */
  ghost predicate SkippedOn(z: Zone, now: int, v: Window, d: int)
    requires NonEmpty(v)
  {
    var from, to, dayAhead := ParseHHMM(v.from).value, ParseHHMM(v.to).value, z.Wall(now) + DAY + z.after - z.before;
    && (forall wd :: Covers(v, wd) ==> wd == Weekday(d))
    && z.SpanLow() <= Edge(d, from) < z.SpanHigh()
    && Edge(d - 7, to) <= z.Wall(now)
    && (dayAhead < Edge(d, from) || dayAhead < Edge(d, 0) + Carry(z))
  }

  ghost predicate IsSkipped(z: Zone, now: int, v: Window) {
    NonEmpty(v) && exists d :: SkippedOn(z, now, v, d)
  }

  /** The day has a reading in the skipped span. */
  ghost predicate Touched(z: Zone, d: int) { DayNo(z.SpanLow()) <= d <= JumpDay(z) }

  /** The clock jumps over every opening that the scan could report, and no edge of the days it
      jumps on is placed at an awake instant. */
  ghost predicate Overlooked(spec: SleepScheduleSpec, z: Zone, now: int) {
    && HasOpenings(spec) && z.before < z.after
    && (forall v :: v in spec.awake && NonEmpty(v) ==> IsSkipped(z, now, v))
    && (forall w, d, m :: Touched(z, d) && CoveredEdge(spec, w, d, m) ==> !AwakeAt(spec, z, z.Date(Edge(d, m))))
  }

  // ---------- within reach ----------

  /** Today's readings and those of the next seven days are visited within the horizon. */
  lemma VisitedInTime(z: Zone, now: int, day: int)
    requires MildJump(z) && DayNo(z.Wall(now)) <= day <= DayNo(z.Wall(now)) + 7
    ensures Visit(z, DayNo(z.Wall(now)), day) <= now + HORIZON
  {
    VisitShows(z, DayNo(z.Wall(now)), day);
    DayParts(z.Wall(now));
  }

  /** A covered edge that shows itself ahead of now, at most seven days ahead, is collected. */
  lemma ShownEdgeIsCollected(spec: SleepScheduleSpec, z: Zone, now: int, w: Window, day: int, m: int)
    requires MildJump(z) && CoveredEdge(spec, w, day, m)
    requires DayNo(z.Wall(now)) <= day && Visit(z, DayNo(z.Wall(now)), day) <= now + HORIZON
    requires var b := z.Date(Edge(day, m)); now < b <= now + HORIZON && z.Wall(b) == Edge(day, m)
    ensures var b := z.Date(Edge(day, m));
            b in Boundaries(spec, z, now) && AwakeAt(spec, z, b) == AwakeReading(spec, Edge(day, m))
  {
    EdgeIsCollected(spec, z, now, w, day, m, z.Date(Edge(day, m)));
  }

  // ---------- awake now: a closing is collected ----------

  /** From an awake instant a closing edge is collected. */
  lemma ClosingIsCollected(spec: SleepScheduleSpec, z: Zone, now: int) returns (b: int)
    requires MildJump(z) && AwakeAt(spec, z, now)
    ensures b in Boundaries(spec, z, now) && !AwakeAt(spec, z, b)
  {
    var day := DayNo(z.Wall(now));
    var w, m := ClosingEdge(spec, z.Wall(now));
    EdgeParts(day, m);
    LaterToday(z, now, Edge(day, m));
    assert Edge(day + 7, m) == Edge(day, m) + 7 * DAY;
    b := ClosingOfTheDay(spec, z, now, w, day, m);
  }

  lemma ClosingOfTheDay(spec: SleepScheduleSpec, z: Zone, now: int, w: Window, day: int, m: int) returns (b: int)
    requires MildJump(z) && CoveredEdge(spec, w, day, m) && !AwakeReading(spec, Edge(day, m))
    requires day == DayNo(z.Wall(now))
    requires var b, c := z.Date(Edge(day, m)), z.Date(Edge(day + 7, m));
             if z.Wall(b) == Edge(day, m) && now < b then b <= now + HORIZON
             else z.Wall(c) == Edge(day + 7, m) && now < c <= now + HORIZON
    ensures b in Boundaries(spec, z, now) && !AwakeAt(spec, z, b)
  {
    b := z.Date(Edge(day, m));
    VisitedInTime(z, now, day);
    VisitedInTime(z, now, day + 7);
    if z.Wall(b) == Edge(day, m) && now < b {
      ShownEdgeIsCollected(spec, z, now, w, day, m);
    } else {
      Weekly(spec, day, m);
      b := z.Date(Edge(day + 7, m));
      assert CoveredEdge(spec, w, day + 7, m);
      ShownEdgeIsCollected(spec, z, now, w, day + 7, m);
    }
  }

  /** A later reading of today is reached within the horizon today or a week from now. */
  lemma LaterToday(z: Zone, now: int, wall: int)
    requires MildJump(z) && z.Wall(now) < wall && DayNo(wall) == DayNo(z.Wall(now))
    ensures var b, c := z.Date(wall), z.Date(wall + 7 * DAY);
            if z.Wall(b) == wall && now < b then b <= now + HORIZON
            else z.Wall(c) == wall + 7 * DAY && now < c <= now + HORIZON
  {
    DayParts(wall);
    DayParts(z.Wall(now));
  }

  // ---------- asleep now: an opening is collected, unless it is skipped ----------

  /** A covered opening that shows itself within the horizon is collected. */
  lemma OpeningIsCollected(spec: SleepScheduleSpec, z: Zone, now: int, v: Window, day: int) returns (b: int)
    requires MildJump(z) && v in spec.awake && NonEmpty(v) && Covers(v, Weekday(day))
    requires DayNo(z.Wall(now)) <= day && Visit(z, DayNo(z.Wall(now)), day) <= now + HORIZON
    requires var o := Edge(day, ParseHHMM(v.from).value);
             z.Wall(z.Date(o)) == o && now < z.Date(o) <= now + HORIZON
    ensures b in Boundaries(spec, z, now) && AwakeAt(spec, z, b)
  {
    OpensAwake(spec, v, day);
    b := z.Date(Edge(day, ParseHHMM(v.from).value));
    ShownEdgeIsCollected(spec, z, now, v, day, ParseHHMM(v.from).value);
  }

  lemma SameWeekday(day: int)
    ensures Weekday(day - 7) == Weekday(day) == Weekday(day + 7)
  {}

  /** The first day after `today` with the given weekday. */
  function NextWeekday(today: int, wd: int): (day: int)
    requires 0 <= wd < 7
    ensures today < day <= today + 7 && Weekday(day) == wd
  {
    today + 1 + (wd - Weekday(today + 1)) % 7
  }

  /** An opening of the window ahead of a reading, at most a week away. */
  lemma NextOpening(v: Window, x: int) returns (day: int)
    requires NonEmpty(v)
    ensures DayNo(x) <= day <= DayNo(x) + 7 && Covers(v, Weekday(day))
    ensures x < Edge(day, ParseHHMM(v.from).value) <= x + 7 * DAY
  {
    var m, today := ParseHHMM(v.from).value, DayNo(x);
    assert v.days[0] in v.days && Covers(v, WeekdayOf(v.days[0]));
    day := if Covers(v, Weekday(today)) && x < Edge(today, m) then today
           else NextWeekday(today, WeekdayOf(v.days[0]));
    SameWeekday(today);
    DayParts(x);
    WithinAWeek(x, today, day, m);
  }

  lemma WithinAWeek(x: int, today: int, day: int, m: int)
    requires Edge(today, 0) <= x < Edge(today + 1, 0) && 0 <= m < 1440
    requires today <= day <= today + 7 && (day == today ==> x < Edge(today, m)) && (day == today + 7 ==> Edge(today, m) <= x)
    ensures x < Edge(day, m) <= x + 7 * DAY
  {}

  /** From an asleep instant an opening of the window is collected, unless it is skipped. */
  lemma OpeningAhead(spec: SleepScheduleSpec, z: Zone, now: int, v: Window) returns (b: int)
    requires MildJump(z) && !AwakeAt(spec, z, now)
    requires v in spec.awake && NonEmpty(v) && !(z.before < z.after && IsSkipped(z, now, v))
    ensures b in Boundaries(spec, z, now) && AwakeAt(spec, z, b)
  {
    var x, from := z.Wall(now), ParseHHMM(v.from).value;
    var day := NextOpening(v, x);
    var o := Edge(day, from);
    if z.Clear(o) {
      VisitedInTime(z, now, day);
      ClearWithinHorizon(z, now, o);
      b := OpeningIsCollected(spec, z, now, v, day);
    } else if z.before < z.after {
      b := AnotherOpening(spec, z, now, v, day);
    } else {
      b := RepeatedOpening(spec, z, now, v, day);
    }
  }

  /** A clear reading up to a week ahead is reached within the horizon. */
  lemma ClearWithinHorizon(z: Zone, now: int, wall: int)
    requires -DAY <= z.after - z.before < DAY && z.Clear(wall) && z.Wall(now) < wall <= z.Wall(now) + 7 * DAY
    ensures z.Wall(z.Date(wall)) == wall && now < z.Date(wall) <= now + HORIZON
  {}

  /** An opening that is repeated is collected today or a week from now. */
  lemma RepeatedOpening(spec: SleepScheduleSpec, z: Zone, now: int, v: Window, day: int) returns (b: int)
    requires MildJump(z) && z.after <= z.before
    requires v in spec.awake && NonEmpty(v) && Covers(v, Weekday(day))
    requires DayNo(z.Wall(now)) <= day <= DayNo(z.Wall(now)) + 7
    requires var o := Edge(day, ParseHHMM(v.from).value); !z.Clear(o) && z.Wall(now) < o <= z.Wall(now) + 7 * DAY
    ensures b in Boundaries(spec, z, now) && AwakeAt(spec, z, b)
  {
    var from := ParseHHMM(v.from).value;
    RepeatedReached(z, now, day, from);
    if now < z.Date(Edge(day, from)) {
      VisitedInTime(z, now, day);
      b := OpeningIsCollected(spec, z, now, v, day);
    } else {
      SameWeekday(day);
      b := OpeningIsCollected(spec, z, now, v, day + 7);
    }
  }

  lemma RepeatedReached(z: Zone, now: int, day: int, m: int)
    requires MildJump(z) && z.after <= z.before && 0 <= m < 1440 && !z.Clear(Edge(day, m))
    requires z.Wall(now) < Edge(day, m) <= z.Wall(now) + 7 * DAY && DayNo(z.Wall(now)) <= day
    ensures var b, c := z.Date(Edge(day, m)), z.Date(Edge(day + 7, m));
            && z.Wall(b) == Edge(day, m) && z.Wall(c) == Edge(day + 7, m)
            && if now < b then b <= now + HORIZON
               else now < c <= now + HORIZON && Visit(z, DayNo(z.Wall(now)), day + 7) <= now + HORIZON
  {
    VisitShows(z, DayNo(z.Wall(now)), day + 7);
  }

  /** When the opening ahead is skipped, another one is collected, before it or after it. */
  lemma AnotherOpening(spec: SleepScheduleSpec, z: Zone, now: int, v: Window, day: int) returns (b: int)
    requires MildJump(z) && !AwakeAt(spec, z, now) && v in spec.awake && NonEmpty(v)
    requires z.before < z.after && !IsSkipped(z, now, v)
    requires Covers(v, Weekday(day)) && DayNo(z.Wall(now)) <= day <= DayNo(z.Wall(now)) + 7
    requires var o := Edge(day, ParseHHMM(v.from).value); !z.Clear(o) && z.Wall(now) < o <= z.Wall(now) + 7 * DAY
    ensures b in Boundaries(spec, z, now) && AwakeAt(spec, z, b)
  {
    var from := ParseHHMM(v.from).value;
    var other;
    if wd :| Covers(v, wd) && wd != Weekday(day) {
      other := OtherWeekday(z, now, day, wd, from);
      VisitedInTime(z, now, other);
    } else {
      assert !InWindow(v, day - 7, z.Wall(now)) by { SameWeekday(day); }
      assert !SkippedOn(z, now, v, day);
      SameWeekday(day);
      other := day + 7;
      AWeekLater(z, now, day, from);
      OffTheJumpDay(z, now, day, other, from);
    }
    b := OpeningIsCollected(spec, z, now, v, other);
  }

  lemma DayOf(x: int, day: int, m: int)
    requires 0 <= m < 1440
    ensures x < Edge(day, m) ==> DayNo(x) <= day
    ensures Edge(day, m) <= x ==> day <= DayNo(x)
  {}

  lemma OtherWeekday(z: Zone, now: int, day: int, wd: int, m: int) returns (other: int)
    requires z.before < z.after < z.before + DAY && 0 <= m < 1440 && 0 <= wd < 7 && wd != Weekday(day)
    requires z.SpanLow() <= Edge(day, m) < z.SpanHigh() && z.Wall(now) < Edge(day, m) <= z.Wall(now) + 7 * DAY
    requires DayNo(z.Wall(now)) <= day <= DayNo(z.Wall(now)) + 7
    ensures Weekday(other) == wd && DayNo(z.Wall(now)) <= other <= DayNo(z.Wall(now)) + 7
    ensures z.Wall(z.Date(Edge(other, m))) == Edge(other, m) && now < z.Date(Edge(other, m)) <= now + HORIZON
  {
    other := OtherDay(day, wd);
    DayOf(z.Wall(now), other - 7, m);
    if z.Wall(now) < Edge(other - 7, m) { other := other - 7; }
    OffTheJumpDay(z, now, day, other, m);
  }

  lemma OtherDay(day: int, wd: int) returns (other: int)
    requires 0 <= wd < 7 && wd != Weekday(day)
    ensures day < other < day + 7 && Weekday(other) == Weekday(other - 7) == wd
  {
    other := NextWeekday(day, wd);
  }

  lemma OffTheJumpDay(z: Zone, now: int, day: int, other: int, m: int)
    requires z.before < z.after < z.before + DAY && 0 <= m < 1440 && z.SpanLow() <= Edge(day, m) < z.SpanHigh()
    requires other < day || day < other
    requires z.Wall(now) < Edge(day, m)
    requires z.Wall(now) < Edge(other, m) <= z.Wall(now) + 8 * DAY + if day < other then z.after - z.before else 0
    ensures z.Wall(z.Date(Edge(other, m))) == Edge(other, m) && now < z.Date(Edge(other, m)) <= now + HORIZON
  {}

  lemma AWeekLater(z: Zone, now: int, day: int, m: int)
    requires MildJump(z) && z.before < z.after && 0 <= m < 1440 && DayNo(z.Wall(now)) <= day
    requires z.SpanLow() <= Edge(day, m) < z.SpanHigh() && z.Wall(now) < Edge(day, m)
    requires Edge(day, 0) + Carry(z) <= z.Wall(now) + DAY + z.after - z.before
    ensures Visit(z, DayNo(z.Wall(now)), day + 7) <= now + HORIZON
  {
    JumpSpan(z);
    VisitShows(z, DayNo(z.Wall(now)), day + 7);
  }

  // ---------- what is overlooked is not seen ----------

  /** A skipped window is open on its day d, and again from the opening a week later. */
  lemma SkippedWindowIsOpen(z: Zone, now: int, v: Window, d: int, day: int, wall: int)
    requires NonEmpty(v) && SkippedOn(z, now, v, d) && InWindow(v, day, wall) && z.Wall(now) <= wall
    ensures day == d || day >= d + 7
    ensures Edge(day, ParseHHMM(v.from).value) <= wall
  {
    assert day > d - 7;
    assert Weekday(day) == Weekday(d);
  }

  lemma SkippedDayIsTouched(z: Zone, now: int, v: Window, d: int)
    requires MildJump(z) && z.before < z.after && NonEmpty(v) && SkippedOn(z, now, v, d)
    ensures Touched(z, d) && JumpDay(z) - 1 <= d <= JumpDay(z)
    ensures now < z.at && DayNo(z.Wall(now)) <= d
    ensures !SkipsMidnight(z) ==> d == JumpDay(z)
  {
    JumpSpan(z);
    DayParts(z.SpanLow());
    DayParts(z.Wall(now));
  }

  /** Off the days it jumps on, every reading of the horizon is asleep while its day is visited. */
  lemma AwakeOffTheJump(spec: SleepScheduleSpec, z: Zone, now: int, day: int, m: int) returns (d: int)
    requires MildJump(z) && Overlooked(spec, z, now) && 0 <= m < 1440 && !Touched(z, day)
    requires z.Wall(now) <= Edge(day, m) && AwakeReading(spec, Edge(day, m))
    ensures JumpDay(z) - 1 <= d && d + 7 <= day && now < z.at && DayNo(z.Wall(now)) <= d
    ensures z.Wall(now) + HORIZON + z.after - z.before < Edge(day, m) ||
            z.Wall(now) + HORIZON + z.after - z.before < Edge(d + 7, 0) + Carry(z)
  {
    var v, e :| v in spec.awake && InWindow(v, e, Edge(day, m));
    WindowInMinutes(v, e, Edge(day, m));
    EdgeParts(day, m);
    assert NonEmpty(v) by { assert v.days != []; }
    assert IsSkipped(z, now, v);
    d :| SkippedOn(z, now, v, d);
    SkippedDayIsTouched(z, now, v, d);
    SkippedWindowIsOpen(z, now, v, d, day, Edge(day, m));
  }

  lemma OverlookedBeforeTheJump(spec: SleepScheduleSpec, z: Zone, now: int)
    requires MildJump(z) && Overlooked(spec, z, now)
    ensures now < z.at && !AwakeAt(spec, z, now)
  {
    var u :| u in spec.awake && NonEmpty(u);
    assert IsSkipped(z, now, u);
    var e :| SkippedOn(z, now, u, e);
    SkippedDayIsTouched(z, now, u, e);
    if v, day :| v in spec.awake && InWindow(v, day, z.Wall(now)) {
      WindowInMinutes(v, day, z.Wall(now));
      assert NonEmpty(v) by { assert v.days != []; }
      assert IsSkipped(z, now, v);
      var d :| SkippedOn(z, now, v, d);
      SkippedDayIsTouched(z, now, v, d);
      SkippedWindowIsOpen(z, now, v, d, day, z.Wall(now));
      assert false;
    }
  }

  /** What is overlooked is not seen. */
  lemma OverlookedSeesNothing(spec: SleepScheduleSpec, z: Zone, now: int, b: int)
    requires MildJump(z) && Overlooked(spec, z, now) && b in Boundaries(spec, z, now)
    ensures !AwakeAt(spec, z, b)
  {
    OverlookedBeforeTheJump(spec, z, now);
    var w, day, m := BoundaryIsVisited(spec, z, now, b);
    if !Touched(z, day) {
      OffTheJumpShown(z, now, day, m);
      if AwakeReading(spec, Edge(day, m)) {
        var d := AwakeOffTheJump(spec, z, now, day, m);
        NotVisited(z, now, d, day, m);
        assert false;
      }
    }
  }

  lemma OffTheJumpShown(z: Zone, now: int, day: int, m: int)
    requires MildJump(z) && z.before < z.after && now < z.at && 0 <= m < 1440 && !Touched(z, day)
    requires now < z.Date(Edge(day, m))
    ensures z.Wall(z.Date(Edge(day, m))) == Edge(day, m) && z.Wall(now) <= Edge(day, m)
  {
    DayParts(z.SpanLow());
    JumpSpan(z);
  }

  lemma NotVisited(z: Zone, now: int, d: int, day: int, m: int)
    requires MildJump(z) && z.before < z.after && now < z.at && 0 <= m < 1440
    requires JumpDay(z) - 1 <= d && d + 7 <= day && DayNo(z.Wall(now)) <= d
    requires z.Wall(now) + HORIZON + z.after - z.before < Edge(day, m) ||
             z.Wall(now) + HORIZON + z.after - z.before < Edge(d + 7, 0) + Carry(z)
    requires z.Date(Edge(day, m)) <= now + HORIZON && z.Wall(z.Date(Edge(day, m))) == Edge(day, m)
    ensures Visit(z, DayNo(z.Wall(now)), day) > now + HORIZON
  {
    JumpSpan(z);
    VisitShows(z, DayNo(z.Wall(now)), day);
  }

  // ---------- and what is not seen is overlooked ----------

  /** Where every window is skipped, an edge of the touched days that is placed at an awake instant
      lies behind the jump and within the horizon. */
  lemma AwakeOnTheJump(spec: SleepScheduleSpec, z: Zone, now: int, d: int, m: int)
    requires MildJump(z) && z.before < z.after && now < z.at && 0 <= m < 1440 && Touched(z, d)
    requires forall v :: v in spec.awake && NonEmpty(v) ==> IsSkipped(z, now, v)
    requires AwakeAt(spec, z, z.Date(Edge(d, m)))
    ensures now < z.Date(Edge(d, m)) <= now + HORIZON
    ensures Edge(JumpDay(z) - 7, 0) <= z.Wall(now)
  {
    var wall := z.Wall(z.Date(Edge(d, m)));
    var v, e :| v in spec.awake && InWindow(v, e, wall);
    WindowInMinutes(v, e, wall);
    assert NonEmpty(v) by { assert v.days != []; }
    assert IsSkipped(z, now, v);
    var s :| SkippedOn(z, now, v, s);
    SkippedDayIsTouched(z, now, v, s);
    PlacedNearTheJump(z, d, m);
    assert Weekday(e) == Weekday(s);
    SameWeekNear(e, s);
    NextToTheJump(z, now, d, m, s, ParseHHMM(v.from).value);
    JumpSpan(z);
  }

  lemma SameWeekNear(e: int, s: int)
    requires Weekday(e) == Weekday(s) && -7 < e - s < 7
    ensures e == s
  {}

  lemma PlacedNearTheJump(z: Zone, d: int, m: int)
    requires MildJump(z) && z.before < z.after && 0 <= m < 1440 && Touched(z, d)
    ensures JumpDay(z) - 2 <= DayNo(z.Wall(z.Date(Edge(d, m)))) <= JumpDay(z) + 1
    ensures !z.Repeated(Edge(d, m)) && z.Clear(z.Wall(z.Date(Edge(d, m))))
  {
    JumpSpan(z);
    DayParts(z.SpanLow());
    DayParts(z.Wall(z.Date(Edge(d, m))));
  }

  /** A shown reading on the day of a skipped opening, behind that opening, comes after the jump. */
  lemma NextToTheJump(z: Zone, now: int, d: int, m: int, s: int, from: int)
    requires MildJump(z) && z.before < z.after && now < z.at && 0 <= m < 1440 && 0 <= from < 1440 && Touched(z, d)
    requires z.SpanLow() <= Edge(s, from) < z.SpanHigh() && Edge(s - 7, from) <= z.Wall(now)
    requires var wall := z.Wall(z.Date(Edge(d, m))); Edge(s, from) <= wall < Edge(s + 1, 0) && z.Clear(wall)
    ensures now < z.Date(Edge(d, m)) <= now + HORIZON && s == JumpDay(z)
  {
    JumpSpan(z);
  }

  lemma SkippedEdgeIsCollected(spec: SleepScheduleSpec, z: Zone, now: int, w: Window, d: int, m: int)
    requires MildJump(z) && z.before < z.after && now < z.at && Touched(z, d) && CoveredEdge(spec, w, d, m)
    requires forall v :: v in spec.awake && NonEmpty(v) ==> IsSkipped(z, now, v)
    requires AwakeAt(spec, z, z.Date(Edge(d, m)))
    ensures z.Date(Edge(d, m)) in Boundaries(spec, z, now)
  {
    AwakeOnTheJump(spec, z, now, d, m);
    TouchedIsVisited(z, now, d);
    EdgeIsCollected(spec, z, now, w, d, m, z.Date(Edge(d, m)));
  }

  lemma TouchedIsVisited(z: Zone, now: int, d: int)
    requires MildJump(z) && z.before < z.after && now < z.at && Touched(z, d) && Edge(JumpDay(z) - 7, 0) <= z.Wall(now)
    ensures DayNo(z.Wall(now)) <= d && Visit(z, DayNo(z.Wall(now)), d) <= now + HORIZON
  {
    JumpSpan(z);
    DayParts(z.Wall(now));
    DayParts(z.SpanLow());
    VisitedInTime(z, now, d);
  }

  lemma NoneMeansOverlooked(spec: SleepScheduleSpec, z: Zone, now: int, r: Evaluation)
    requires MildJump(z) && IsEvaluation(spec, z, now, r) && r.next.None? && HasOpenings(spec)
    ensures Overlooked(spec, z, now)
  {
    if AwakeAt(spec, z, now) { var b := ClosingIsCollected(spec, z, now); assert false; }
    forall u | u in spec.awake && NonEmpty(u) ensures z.before < z.after && IsSkipped(z, now, u) {
      if !(z.before < z.after && IsSkipped(z, now, u)) {
        var b := OpeningAhead(spec, z, now, u);
        assert false;
      }
    }
    var v :| v in spec.awake && NonEmpty(v);
    var s :| SkippedOn(z, now, v, s);
    SkippedDayIsTouched(z, now, v, s);
    forall w, d, m | Touched(z, d) && CoveredEdge(spec, w, d, m) ensures !AwakeAt(spec, z, z.Date(Edge(d, m))) {
      if AwakeAt(spec, z, z.Date(Edge(d, m))) {
        SkippedEdgeIsCollected(spec, z, now, w, d, m);
        assert false;
      }
    }
  }

  /** No transition is reported exactly when there is no non-empty window, or the jump skips
      every opening in sight. */
  lemma NoTransitionExactly(spec: SleepScheduleSpec, z: Zone, now: int, r: Evaluation)
    requires MildJump(z) && IsEvaluation(spec, z, now, r)
    ensures r.next.None? <==> !HasOpenings(spec) || Overlooked(spec, z, now)
  {
    if r.next.Some? {
      if Overlooked(spec, z, now) {
        OverlookedBeforeTheJump(spec, z, now);
        OverlookedSeesNothing(spec, z, now, r.next.value);
        assert false;
      } else if !HasOpenings(spec) {
        NeverAwake(spec, z, now);
        NeverAwake(spec, z, r.next.value);
        assert false;
      }
    } else if HasOpenings(spec) {
      NoneMeansOverlooked(spec, z, now, r);
    }
  }

  lemma NeverAwake(spec: SleepScheduleSpec, z: Zone, t: int)
    requires !HasOpenings(spec)
    ensures !AwakeAt(spec, z, t)
  {
    forall w, day | w in spec.awake ensures !InWindow(w, day, z.Wall(t)) {
      assert !NonEmpty(w);
      WindowInMinutes(w, day, z.Wall(t));
    }
  }

  /** A non-empty window flips the phase at a boundary at most eight days ahead. */
  lemma FlipWithinHorizon(spec: SleepScheduleSpec, z: Zone, now: int) returns (b: int)
    requires MildJump(z) && HasOpenings(spec) && !Overlooked(spec, z, now)
    ensures b in Boundaries(spec, z, now) && now < b <= now + HORIZON
    ensures AwakeAt(spec, z, b) != AwakeAt(spec, z, now)
  {
    var r := EvaluationExists(spec, z, now);
    NoTransitionExactly(spec, z, now, r);
    b := r.next.value;
    var w, day, m := BoundaryIsAnEdge(spec, z, now, b);
  }

  /** What is overlooked happens later all the same: the schedule is awake again. */
  lemma OverlookedFlipsLater(spec: SleepScheduleSpec, z: Zone, now: int) returns (t: int)
    requires MildJump(z) && Overlooked(spec, z, now)
    ensures now < t && !AwakeAt(spec, z, now) && AwakeAt(spec, z, t)
  {
    OverlookedBeforeTheJump(spec, z, now);
    var v :| v in spec.awake && NonEmpty(v);
    assert IsSkipped(z, now, v);
    var d :| SkippedOn(z, now, v, d);
    t := OpensNextWeek(spec, z, now, v, d);
  }

  lemma OpensNextWeek(spec: SleepScheduleSpec, z: Zone, now: int, v: Window, d: int) returns (t: int)
    requires MildJump(z) && z.before < z.after && now < z.at
    requires v in spec.awake && NonEmpty(v) && SkippedOn(z, now, v, d)
    ensures now < t && AwakeAt(spec, z, t)
  {
    SameWeekday(d);
    assert v.days[0] in v.days && Covers(v, WeekdayOf(v.days[0]));
    OpensAwake(spec, v, d + 7);
    t := z.Date(Edge(d + 7, ParseHHMM(v.from).value));
    BehindTheJump(z, d, ParseHHMM(v.from).value);
  }

  lemma BehindTheJump(z: Zone, d: int, m: int)
    requires z.before < z.after < z.before + DAY && 0 <= m < 1440 && z.SpanLow() <= Edge(d, m) < z.SpanHigh()
    ensures z.Wall(z.Date(Edge(d + 7, m))) == Edge(d + 7, m) && z.at < z.Date(Edge(d + 7, m))
  {}

  // ---------- the eighth day ----------

  /** Midnight is skipped, and with it every non-empty window as a whole: they are all of the
      weekday that begins with that midnight. */
  ghost predicate Hidden(spec: SleepScheduleSpec, z: Zone) {
    && HasOpenings(spec) && SkipsMidnight(z)
    && forall v :: v in spec.awake && NonEmpty(v) ==>
         && (forall wd :: Covers(v, wd) ==> wd == Weekday(JumpDay(z)))
         && Edge(JumpDay(z), ParseHHMM(v.to).value) <= z.SpanHigh()
  }

  /** A phase change to come lies on a day that has not passed. */
  lemma NotBeforeToday(z: Zone, now: int, day: int, m: int, c: int)
    requires MildJump(z) && 0 <= m < 1440 && now < c
    requires c == z.Date(Edge(day, m)) && (c == z.at || z.Wall(c) == Edge(day, m))
    ensures DayNo(z.Wall(now)) <= day
  {
    PlacedAtTheJump(z, Edge(day, m));
    var midnight := Edge(day + 1, 0);
    DayParts(z.Wall(now));
    assert !z.Clear(midnight) && z.after <= z.before ==> midnight == z.SpanLow() || midnight <= z.at;
  }

  /** A day is visited after a phase change on it only where a skipped midnight has carried the
      day loop past the change. */
  lemma VisitedLate(z: Zone, now: int, day: int, m: int, c: int)
    requires MildJump(z) && 0 <= m < 1440 && now < c && DayNo(z.Wall(now)) <= day
    requires c == z.Date(Edge(day, m)) && (c == z.at || z.Wall(c) == Edge(day, m))
    requires c < Visit(z, DayNo(z.Wall(now)), day)
    ensures SkipsMidnight(z) && DayNo(z.Wall(now)) <= JumpDay(z) <= day
    ensures z.Wall(c) == Edge(day, m) < Edge(day, 0) + Carry(z)
  {
    VisitShows(z, DayNo(z.Wall(now)), day);
    PlacedAtTheJump(z, Edge(day, m));
    if z.before < z.after { JumpSpan(z); }
  }

  /** The day of the change is visited only beyond the horizon: so it is more than a week away. */
  lemma LateIsAWeekAway(z: Zone, now: int, day: int, m: int, c: int)
    requires MildJump(z) && SkipsMidnight(z) && 0 <= m < 1440 && DayNo(z.Wall(now)) <= JumpDay(z) <= day
    requires z.Wall(c) == Edge(day, m) && now < c <= now + HORIZON < Visit(z, DayNo(z.Wall(now)), day)
    ensures now + 7 * DAY < c && z.at <= c
    ensures z.Wall(now) + HORIZON + (if now < z.at then z.after - z.before else 0) < Edge(day, 0) + Carry(z)
    ensures Edge(day, m) <= z.Wall(now) + HORIZON + (if now < z.at then z.after - z.before else 0)
  {
    JumpSpan(z);
    VisitShows(z, DayNo(z.Wall(now)), day);
  }

  /** Nothing is awake for a week. */
  lemma AsleepWithinAWeek(spec: SleepScheduleSpec, z: Zone, now: int, c: int) returns (t: int)
    requires MildJump(z) && now + 7 * DAY < c
    ensures now <= t < c && !AwakeAt(spec, z, t)
  {
    var first := DayNo(z.Wall(now));
    var day := if z.Clear(Edge(first + 1, 1439)) then first + 1 else first + 3;
    t := z.Date(Edge(day, 1439));
    LastMinuteAsleep(spec, day);
    LastMinuteReached(z, now, day);
  }

  lemma LastMinuteReached(z: Zone, now: int, day: int)
    requires MildJump(z)
    requires var first := DayNo(z.Wall(now));
             if z.Clear(Edge(first + 1, 1439)) then day == first + 1 else day == first + 3
    ensures var t := z.Date(Edge(day, 1439)); now <= t <= now + 7 * DAY && z.Wall(t) == Edge(day, 1439)
  {
    DayParts(z.Wall(now));
  }

  /** Asleep up to c, so no clear opening comes before it. */
  lemma NoOpeningBefore(spec: SleepScheduleSpec, z: Zone, now: int, c: int, v: Window, e: int)
    requires v in spec.awake && NonEmpty(v) && Covers(v, Weekday(e))
    requires forall u :: now <= u < c ==> !AwakeAt(spec, z, u)
    ensures var o := Edge(e, ParseHHMM(v.from).value);
            z.Clear(o) ==> o < z.Wall(now) || c <= z.Date(o)
  {
    var o := Edge(e, ParseHHMM(v.from).value);
    OpensAwake(spec, v, e);
    if z.Clear(o) && z.Wall(now) <= o && z.Date(o) < c {
      ClearSplitsTime(z, o, now);
      assert AwakeAt(spec, z, z.Date(o));
      assert false;
    }
  }

  /** The opening a week before the change was skipped, and midnight with it. */
  lemma SkippedAWeekBefore(z: Zone, now: int, day: int, m: int, from: int, c: int)
    requires MildJump(z) && SkipsMidnight(z) && 0 <= from <= m < 1440 && JumpDay(z) <= day
    requires z.Wall(c) == Edge(day, m) < Edge(day, 0) + Carry(z) && z.at <= c
    requires z.Wall(now) + HORIZON + (if now < z.at then z.after - z.before else 0) < Edge(day, 0) + Carry(z)
    requires z.Clear(Edge(day - 7, from)) ==> Edge(day - 7, from) < z.Wall(now) || c <= z.Date(Edge(day - 7, from))
    ensures day == JumpDay(z) + 7 && now < z.at
  {
    JumpSpan(z);
  }

  /** Then every window is of the weekday that begins with the skipped midnight, and skipped. */
  lemma SkippedAsAWhole(spec: SleepScheduleSpec, z: Zone, now: int, m: int, c: int, v: Window)
    requires MildJump(z) && SkipsMidnight(z) && now < z.at && 0 <= m < 1440 && v in spec.awake && NonEmpty(v)
    requires z.Wall(c) == Edge(JumpDay(z) + 7, m) && z.at <= c
    requires z.Wall(now) + DAY + z.after - z.before < Edge(JumpDay(z), 0) + Carry(z)
    requires Edge(JumpDay(z) + 7, m) <= z.Wall(now) + HORIZON + z.after - z.before
    requires forall u :: now <= u < c ==> !AwakeAt(spec, z, u)
    ensures SkippedOn(z, now, v, JumpDay(z)) && Edge(JumpDay(z), ParseHHMM(v.to).value) <= z.SpanHigh()
  {
    var d, from, to := JumpDay(z), ParseHHMM(v.from).value, ParseHHMM(v.to).value;
    JumpSpan(z);
    forall wd | Covers(v, wd) ensures wd == Weekday(d) {
      if wd != Weekday(d) {
        var other := OtherDay(d, wd);
        NoOpeningBefore(spec, z, now, c, v, other);
        BetweenTheWeeks(z, now, m, c, other, from);
        assert false;
      }
    }
    assert v.days[0] in v.days && Covers(v, WeekdayOf(v.days[0]));
    NoOpeningBefore(spec, z, now, c, v, d);
    OnTheJumpDay(z, now, m, c, from);
    if Edge(d, to) > z.SpanHigh() {
      assert InWindow(v, d, z.Wall(z.at));
      assert AwakeAt(spec, z, z.at);
      assert false;
    }
  }

  lemma BetweenTheWeeks(z: Zone, now: int, m: int, c: int, other: int, from: int)
    requires MildJump(z) && SkipsMidnight(z) && now < z.at <= c && 0 <= m < 1440 && 0 <= from < 1440
    requires z.Wall(c) == Edge(JumpDay(z) + 7, m) && JumpDay(z) < other < JumpDay(z) + 7
    ensures z.Clear(Edge(other, from)) && z.Wall(now) <= Edge(other, from) && z.Date(Edge(other, from)) < c
  {
    JumpSpan(z);
  }

  lemma OnTheJumpDay(z: Zone, now: int, m: int, c: int, from: int)
    requires MildJump(z) && SkipsMidnight(z) && now < z.at <= c && 0 <= m < 1440 && 0 <= from < 1440
    requires z.Wall(c) == Edge(JumpDay(z) + 7, m)
    requires Edge(JumpDay(z) + 7, m) <= z.Wall(now) + HORIZON + z.after - z.before
    ensures z.Clear(Edge(JumpDay(z), from)) ==> z.Wall(now) <= Edge(JumpDay(z), from) && z.Date(Edge(JumpDay(z), from)) < c
    ensures z.SpanLow() <= Edge(JumpDay(z), from)
    ensures Edge(JumpDay(z) - 6, 0) <= z.Wall(now)
  {
    JumpSpan(z);
  }

  lemma HiddenEdgesAreAsleep(spec: SleepScheduleSpec, z: Zone, d: int, m: int)
    requires MildJump(z) && Hidden(spec, z) && Touched(z, d) && 0 <= m < 1440
    ensures !AwakeAt(spec, z, z.Date(Edge(d, m)))
  {
    var wall := z.Wall(z.Date(Edge(d, m)));
    PlacedNearTheJump(z, d, m);
    JumpSpan(z);
    if v, e :| v in spec.awake && InWindow(v, e, wall) {
      WindowInMinutes(v, e, wall);
      assert NonEmpty(v) by { assert v.days != []; }
      SameWeekNear(e, JumpDay(z));
      assert false;
    }
  }

  /** A phase change of the horizon that is not collected: the windows are hidden by the skipped
      midnight, no transition is reported, and the change is more than a week away. */
  lemma UncollectedChange(spec: SleepScheduleSpec, z: Zone, now: int, c: int)
    requires MildJump(z) && Exact(spec, z) && NextChange(spec, z, now, c) && c <= now + HORIZON
    requires c !in Boundaries(spec, z, now)
    ensures Hidden(spec, z) && Overlooked(spec, z, now) && now + 7 * DAY < c
  {
    var w, day, m := FlipIsAnEdge(spec, z, c);
    NotBeforeToday(z, now, day, m, c);
    if Visit(z, DayNo(z.Wall(now)), day) <= now + HORIZON { EdgeIsCollected(spec, z, now, w, day, m, c); }
    VisitedLate(z, now, day, m, c);
    LateChange(spec, z, now, day, m, c);
  }

  lemma LateChange(spec: SleepScheduleSpec, z: Zone, now: int, day: int, m: int, c: int)
    requires MildJump(z) && SkipsMidnight(z) && 0 <= m < 1440 && DayNo(z.Wall(now)) <= JumpDay(z) <= day
    requires NextChange(spec, z, now, c) && z.Wall(c) == Edge(day, m) < Edge(day, 0) + Carry(z)
    requires c <= now + HORIZON < Visit(z, DayNo(z.Wall(now)), day)
    ensures Hidden(spec, z) && Overlooked(spec, z, now) && now + 7 * DAY < c
  {
    LateIsAWeekAway(z, now, day, m, c);
    AwakeAfterAWeek(spec, z, now, c);
    var u := OpenAt(spec, day, m);
    SameWeekday(day);
    NoOpeningBefore(spec, z, now, c, u, day - 7);
    SkippedAWeekBefore(z, now, day, m, ParseHHMM(u.from).value, c);
    AllSkipped(spec, z, now, m, c);
  }

  lemma AwakeAfterAWeek(spec: SleepScheduleSpec, z: Zone, now: int, c: int)
    requires MildJump(z) && NextChange(spec, z, now, c) && now + 7 * DAY < c
    ensures AwakeAt(spec, z, c) && forall u :: now <= u < c ==> !AwakeAt(spec, z, u)
  {
    var t := AsleepWithinAWeek(spec, z, now, c);
    assert AwakeAt(spec, z, c - 1) == AwakeAt(spec, z, now) == AwakeAt(spec, z, t);
  }

  lemma OpenAt(spec: SleepScheduleSpec, day: int, m: int) returns (u: Window)
    requires 0 <= m < 1440 && AwakeReading(spec, Edge(day, m))
    ensures u in spec.awake && NonEmpty(u) && Covers(u, Weekday(day)) && ParseHHMM(u.from).value <= m
  {
    EdgeParts(day, m);
    var v, e :| v in spec.awake && InWindow(v, e, Edge(day, m));
    u := v;
    WindowInMinutes(u, e, Edge(day, m));
    assert NonEmpty(u) by { assert u.days != []; }
  }

  lemma AllSkipped(spec: SleepScheduleSpec, z: Zone, now: int, m: int, c: int)
    requires MildJump(z) && SkipsMidnight(z) && now < z.at && 0 <= m < 1440 && HasOpenings(spec)
    requires z.Wall(c) == Edge(JumpDay(z) + 7, m) && z.at <= c
    requires z.Wall(now) + DAY + z.after - z.before < Edge(JumpDay(z), 0) + Carry(z)
    requires Edge(JumpDay(z) + 7, m) <= z.Wall(now) + HORIZON + z.after - z.before
    requires forall u :: now <= u < c ==> !AwakeAt(spec, z, u)
    ensures Hidden(spec, z) && Overlooked(spec, z, now)
  {
    forall v | v in spec.awake && NonEmpty(v)
      ensures SkippedOn(z, now, v, JumpDay(z)) && Edge(JumpDay(z), ParseHHMM(v.to).value) <= z.SpanHigh()
    {
      SkippedAsAWhole(spec, z, now, m, c, v);
    }
    assert forall v :: v in spec.awake && NonEmpty(v) ==> IsSkipped(z, now, v);
    forall w, d, k | Touched(z, d) && CoveredEdge(spec, w, d, k) ensures !AwakeAt(spec, z, z.Date(Edge(d, k))) {
      HiddenEdgesAreAsleep(spec, z, d, k);
    }
  }

  /** Hidden windows are missed: eight days before the opening after the jump. */
  lemma HiddenIsMissed(spec: SleepScheduleSpec, z: Zone) returns (now: int, r: Evaluation)
    requires MildJump(z) && Hidden(spec, z)
    ensures IsEvaluation(spec, z, now, r) && r.next.None? && !MissesNothing(spec, z, now, r, HORIZON)
  {
    var v :| v in spec.awake && NonEmpty(v);
    now := z.Date(Edge(JumpDay(z) + 7, ParseHHMM(v.from).value)) - HORIZON;
    r := EvaluationExists(spec, z, now);
    HiddenIsOverlooked(spec, z, now, v);
    OpensAWeekLater(spec, z, v);
    AwakeAheadIsMissed(spec, z, now, r);
  }

  lemma AwakeAheadIsMissed(spec: SleepScheduleSpec, z: Zone, now: int, r: Evaluation)
    requires MildJump(z) && Overlooked(spec, z, now) && IsEvaluation(spec, z, now, r) && AwakeAt(spec, z, now + HORIZON)
    ensures r.next.None? && !MissesNothing(spec, z, now, r, HORIZON)
  {
    NoTransitionExactly(spec, z, now, r);
    OverlookedBeforeTheJump(spec, z, now);
  }

  lemma HiddenIsOverlooked(spec: SleepScheduleSpec, z: Zone, now: int, v: Window)
    requires MildJump(z) && Hidden(spec, z) && v in spec.awake && NonEmpty(v)
    requires now == z.Date(Edge(JumpDay(z) + 7, ParseHHMM(v.from).value)) - HORIZON
    ensures Overlooked(spec, z, now)
  {
    forall u | u in spec.awake && NonEmpty(u) ensures IsSkipped(z, now, u) {
      EightDaysBefore(z, now, ParseHHMM(v.from).value, ParseHHMM(v.to).value, ParseHHMM(u.from).value, ParseHHMM(u.to).value);
      assert SkippedOn(z, now, u, JumpDay(z));
    }
    forall w, e, m | Touched(z, e) && CoveredEdge(spec, w, e, m) ensures !AwakeAt(spec, z, z.Date(Edge(e, m))) {
      HiddenEdgesAreAsleep(spec, z, e, m);
    }
  }

  lemma OpensAWeekLater(spec: SleepScheduleSpec, z: Zone, v: Window)
    requires MildJump(z) && Hidden(spec, z) && v in spec.awake && NonEmpty(v)
    ensures AwakeAt(spec, z, z.Date(Edge(JumpDay(z) + 7, ParseHHMM(v.from).value)))
  {
    JumpSpan(z);
    SameWeekday(JumpDay(z));
    assert v.days[0] in v.days && Covers(v, WeekdayOf(v.days[0]));
    OpensAwake(spec, v, JumpDay(z) + 7);
  }

  lemma EightDaysBefore(z: Zone, now: int, from: int, to: int, otherFrom: int, otherTo: int)
    requires MildJump(z) && SkipsMidnight(z) && 0 <= from < to < 1440 && 0 <= otherFrom < otherTo < 1440
    requires now == z.Date(Edge(JumpDay(z) + 7, from)) - HORIZON
    requires Edge(JumpDay(z), to) <= z.SpanHigh() && Edge(JumpDay(z), otherTo) <= z.SpanHigh()
    ensures z.SpanLow() <= Edge(JumpDay(z), otherFrom) < z.SpanHigh()
    ensures Edge(JumpDay(z) - 7, otherTo) <= z.Wall(now)
    ensures z.Wall(now) + DAY + z.after - z.before < Edge(JumpDay(z), 0) + Carry(z)
  {
    JumpSpan(z);
  }

  // ---------- the conditions ----------

  /** Where every phase change happens on an edge, only hidden windows are missed. */
  lemma ExactMissesNothing(spec: SleepScheduleSpec, z: Zone, now: int, r: Evaluation, span: int)
    requires MildJump(z) && Exact(spec, z) && IsEvaluation(spec, z, now, r) && span <= HORIZON
    requires Hidden(spec, z) && Overlooked(spec, z, now) ==> span <= 7 * DAY
    ensures MissesNothing(spec, z, now, r, span)
  {
    forall c | NextChange(spec, z, now, c) && c <= now + span ensures c in Boundaries(spec, z, now) {
      if c !in Boundaries(spec, z, now) {
        UncollectedChange(spec, z, now, c);
        assert false;
      }
    }
    CollectedMissesNothing(spec, z, now, r, span);
  }

  /** Between two instants of different phase lies a collected edge with the later phase. */
  lemma FlipHasAnEdge(spec: SleepScheduleSpec, z: Zone, now: int, t: int) returns (c: int)
    requires MildJump(z) && Exact(spec, z) && !(Hidden(spec, z) && Overlooked(spec, z, now))
    requires now < t <= now + HORIZON && AwakeAt(spec, z, now) != AwakeAt(spec, z, t)
    ensures now < c <= t && c in Boundaries(spec, z, now) && AwakeAt(spec, z, c) == AwakeAt(spec, z, t)
  {
    c := FirstChange(spec, z, now, t);
    if c !in Boundaries(spec, z, now) {
      UncollectedChange(spec, z, now, c);
      assert false;
    }
  }

  /** No evaluation, at whatever instant, passes over a phase change of its eight days, exactly
      when every phase change happens on an edge and no skipped midnight hides all windows. */
  lemma ExactCondition(spec: SleepScheduleSpec, z: Zone)
    requires MildJump(z)
    ensures NeverMisses(spec, z, HORIZON) <==> Exact(spec, z) && !Hidden(spec, z)
  {
    if Exact(spec, z) && !Hidden(spec, z) {
      forall now, r | IsEvaluation(spec, z, now, r) ensures MissesNothing(spec, z, now, r, HORIZON) {
        ExactMissesNothing(spec, z, now, r, HORIZON);
      }
    }
    if NeverMisses(spec, z, HORIZON) {
      NeverMissesIsExact(spec, z, HORIZON);
      if Hidden(spec, z) {
        var now, r := HiddenIsMissed(spec, z);
        assert false;
      }
    }
  }

  /** For the next seven days the first half of the condition decides alone. */
  lemma WeekExactCondition(spec: SleepScheduleSpec, z: Zone)
    requires MildJump(z)
    ensures NeverMisses(spec, z, 7 * DAY) <==> Exact(spec, z)
  {
    if Exact(spec, z) {
      forall now, r | IsEvaluation(spec, z, now, r) ensures MissesNothing(spec, z, now, r, 7 * DAY) {
        ExactMissesNothing(spec, z, now, r, 7 * DAY);
      }
    }
    if NeverMisses(spec, z, 7 * DAY) { NeverMissesIsExact(spec, z, 7 * DAY); }
  }

  /** The clock put forward. */
  lemma ForwardExactCondition(spec: SleepScheduleSpec, z: Zone)
    requires MildJump(z) && z.before <= z.after
    ensures NeverMisses(spec, z, HORIZON) <==>
            && (AwakeReading(spec, z.at + z.before - 1) == AwakeReading(spec, z.at + z.after) || JumpMeetsAnEdge(spec, z))
            && !Hidden(spec, z)
  {
    ExactCondition(spec, z);
    ForwardExact(spec, z);
  }

  /** The clock put back. */
  lemma BackwardExactCondition(spec: SleepScheduleSpec, z: Zone)
    requires MildJump(z) && z.after < z.before
    ensures NeverMisses(spec, z, HORIZON) <==> SteadyOverTheRepeated(spec, z)
  {
    ExactCondition(spec, z);
    BackwardExact(spec, z);
  }

  /** The reported transition is exactly the next phase change; without one the phase lasts for
      ever, unless all openings in sight are overlooked, and exactly then it changes later. */
  lemma NextTransitionExact(spec: SleepScheduleSpec, z: Zone, now: int, r: Evaluation)
    requires MildJump(z) && Exact(spec, z) && IsEvaluation(spec, z, now, r)
    ensures r.next.Some? ==>
              && now < r.next.value <= now + HORIZON
              && AwakeAt(spec, z, r.next.value) != r.awake
              && forall t :: now <= t < r.next.value ==> AwakeAt(spec, z, t) == r.awake
    ensures r.next.None? ==> MissesNothing(spec, z, now, r, 7 * DAY)
    ensures r.next.None? ==>
              ((forall t :: now <= t ==> AwakeAt(spec, z, t) == r.awake) <==> !Overlooked(spec, z, now))
  {
    NoTransitionExactly(spec, z, now, r);
    if r.next.Some? {
      ExactMissesNothing(spec, z, now, r, HORIZON);
      var w, day, m := BoundaryIsAnEdge(spec, z, now, r.next.value);
    } else {
      ExactMissesNothing(spec, z, now, r, 7 * DAY);
      if Overlooked(spec, z, now) {
        var t := OverlookedFlipsLater(spec, z, now);
      } else {
        forall t ensures !AwakeAt(spec, z, t) { NeverAwake(spec, z, t); }
      }
    }
  }

  /** A jump between the edges hides nothing. */
  lemma RegularIsSeen(spec: SleepScheduleSpec, z: Zone, now: int)
    requires z.Valid() && z.SkipsLessThanADay() && Regular(spec, z)
    ensures MildJump(z) && Exact(spec, z) && !Hidden(spec, z) && !Overlooked(spec, z, now)
  {
    ClearMidnightsAreMild(z);
    RegularIsExact(spec, z);
    assert z.Clear(Edge(JumpDay(z), 0));
    if z.before < z.after { JumpSpan(z); }
    if Overlooked(spec, z, now) {
      OverlookedIsNotRegular(spec, z, now);
      assert false;
    }
  }

  lemma OverlookedIsNotRegular(spec: SleepScheduleSpec, z: Zone, now: int)
    requires Overlooked(spec, z, now)
    ensures !Regular(spec, z)
  {
    var v :| v in spec.awake && NonEmpty(v);
    assert IsSkipped(z, now, v);
    var d :| SkippedOn(z, now, v, d);
    assert v.days[0] in v.days && Covers(v, WeekdayOf(v.days[0]));
    assert CoveredEdge(spec, v, d, ParseHHMM(v.from).value) && !z.Clear(Edge(d, ParseHHMM(v.from).value));
  }
}
