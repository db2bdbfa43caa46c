/** Schedules and jumps for which Evaluate does not do what it promises. */
module FailingInputs {
  import opened Wrappers
  import opened Clock
  import opened Zones
  import opened Api
  import opened Schedule
  import opened Transitions
  import opened NoTransition

  /** New York, 8 March 2026: 02:00 jumps to 03:00. */
  ghost function SkippedZone(): (z: Zone)
    ensures MildJump(z) && ClearMidnights(z)
  {
    Zone(-5 * HOUR, 740048 * DAY + 7 * HOUR, -4 * HOUR)
  }

  ghost function SpecOf(w: Window): SleepScheduleSpec {
    SleepScheduleSpec([w], Target("namespaces", ["default"], None), [], [], 0, None, false)
  }

  /** Opens at 02:30, in the skipped hour. */
  const SKIPPED_OPENING := Window(["Mon", "Tue", "Wed", "Thu", "Fri", "Sat", "Sun"], "02:30", "05:00")

  /** Lies in the skipped hour as a whole. */
  const SKIPPED_WINDOW := Window(["Sun"], "02:10", "02:50")

  /** A window opening in the skipped hour starts being awake at the jump, and Evaluate never
      reports that flip. */
  lemma OpeningInSkippedHourIsMissed(r: Evaluation)
    requires IsEvaluation(SpecOf(SKIPPED_OPENING), SkippedZone(), SkippedZone().at - SECOND, r)
    ensures !AwakeAt(SpecOf(SKIPPED_OPENING), SkippedZone(), SkippedZone().at - SECOND)
    ensures AwakeAt(SpecOf(SKIPPED_OPENING), SkippedZone(), SkippedZone().at)
    ensures r.next != Some(SkippedZone().at)
  {
    var spec, z := SpecOf(SKIPPED_OPENING), SkippedZone();
    SkippedOpeningPhases();
    if r.next == Some(z.at) {
      var v, d, m := BoundaryIsAnEdge(spec, z, z.at - SECOND, z.at);
      NoEdgeAtTheJump(d, m);
      assert false;
    }
  }

  lemma SkippedOpeningPhases()
    ensures ParseHHMM(SKIPPED_OPENING.from) == Some(150) && ParseHHMM(SKIPPED_OPENING.to) == Some(300)
    ensures !AwakeAt(SpecOf(SKIPPED_OPENING), SkippedZone(), SkippedZone().at - SECOND)
    ensures AwakeAt(SpecOf(SKIPPED_OPENING), SkippedZone(), SkippedZone().at)
  {
    var spec, z, w := SpecOf(SKIPPED_OPENING), SkippedZone(), SKIPPED_OPENING;
    SkippedOpeningTimes();
    assert w in spec.awake && InWindow(w, 740048, Edge(740048, 180)) && Edge(740048, 180) == z.Wall(z.at);
    var wall := z.Wall(z.at - SECOND);
    forall d ensures !InWindow(w, d, wall) { WindowInMinutes(w, d, wall); }
  }

  lemma SkippedOpeningTimes()
    ensures ParseHHMM(SKIPPED_OPENING.from) == Some(150) && ParseHHMM(SKIPPED_OPENING.to) == Some(300)
    ensures Covers(SKIPPED_OPENING, Weekday(740048))
  {
    assert SKIPPED_OPENING.days[6] == "Sun" && WeekdayOf("Sun") == Weekday(740048);
  }

  lemma NoEdgeAtTheJump(day: int, m: int)
    requires m == 150 || m == 300
    ensures SkippedZone().Date(Edge(day, m)) != SkippedZone().at
  {}

  lemma SkippedEdgeIsAsleep(wall: int)
    requires wall == Edge(740048, 130) || wall == Edge(740048, 170)
    ensures !AwakeAt(SpecOf(SKIPPED_WINDOW), SkippedZone(), SkippedZone().Date(wall))
  {
    var w, shown := SKIPPED_WINDOW, SkippedZone().Wall(SkippedZone().Date(wall));
    forall d ensures !InWindow(w, d, shown) { WindowInMinutes(w, d, shown); }
  }

  /** A weekly window inside the skipped hour: all through the week before, from the end of last
      week's window up to a day and an hour ahead of the skipped one, Evaluate reports no
      transition at all, for a schedule that is awake every week but this one. */
  lemma SkippedWindowIsNeverReported(now: int, r: Evaluation)
    requires Edge(740041, 170) <= SkippedZone().Wall(now) < Edge(740047, 70)
    requires IsEvaluation(SpecOf(SKIPPED_WINDOW), SkippedZone(), now, r)
    ensures NonEmpty(SKIPPED_WINDOW) && r.next.None?
  {
    SkippedWindowIsOverlooked(now);
    NoTransitionExactly(SpecOf(SKIPPED_WINDOW), SkippedZone(), now, r);
  }

  lemma SkippedWindowIsOverlooked(now: int)
    requires Edge(740041, 170) <= SkippedZone().Wall(now) < Edge(740047, 70)
    ensures NonEmpty(SKIPPED_WINDOW) && Overlooked(SpecOf(SKIPPED_WINDOW), SkippedZone(), now)
  {
    var spec, z, w := SpecOf(SKIPPED_WINDOW), SkippedZone(), SKIPPED_WINDOW;
    SkippedWindowTimes();
    SkippedZoneDay();
    assert SkippedOn(z, now, w, 740048) && IsSkipped(z, now, w);
    assert spec.awake[0] == w;
    SkippedEdgeIsAsleep(Edge(740048, 130));
    SkippedEdgeIsAsleep(Edge(740048, 170));
  }

  lemma SkippedWindowTimes()
    ensures ParseHHMM(SKIPPED_WINDOW.from) == Some(130) && ParseHHMM(SKIPPED_WINDOW.to) == Some(170)
    ensures NonEmpty(SKIPPED_WINDOW) && forall wd :: Covers(SKIPPED_WINDOW, wd) ==> wd == Weekday(740048)
  {
    assert WeekdayOf("Sun") == Weekday(740048);
  }

  lemma SkippedZoneDay()
    ensures DayNo(SkippedZone().SpanLow()) == JumpDay(SkippedZone()) == 740048 && Carry(SkippedZone()) == 0
  {}

  /** New York, 1 November 2026: 02:00 goes back to 01:00. */
  ghost function RepeatedZone(): (z: Zone)
    ensures MildJump(z) && ClearMidnights(z)
  {
    Zone(-4 * HOUR, 740286 * DAY + 6 * HOUR, -5 * HOUR)
  }

  /** Closes in the hour that comes twice. */
  const REPEATED_CLOSING := Window(["Sun"], "00:00", "01:30")

  /** The clock goes back into the window, so the schedule is awake again for half an hour, and
      Evaluate, asked at the jump, does not report that it ends. */
  lemma ClosingInRepeatedHourIsMissed(r: Evaluation)
    requires IsEvaluation(SpecOf(REPEATED_CLOSING), RepeatedZone(), RepeatedZone().at, r)
    ensures AwakeAt(SpecOf(REPEATED_CLOSING), RepeatedZone(), RepeatedZone().at)
    ensures Flips(SpecOf(REPEATED_CLOSING), RepeatedZone(), RepeatedZone().at + 30 * MINUTE)
    ensures r.next != Some(RepeatedZone().at + 30 * MINUTE)
  {
    var spec, z, wall := SpecOf(REPEATED_CLOSING), RepeatedZone(), Edge(740286, 90);
    assert z.Repeated(wall) && z.Twin(wall) == z.at + 30 * MINUTE;
    RepeatedClosingPhases();
    TwinIsNoEdge(spec, z, wall);
    if r.next == Some(z.Twin(wall)) {
      var w, day, m := BoundaryIsAnEdge(spec, z, z.at, z.Twin(wall));
      assert false;
    }
  }

  lemma RepeatedClosingPhases()
    ensures AwakeAt(SpecOf(REPEATED_CLOSING), RepeatedZone(), RepeatedZone().at)
    ensures Flips(SpecOf(REPEATED_CLOSING), RepeatedZone(), RepeatedZone().at + 30 * MINUTE)
  {
    var w, z, wall := REPEATED_CLOSING, RepeatedZone(), Edge(740286, 90);
    assert ParseHHMM(w.from) == Some(0) && ParseHHMM(w.to) == Some(90);
    assert w.days[0] == "Sun" && WeekdayOf("Sun") == Weekday(740286) && Covers(w, Weekday(740286));
    assert w in SpecOf(w).awake && InWindow(w, 740286, z.Wall(z.at)) && InWindow(w, 740286, wall - 1);
    assert z.Wall(z.at + 30 * MINUTE) == wall && z.Wall(z.at + 30 * MINUTE - 1) == wall - 1;
    forall d ensures !InWindow(w, d, wall) { WindowInMinutes(w, d, wall); }
  }

  /** Havana, 8 March 2026: midnight jumps to 01:00, and Date places it at 23:00 the day before. */
  ghost function NoMidnightZone(): (z: Zone)
    ensures MildJump(z)
  {
    Zone(-5 * HOUR, 740048 * DAY + 5 * HOUR, -4 * HOUR)
  }

  /** Skipped as a whole on the day of the jump. */
  const MIDNIGHT_WINDOW := Window(["Sun"], "00:10", "00:50")

  /** All through the week before, from the end of last week's window up to 22:00 of the last day,
      Evaluate reports no transition, although the schedule is awake every Sunday but this one. */
  lemma MidnightWindowIsNeverReported(now: int, r: Evaluation)
    requires Edge(740041, 50) <= NoMidnightZone().Wall(now) < Edge(740047, 1320)
    requires IsEvaluation(SpecOf(MIDNIGHT_WINDOW), NoMidnightZone(), now, r)
    ensures NonEmpty(MIDNIGHT_WINDOW) && r.next.None?
  {
    MidnightWindowIsOverlooked(now);
    NoTransitionExactly(SpecOf(MIDNIGHT_WINDOW), NoMidnightZone(), now, r);
  }

  lemma MidnightWindowTimes()
    ensures ParseHHMM(MIDNIGHT_WINDOW.from) == Some(10) && ParseHHMM(MIDNIGHT_WINDOW.to) == Some(50)
    ensures NonEmpty(MIDNIGHT_WINDOW) && forall wd :: Covers(MIDNIGHT_WINDOW, wd) <==> wd == 0
  {
    assert MIDNIGHT_WINDOW.days[0] == "Sun" && WeekdayOf("Sun") == 0;
  }

  lemma MidnightIsCarried()
    ensures var z := NoMidnightZone();
            JumpDay(z) == 740048 && DayNo(z.SpanLow()) == 740048 && SkipsMidnight(z) && Carry(z) == 23 * HOUR
  {
    JumpSpan(NoMidnightZone());
  }

  lemma MidnightWindowIsOverlooked(now: int)
    requires Edge(740041, 50) <= NoMidnightZone().Wall(now) < Edge(740047, 1320)
    ensures NonEmpty(MIDNIGHT_WINDOW) && Overlooked(SpecOf(MIDNIGHT_WINDOW), NoMidnightZone(), now)
  {
    var spec, z, w := SpecOf(MIDNIGHT_WINDOW), NoMidnightZone(), MIDNIGHT_WINDOW;
    MidnightWindowTimes();
    MidnightIsCarried();
    assert SkippedOn(z, now, w, 740048) && IsSkipped(z, now, w);
    assert spec.awake[0] == w;
    assert Hidden(spec, z);
    forall v, d, m | Touched(z, d) && CoveredEdge(spec, v, d, m) ensures !AwakeAt(spec, z, z.Date(Edge(d, m))) {
      HiddenEdgesAreAsleep(spec, z, d, m);
    }
  }

  /** From noon of the day before, the opening a week after the skipped one lies within the eight
      days, and Evaluate does not report it. */
  lemma EighthDayIsCutShort(now: int, r: Evaluation)
    requires NoMidnightZone().Wall(now) == Edge(740047, 720)
    requires IsEvaluation(SpecOf(MIDNIGHT_WINDOW), NoMidnightZone(), now, r)
    ensures var opening := NoMidnightZone().Date(Edge(740055, 10));
            && now < opening <= now + HORIZON && Flips(SpecOf(MIDNIGHT_WINDOW), NoMidnightZone(), opening)
            && r.next.None?
  {
    MidnightWindowIsNeverReported(now, r);
    MidnightWindowOpens();
  }

  lemma MidnightWindowOpens()
    ensures Flips(SpecOf(MIDNIGHT_WINDOW), NoMidnightZone(), NoMidnightZone().Date(Edge(740055, 10)))
  {
    var w, wall := MIDNIGHT_WINDOW, Edge(740055, 10);
    MidnightWindowTimes();
    assert w in SpecOf(w).awake && InWindow(w, 740055, wall);
    var before := wall - 1;
    forall d ensures !InWindow(w, d, before) { WindowInMinutes(w, d, before); }
  }
}
