/** internal/schedule/evaluator.go: what being awake means, and what the boundary scan collects. */
module Schedule {
  import opened Wrappers
  import opened Clock
  import opened Decimal
  import opened Zones
  import opened Api

  datatype Evaluation = Evaluation(awake: bool, phase: Phase, next: Option<int>)

  /** A week covers the recurring pattern, the extra day absorbs an offset jump. */
  const HORIZON: int := 8 * DAY

  /** The map lookup weekdayByDay[d]; a name outside the map reads as Sunday. */
  function WeekdayOf(d: string): int {
    if d == "Mon" then 1
    else if d == "Tue" then 2
    else if d == "Wed" then 3
    else if d == "Thu" then 4
    else if d == "Fri" then 5
    else if d == "Sat" then 6
    else 0
  }

  /** Minutes since midnight of a zero-padded "HH:MM". */
  function ParseHHMM(s: string): (r: Option<int>)
    ensures r.Some? ==> 0 <= r.value < 1440
  {
    if |s| != 5 || s[2] != ':' then None
    else
      match (TwoAt(s, 0), TwoAt(s, 3))
      case (Some(h), Some(m)) => if h > 23 || m > 59 then None else Some(h * 60 + m)
      case _ => None
  }

  function PhaseFor(awake: bool): Phase { if awake then Awake else Asleep }

  // ---------- what "awake at t" means ----------

  ghost predicate Covers(w: Window, wd: int) { exists d :: d in w.days && WeekdayOf(d) == wd }

  /** The wall clock lies in the half-open span [from, to) of the window on `day`. */
  ghost predicate InWindow(w: Window, day: int, wall: int) {
    && Covers(w, Weekday(day))
    && ParseHHMM(w.from).Some? && ParseHHMM(w.to).Some?
    && Edge(day, ParseHHMM(w.from).value) <= wall < Edge(day, ParseHHMM(w.to).value)
  }

  ghost predicate AwakeReading(spec: SleepScheduleSpec, wall: int) {
    exists w, day :: w in spec.awake && InWindow(w, day, wall)
  }

  ghost predicate AwakeAt(spec: SleepScheduleSpec, z: Zone, t: int) { AwakeReading(spec, z.Wall(t)) }

  /** Some day of the window has a non-empty awake span. */
  ghost predicate NonEmpty(w: Window) {
    && w.days != []
    && ParseHHMM(w.from).Some? && ParseHHMM(w.to).Some?
    && ParseHHMM(w.from).value < ParseHHMM(w.to).value
  }

  ghost predicate IsEdgeMinute(w: Window, m: int) {
    ParseHHMM(w.from) == Some(m) || ParseHHMM(w.to) == Some(m)
  }

  /** Comparing whole minutes of the reading's own day decides the half-open span. */
  lemma WindowInMinutes(w: Window, day: int, wall: int)
    ensures InWindow(w, day, wall) <==>
            && day == DayNo(wall) && Covers(w, Weekday(day))
            && ParseHHMM(w.from).Some? && ParseHHMM(w.to).Some?
            && ParseHHMM(w.from).value <= MinuteOf(wall) < ParseHHMM(w.to).value
  {}

  // ---------- windows in the user's terms ----------

  const DAYS := ["Sun", "Mon", "Tue", "Wed", "Thu", "Fri", "Sat"]

  /** Day 1 is a Sunday, 2 January of year 0. A window covers a day when it names its weekday. */
  lemma CoversNamedDays(w: Window, day: int)
    requires forall d :: d in w.days ==> d in DAYS
    ensures Covers(w, Weekday(day)) <==> DAYS[(day - 1) % 7] in w.days
  {
    DayNames();
    forall d | d in w.days ensures WeekdayOf(d) == Weekday(day) <==> d == DAYS[(day - 1) % 7] {
      var i :| 0 <= i < 7 && DAYS[i] == d;
    }
  }

  lemma DayNames()
    ensures forall i :: 0 <= i < 7 ==> WeekdayOf(DAYS[i]) == i
    ensures forall i, j :: 0 <= i < j < 7 ==> DAYS[i] != DAYS[j]
  {
    assert forall i :: 0 <= i < 7 ==> |DAYS[i]| == 3;
    assert forall i :: 0 <= i < 7 ==> WeekdayOf(DAYS[i]) == i;
  }

  /** A time of day as the user writes it. */
  function HHMM(h: nat, m: nat): string
    requires h < 24 && m < 60
  {
    Two(h) + ":" + Two(m)
  }

  /** Such texts are read as minutes since midnight, and no others are. */
  lemma TimeReads(h: nat, m: nat)
    requires h < 24 && m < 60
    ensures ParseHHMM(HHMM(h, m)) == Some(60 * h + m)
  {
    TwoReadsBack(h, HHMM(h, m), 0);
    TwoReadsBack(m, HHMM(h, m), 3);
  }

  lemma OnlyTimesRead(s: string) returns (h: nat, m: nat)
    requires ParseHHMM(s).Some?
    ensures h < 24 && m < 60 && s == HHMM(h, m)
  {
    h, m := TwoAt(s, 0).value, TwoAt(s, 3).value;
  }

  /** A window with named days from h1:m1 to h2:m2 is open exactly on its weekdays, from the
      reading h1:m1 on and before the reading h2:m2. */
  lemma WindowOpens(w: Window, h1: nat, m1: nat, h2: nat, m2: nat, day: int, wall: int)
    requires h1 < 24 && m1 < 60 && h2 < 24 && m2 < 60 && w.from == HHMM(h1, m1) && w.to == HHMM(h2, m2)
    requires forall d :: d in w.days ==> d in DAYS
    ensures InWindow(w, day, wall) <==>
            && DAYS[(day - 1) % 7] in w.days
            && ((day * 24 + h1) * 60 + m1) * 60_000_000_000 <= wall < ((day * 24 + h2) * 60 + m2) * 60_000_000_000
  {
    TimeReads(h1, m1);
    TimeReads(h2, m2);
    CoversNamedDays(w, day);
  }

  // ---------- what the scan collects ----------

  function Keep(hhmm: string, z: Zone, day: int, after: int, limit: int): seq<int> {
    match ParseHHMM(hhmm)
    case None => []
    case Some(m) =>
      var b := z.Date(Edge(DayNo(z.Wall(day)), m));
      if after < b <= limit then [b] else []
  }

  ghost function WindowEdges(w: Window, z: Zone, day: int, after: int, limit: int): seq<int> {
    if Covers(w, Weekday(DayNo(z.Wall(day)))) then
      Keep(w.from, z, day, after, limit) + Keep(w.to, z, day, after, limit)
    else
      []
  }

  ghost function DayEdges(ws: seq<Window>, z: Zone, day: int, after: int, limit: int): seq<int> {
    if ws == [] then []
    else DayEdges(ws[..|ws| - 1], z, day, after, limit) + WindowEdges(ws[|ws| - 1], z, day, after, limit)
  }

  /** Every boundary collected by the day loop from `day` on. */
  ghost function ScanEdges(spec: SleepScheduleSpec, z: Zone, day: int, after: int, limit: int): seq<int>
    requires z.Valid() && z.SkipsLessThanADay()
    decreases limit - day
  {
    if day > limit then []
    else
      NextDayAdvances(z, day);
      DayEdges(spec.awake, z, day, after, limit) + ScanEdges(spec, z, z.NextDay(day), after, limit)
  }

  ghost function Boundaries(spec: SleepScheduleSpec, z: Zone, now: int): seq<int>
    requires z.Valid() && z.SkipsLessThanADay()
  {
    ScanEdges(spec, z, z.Date(Edge(DayNo(z.Wall(now)), 0)), now, now + HORIZON)
  }

  /** The outcome of Evaluate: the first collected boundary whose phase differs from now's. */
  ghost predicate IsEvaluation(spec: SleepScheduleSpec, z: Zone, now: int, r: Evaluation)
    requires z.Valid() && z.SkipsLessThanADay()
  {
    && r.awake == AwakeAt(spec, z, now)
    && r.phase == PhaseFor(r.awake)
    && (r.next.None? ==> forall b :: b in Boundaries(spec, z, now) ==> AwakeAt(spec, z, b) == r.awake)
    && (r.next.Some? ==>
          && r.next.value in Boundaries(spec, z, now)
          && AwakeAt(spec, z, r.next.value) != r.awake
          && forall b :: b in Boundaries(spec, z, now) && b < r.next.value ==> AwakeAt(spec, z, b) == r.awake)
  }
}
