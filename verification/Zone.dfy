/** A timezone over the scan horizon: one offset, or one jump between two offsets. */
module Zones {
  import opened Clock

  /** Offset `before` up to the instant `at`, offset `after` from it on.
      A constant-offset zone has before == after. */
  datatype Zone = Zone(before: int, at: int, after: int) {

    /** IANA offsets are whole seconds and shorter than a day. */
    ghost predicate Valid() {
      && -DAY < before < DAY && before % SECOND == 0
      && -DAY < after < DAY && after % SECOND == 0
    }

    /** The jump, if it goes forward, skips less than a whole day. */
    ghost predicate SkipsLessThanADay() { after - before < DAY }

    function Offset(t: int): int { if t < at then before else after }

    function Wall(t: int): int { t + Offset(t) }

    /** time.Date: look the wall clock up as if it were UTC, and look again when the
        instant found lies on the other side of the jump. */
    function Date(wall: int): int {
      var utc := wall - Offset(wall);
      if (utc < at) == (wall < at) then utc else wall - Offset(utc)
    }

    /** day.AddDate(0, 0, 1): same time of day on the next calendar day. */
    function NextDay(t: int): int {
      var wall := Wall(t);
      Date(Edge(DayNo(wall) + 1, 0) + TimeOfDay(wall))
    }

    /** The skipped or repeated span of wall-clock readings is [SpanLow, SpanHigh). */
    function SpanLow(): int { at + if before < after then before else after }

    function SpanHigh(): int { at + if before < after then after else before }

    /** The wall-clock reading is neither skipped nor repeated. */
    ghost predicate Clear(wall: int) { wall < SpanLow() || SpanHigh() <= wall }

    /** The clock was put back over this reading: two instants show it. */
    ghost predicate Repeated(wall: int) { at + after <= wall < at + before }

    /** Of a repeated reading, the instant that Date does not pick. */
    ghost function Twin(wall: int): int { if wall < at then wall - after else wall - before }
  }

  /** Date inverts Wall wherever the wall-clock reading names exactly one instant. */
  lemma DateIsTheUniqueInstant(z: Zone, t: int)
    requires forall u :: z.Wall(u) == z.Wall(t) ==> u == t
    ensures z.Date(z.Wall(t)) == t
  {
    var w := z.Wall(t);
    assert z.Wall(w - z.before) == w || w - z.before >= z.at;
    assert z.Wall(w - z.after) == w || w - z.after < z.at;
  }

  /** A clear reading splits the time line: it is reached by exactly one instant, before
      which every wall clock reads less and from which on every one reads at least it. */
  lemma ClearSplitsTime(z: Zone, wall: int, t: int)
    requires z.Clear(wall)
    ensures t < z.Date(wall) <==> z.Wall(t) < wall
    ensures z.Wall(z.Date(wall)) == wall
  {}

  /** No other reading does, except the very first of the span where Date picks the instant
      at which the clock first gets there, which the sign of one offset decides. */
  lemma SplitsTimeExactly(z: Zone, wall: int)
    ensures (forall t :: t < z.Date(wall) <==> z.Wall(t) < wall) <==>
            z.Clear(wall) || (wall == z.SpanLow() && if z.before < z.after then 0 <= z.before else z.after < 0)
  {
    if z.Clear(wall) {
      forall t ensures t < z.Date(wall) <==> z.Wall(t) < wall { ClearSplitsTime(z, wall, t); }
    } else if wall == z.SpanLow() && z.Date(wall) == wall - z.before {
      assert forall t :: t < z.Date(wall) <==> z.Wall(t) < wall;
    } else {
      var t := if z.Date(wall) == wall - z.before then z.at
               else if z.before < z.after then z.Date(wall)
               else wall - z.before;
      assert !(t < z.Date(wall) <==> z.Wall(t) < wall);
    }
  }

  /** The instants that show a reading: the one Date finds and, if it is repeated, its twin. */
  lemma ShownBy(z: Zone, wall: int, t: int)
    ensures z.Wall(t) == wall <==>
            (t == z.Date(wall) && (z.Clear(wall) || z.Repeated(wall))) || (z.Repeated(wall) && t == z.Twin(wall))
    ensures z.Repeated(wall) ==> z.Twin(wall) != z.Date(wall)
  {}

  /** The readings that Date places at the jump: the one shown there, and the first skipped or
      repeated one where the sign of the offset makes Date pick its later candidate. */
  lemma PlacedAtTheJump(z: Zone, wall: int)
    ensures z.Date(wall) == z.at <==>
            if z.before <= z.after then wall == z.at + z.after || (wall == z.at + z.before && 0 <= z.before)
            else wall == z.at + z.after && 0 <= z.after
  {}

  lemma NextDayKeepsTimeOfDay(z: Zone, t: int)
    ensures z.NextDay(t) == z.Date(z.Wall(t) + DAY)
  {}

  lemma NextDayAdvances(z: Zone, t: int)
    requires z.Valid() && z.SkipsLessThanADay()
    ensures z.NextDay(t) > t
  {}

  /** The day loop moves forward from every day exactly when no jump skips a whole day;
      with a longer skip it stays on the day before the jump for ever. */
  lemma DayStepProgress(z: Zone)
    requires z.Valid()
    ensures (forall t :: z.NextDay(t) > t) <==> z.SkipsLessThanADay()
  {
    if z.SkipsLessThanADay() {
      forall t ensures z.NextDay(t) > t { NextDayAdvances(z, t); }
    } else {
      NextDayKeepsTimeOfDay(z, z.at - DAY);
    }
  }

  /** Pacific/Apia crossed the date line by skipping 30 December 2011: the day loop of
      the boundary scan never leaves 29 December. */
  lemma DateLineJumpStallsTheScan()
    ensures var apia := Zone(-10 * HOUR, 734866 * DAY + 10 * HOUR, 14 * HOUR);
            apia.Valid() && apia.NextDay(apia.at - DAY) == apia.at - DAY
  {}
}
