/** Durations and instants. An instant is a number of nanoseconds since
    0000-01-01T00:00:00Z (a Saturday), so it is also the wall clock of UTC. */
module Clock {

  const SECOND: int := 1_000_000_000
  const MINUTE: int := 60_000_000_000
  const HOUR: int := 3_600_000_000_000
  const DAY: int := 86_400_000_000_000

  /** The start of the second holding t. */
  function Truncate(t: int): (s: int)
    ensures s <= t < s + SECOND && s % SECOND == 0
  {
    t - t % 1_000_000_000
  }

  lemma TruncateWhole(t: int)
    ensures (t / 1_000_000_000) * SECOND == Truncate(t)
  {}

  /** Calendar day of a wall-clock reading. */
  function DayNo(wall: int): int { wall / 86_400_000_000_000 }

  /** Nanoseconds since midnight of a wall-clock reading. */
  function TimeOfDay(wall: int): int { wall % 86_400_000_000_000 }

  /** Minutes since midnight, as Hour()*60 + Minute(). */
  function MinuteOf(wall: int): int { TimeOfDay(wall) / 60_000_000_000 }

  /** Sunday is 0, as in Go's time.Weekday. */
  function Weekday(day: int): (wd: int)
    ensures 0 <= wd < 7
  {
    (day + 6) % 7
  }

  /** The wall-clock reading of minute `m` on day `day`. */
  function Edge(day: int, m: int): int { day * 86_400_000_000_000 + m * 60_000_000_000 }

  lemma DayParts(wall: int)
    ensures wall == Edge(DayNo(wall), 0) + TimeOfDay(wall)
    ensures 0 <= TimeOfDay(wall) < DAY
    ensures Edge(DayNo(wall), 0) <= wall < Edge(DayNo(wall) + 1, 0)
  {}

}
