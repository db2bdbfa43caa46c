/** internal/wake and the wake part of the controller: the override value in the ConfigMap,
    from parsing over resolving and stamping to its behaviour over a whole run of passes. */
module Wake {
  import opened Wrappers
  import opened Clock
  import opened Decimal
  import opened Timestamp

  datatype Entry = NoExpiry | Relative(d: int) | Absolute(t: int)

  datatype Resolution = Resolution(expiry: int, changed: bool, clamped: bool)

  // ---------- internal/wake/parse.go ----------

  predicate IsSpace(c: char) { c == ' ' || ('\t' <= c <= '\r') }

  function TrimLeft(s: string): string {
    if s != [] && IsSpace(s[0]) then TrimLeft(s[1..]) else s
  }

  function TrimRight(s: string): string {
    if s != [] && IsSpace(s[|s| - 1]) then TrimRight(s[..|s| - 1]) else s
  }

  function TrimSpace(s: string): string { TrimRight(TrimLeft(s)) }

  /** The unit at the start of s, up to the next digit or point, and what follows. */
  function SplitUnit(s: string): (r: (string, string))
    ensures |r.1| <= |s|
  {
    if s == [] || IsDigit(s[0]) || s[0] == '.' then ("", s)
    else var (unit, rest) := SplitUnit(s[1..]); ([s[0]] + unit, rest)
  }

  function SplitNumber(s: string): (r: (string, string))
    ensures AllDigits(r.0) && |r.0| + |r.1| == |s|
  {
    if s == [] || !IsDigit(s[0]) then ("", s)
    else var (number, rest) := SplitNumber(s[1..]); ([s[0]] + number, rest)
  }

  function UnitOf(u: string): Option<nat> {
    if u == "ns" then Some(1)
    else if u == "us" then Some(1000)
    else if u == "ms" then Some(1_000_000)
    else if u == "s" then Some(SECOND)
    else if u == "m" then Some(MINUTE)
    else if u == "h" then Some(HOUR)
    else None
  }

  /** Nanoseconds of one "<number><unit>". */
  function Amount(number: string, unit: string): Option<nat> {
    if number == "" || !AllDigits(number) then None
    else match UnitOf(unit)
         case None => None
         case Some(u) => Some(Value(number) * u)
  }

  /** Nanoseconds of a run of whole numbers with units, such as "1h30m". */
  function Durations(s: string): Option<nat>
    decreases |s|
  {
    var (number, afterNumber) := SplitNumber(s);
    var (unit, rest) := SplitUnit(afterNumber);
    var here := Amount(number, unit);
    if here.None? || rest == "" then here
    else match Durations(rest)
         case None => None
         case Some(more) => Some(here.value + more)
  }

  /** time.ParseDuration after the sign; it fails beyond an int64 of nanoseconds. */
  function ParseDuration(s: string): Option<nat> {
    if s == "0" then Some(0)
    else match Durations(s)
         case None => None
         case Some(d) => if d < 0x8000_0000_0000_0000 then Some(d) else None
  }

  function ParseEntry(value: string): (r: Result<Entry>)
    ensures r.Ok? && r.value.Relative? ==> r.value.d > 0
  {
    var head := TrimSpace(value);
    if head == "" then Ok(NoExpiry)
    else if head[0] == '+' then
      match ParseDuration(head[1..])
      case None => Err
      case Some(d) => if d <= 0 then Err else Ok(Relative(d))
    else
      match ParseRFC3339(head)
      case None => Err
      case Some(t) => Ok(Absolute(t))
  }

  lemma {:induction false} SplitNumberReads(number: string, rest: string)
    requires AllDigits(number) && (rest == "" || !IsDigit(rest[0]))
    ensures SplitNumber(number + rest).0 == number && SplitNumber(number + rest).1 == rest
  {
    if number == "" {
      assert number + rest == rest;
    } else {
      SplitNumberReads(number[1..], rest);
      assert (number + rest)[1..] == number[1..] + rest;
    }
  }

  /** A duration as users write it: numbers with units, such as 1h30m. */
  type Parts = seq<(nat, string)>

  function DurationText(parts: Parts): string {
    if parts == [] then "" else Digits(parts[0].0) + parts[0].1 + DurationText(parts[1..])
  }

  ghost predicate KnownUnits(parts: Parts) { forall i :: 0 <= i < |parts| ==> UnitOf(parts[i].1).Some? }

  ghost function Total(parts: Parts): nat
    requires KnownUnits(parts)
  {
    if parts == [] then 0 else parts[0].0 * UnitOf(parts[0].1).value + Total(parts[1..])
  }

  /** "+1h30m" asks for an hour and a half: the sum of its parts, however many there are. */
  lemma RelativeReads(parts: Parts)
    requires parts != [] && KnownUnits(parts) && 0 < Total(parts) < 0x8000_0000_0000_0000
    ensures ParseEntry("+" + DurationText(parts)) == Ok(Relative(Total(parts)))
  {
    var text := DurationText(parts);
    DurationsRead(parts);
    EndsInAUnit(parts);
    TrimKeepsTight("+" + text);
    assert ("+" + text)[1..] == text;
  }

  /** One number and a unit: hours, minutes, seconds and their fractions have their sizes. */
  lemma UnitsHaveTheirSizes(n: nat, u: string, size: nat)
    requires (u, size) in {("h", 3_600_000_000_000), ("m", 60_000_000_000), ("s", 1_000_000_000),
                           ("ms", 1_000_000), ("us", 1000), ("ns", 1)}
    requires 0 < n * size < 0x8000_0000_0000_0000
    ensures ParseEntry("+" + Digits(n) + u) == Ok(Relative(n * size))
  {
    var parts: Parts := [(n, u)];
    assert UnitOf(u) == Some(size);
    assert parts[1..] == [] && Total(parts) == n * size;
    assert DurationText(parts) == Digits(n) + u;
    RelativeReads(parts);
    assert "+" + Digits(n) + u == "+" + (Digits(n) + u);
  }

  /** Any other unit is refused. */
  lemma OtherUnitsAreRefused(n: nat, u: string)
    requires u !in {"h", "m", "s", "ms", "us", "ns"} && n > 0
    requires forall i :: 0 <= i < |u| ==> !IsDigit(u[i]) && u[i] != '.' && !IsSpace(u[i])
    ensures ParseEntry("+" + (Digits(n) + u)).Err?
  {
    var text := Digits(n) + u;
    ValueOfDigits(n);
    SplitNumberReads(Digits(n), u);
    SplitUnitReads(u, "");
    assert u + "" == u;
    assert UnitOf(u).None?;
    assert Durations(text).None?;
    TrimKeepsTight("+" + text);
    assert ("+" + text)[1..] == text;
    assert Value("0") == 0;
  }

  /** "+1h30m" is an hour and a half. */
  lemma HoursAndMinutes(h: nat, m: nat)
    requires 0 < h * 3_600_000_000_000 + m * 60_000_000_000 < 0x8000_0000_0000_0000
    ensures ParseEntry("+" + (Digits(h) + "h" + (Digits(m) + "m"))) ==
            Ok(Relative(h * 3_600_000_000_000 + m * 60_000_000_000))
  {
    var minutes: Parts := [(m, "m")];
    var parts: Parts := [(h, "h")] + minutes;
    assert minutes[1..] == [] && parts[1..] == minutes;
    assert Total(minutes) == m * 60_000_000_000 && Total(parts) == h * 3_600_000_000_000 + Total(minutes);
    assert DurationText(minutes) == Digits(m) + "m" && DurationText(parts) == Digits(h) + "h" + DurationText(minutes);
    RelativeReads(parts);
  }

  lemma UnitHasNoDigit(u: string)
    requires UnitOf(u).Some?
    ensures u != "" && forall i :: 0 <= i < |u| ==> !IsDigit(u[i]) && u[i] != '.' && !IsSpace(u[i])
  {}

  lemma {:induction false} SplitUnitReads(u: string, rest: string)
    requires forall i :: 0 <= i < |u| ==> !IsDigit(u[i]) && u[i] != '.'
    requires rest == "" || IsDigit(rest[0])
    ensures SplitUnit(u + rest).0 == u && SplitUnit(u + rest).1 == rest
  {
    if u == "" {
      assert u + rest == rest;
    } else {
      SplitUnitReads(u[1..], rest);
      assert (u + rest)[1..] == u[1..] + rest;
    }
  }

  lemma StartsWithADigit(parts: Parts)
    ensures DurationText(parts) == "" || IsDigit(DurationText(parts)[0])
  {
    if parts != [] { ValueOfDigits(parts[0].0); }
  }

  lemma {:induction false} EndsInAUnit(parts: Parts)
    requires parts != [] && KnownUnits(parts)
    ensures var text := DurationText(parts); |text| > 1 && !IsDigit(text[|text| - 1]) && !IsSpace(text[|text| - 1])
  {
    ValueOfDigits(parts[0].0);
    UnitHasNoDigit(parts[0].1);
    if |parts| > 1 { EndsInAUnit(parts[1..]); }
  }

  lemma {:induction false} DurationsRead(parts: Parts)
    requires parts != [] && KnownUnits(parts)
    ensures Durations(DurationText(parts)) == Some(Total(parts))
  {
    var more := parts[1..];
    if more != [] {
      DurationsRead(more);
      EndsInAUnit(more);
    }
    ReadsWithTheRest(parts, DurationText(more));
  }

  lemma ReadsWithTheRest(parts: Parts, rest: string)
    requires parts != [] && KnownUnits(parts) && rest == DurationText(parts[1..])
    requires |parts| > 1 ==> rest != "" && Durations(rest) == Some(Total(parts[1..]))
    ensures Durations(DurationText(parts)) == Some(Total(parts))
  {
    TotalUnfold(parts);
    TextUnfold(parts);
    PartReads(parts[0].0, parts[0].1, parts[1..], Total(parts[1..]));
  }

  lemma TextUnfold(parts: Parts)
    requires parts != []
    ensures DurationText(parts) == Digits(parts[0].0) + (parts[0].1 + DurationText(parts[1..]))
  {}

  lemma PartReads(n: nat, u: string, more: Parts, y: nat)
    requires Amount(Digits(n), u).Some? && UnitOf(u).Some?
    requires if more == [] then y == 0 else DurationText(more) != "" && Durations(DurationText(more)) == Some(y)
    ensures Durations(Digits(n) + (u + DurationText(more))) == Some(Amount(Digits(n), u).value + y)
  {
    PartSplits(n, u, more);
    DurationsUnfold(Digits(n) + (u + DurationText(more)), Digits(n), u, DurationText(more));
  }

  lemma TotalUnfold(parts: Parts)
    requires parts != [] && KnownUnits(parts)
    ensures KnownUnits(parts[1..]) && Amount(Digits(parts[0].0), parts[0].1).Some?
    ensures Total(parts) == Amount(Digits(parts[0].0), parts[0].1).value + Total(parts[1..])
  {
    AmountReads(parts[0].0, parts[0].1);
  }

  lemma AmountReads(n: nat, u: string)
    requires UnitOf(u).Some?
    ensures Amount(Digits(n), u) == Some(n * UnitOf(u).value)
  {
    ValueOfDigits(n);
  }

  lemma PartSplits(n: nat, u: string, more: Parts)
    requires UnitOf(u).Some?
    ensures var rest := DurationText(more);
            && SplitNumber(Digits(n) + (u + rest)).0 == Digits(n) && SplitNumber(Digits(n) + (u + rest)).1 == u + rest
            && SplitUnit(u + rest).0 == u && SplitUnit(u + rest).1 == rest
  {
    UnitHasNoDigit(u);
    StartsWithADigit(more);
    SplitNumberReads(Digits(n), u + DurationText(more));
    SplitUnitReads(u, DurationText(more));
  }

  lemma DurationsUnfold(s: string, number: string, u: string, rest: string)
    requires SplitNumber(s).0 == number && SplitNumber(s).1 == u + rest
    requires SplitUnit(u + rest).0 == u && SplitUnit(u + rest).1 == rest && Amount(number, u).Some?
    ensures rest == "" ==> Durations(s) == Amount(number, u)
    ensures rest != "" && Durations(rest).Some? ==>
              Durations(s) == Some(Amount(number, u).value + Durations(rest).value)
  {}

  lemma TrimKeepsTight(s: string)
    requires s != [] && !IsSpace(s[0]) && !IsSpace(s[|s| - 1])
    ensures TrimSpace(s) == s
  {}

  /** Blanks, tabs and line ends. */
  ghost predicate White(s: string) {
    forall i :: 0 <= i < |s| ==> s[i] == ' ' || s[i] == '\t' || s[i] == '\n' || s[i] == '\r' || 11 <= s[i] as int <= 12
  }

  /** White space around a value does not matter, and a value of white space asks for no expiry. */
  lemma WhiteSpaceIsTrimmed(left: string, s: string, right: string)
    requires White(left) && White(right) && s != "" && !IsSpace(s[0]) && !IsSpace(s[|s| - 1])
    ensures ParseEntry(left + s + right) == ParseEntry(s) && ParseEntry(left) == Ok(NoExpiry)
  {
    TrimLeftDrops(left, s + right);
    TrimRightDrops(s, right);
    assert left + s + right == left + (s + right);
    TrimKeepsTight(s);
    WhiteIsTrimmed(left);
  }

  lemma {:induction false} TrimLeftDrops(left: string, s: string)
    requires White(left) && s != "" && !IsSpace(s[0])
    ensures TrimLeft(left + s) == s
  {
    if left == "" {
      assert left + s == s;
    } else {
      assert (left + s)[1..] == left[1..] + s;
      TrimLeftDrops(left[1..], s);
    }
  }

  lemma {:induction false} TrimRightDrops(s: string, right: string)
    requires White(right) && s != "" && !IsSpace(s[|s| - 1])
    ensures TrimRight(s + right) == s
  {
    if right == "" {
      assert s + right == s;
    } else {
      var n := |right| - 1;
      assert (s + right)[..|s + right| - 1] == s + right[..n];
      TrimRightDrops(s, right[..n]);
    }
  }

  lemma {:induction false} WhiteIsTrimmed(s: string)
    requires White(s)
    ensures TrimLeft(s) == "" && TrimSpace(s) == ""
  {
    if s != "" {
      WhiteIsTrimmed(s[1..]);
    }
  }

  // ---------- internal/wake/resolve.go ----------

  /** The expiry an entry asks for, before the cap; none without a configured default. */
  function Wanted(e: Entry, now: int, def: int): Option<int> {
    match e
    case Relative(d) => Some(now + d)
    case Absolute(t) => Some(t)
    case NoExpiry => if def <= 0 then None else Some(now + def)
  }

  function Resolve(e: Entry, now: int, def: int, max: int): Result<Resolution> {
    match Wanted(e, now, def)
    case None => Err
    case Some(exp) =>
      if max > 0 && exp > now + max then Ok(Resolution(now + max, true, true))
      else Ok(Resolution(exp, !e.Absolute?, false))
  }

  /** The cap is a minimum, and only an absolute expiry within it leaves the value as it is. */
  lemma ResolveIsCappedWish(e: Entry, now: int, def: int, max: int)
    ensures Resolve(e, now, def, max).Err? <==> e.NoExpiry? && def <= 0
    ensures Resolve(e, now, def, max).Ok? ==>
              var r := Resolve(e, now, def, max).value;
              var wish := if e.Relative? then now + e.d else if e.Absolute? then e.t else now + def;
              && r.expiry == (if 0 < max < wish - now then now + max else wish)
              && (r.clamped <==> r.expiry < wish)
              && (!r.changed <==> e == Absolute(r.expiry))
  {}

  // ---------- one pass over the value in the ConfigMap ----------

  /** What the operator reads under the wake key. */
  datatype Reading = Absent | Malformed | Entered(e: Entry)

  function Read(raw: Option<string>): Reading {
    if raw.None? then Absent
    else match ParseEntry(raw.value)
         case Err => Malformed
         case Ok(e) => Entered(e)
  }

  /** What a pass writes: nothing, the formatted expiry, or the removal of the key. */
  datatype Effect = Keep | Stamp(expiry: nat) | Drop

  /** Number of active overrides and the soonest expiry. */
  datatype WakeState = WakeState(activeCount: nat, earliest: Option<int>)

  const INACTIVE := WakeState(0, None)

  /** processWakeEntries after reading the value. */
  function Decide(r: Reading, now: nat, def: int, max: int): (Effect, WakeState) {
    if !r.Entered? then (Keep, INACTIVE)
    else
      match Resolve(r.e, now, def, max)
      case Err => (Keep, INACTIVE)
      case Ok(res) =>
        if res.expiry <= now then (Drop, INACTIVE)
        else (if res.changed then Stamp(res.expiry) else Keep, WakeState(1, Some(res.expiry)))
  }

  function Written(raw: Option<string>, e: Effect): Option<string> {
    match e
    case Keep => raw
    case Stamp(expiry) => Some(FormatExpiry(expiry))
    case Drop => None
  }

  // ---------- passes without user writes ----------

  /** One pass: its clock, the configured durations, and whether its ConfigMap update succeeds. */
  datatype Pass = Pass(now: nat, def: int, max: int, updateOk: bool)

  function Outcome(r: Reading, p: Pass): (Effect, WakeState) { Decide(r, p.now, p.def, p.max) }

  function After(raw: Option<string>, p: Pass): Option<string> {
    if p.updateOk then Written(raw, Outcome(Read(raw), p).0) else raw
  }

  /** A pass whose update fails ends in an error and counts nothing. */
  predicate Succeeds(r: Reading, p: Pass) { Outcome(r, p).0.Keep? || p.updateOk }

  predicate CountsActive(r: Reading, p: Pass) { Succeeds(r, p) && Outcome(r, p).1.activeCount > 0 }

  /** The pass parses and resolves the value, and writes what it has to. */
  predicate Processes(r: Reading, p: Pass) {
    Succeeds(r, p) && r.Entered? && Resolve(r.e, p.now, p.def, p.max).Ok?
  }

  /** A stamped expiry reads back truncated to the second, and not at all from year 10000. */
  ghost function Stamped(expiry: nat): Reading {
    if expiry < END then Entered(Absolute(Truncate(expiry))) else Malformed
  }

  ghost function AfterReading(r: Reading, p: Pass): Reading {
    match Outcome(r, p).0
    case Keep => r
    case Stamp(expiry) => if p.updateOk then Stamped(expiry) else r
    case Drop => if p.updateOk then Absent else r
  }

  lemma StampReadsBack(expiry: nat)
    ensures Read(Some(FormatExpiry(expiry))) == Stamped(expiry)
  {
    var s, c := FormatExpiry(expiry), ToCivil(expiry / 1_000_000_000);
    assert IsDigit(YearText(c.year)[0]) && s[0] == YearText(c.year)[0];
    assert s[|s| - 1] == AfterYear(c)[15] == 'Z';
    TrimKeepsTight(s);
    FormatParseRoundTrip(expiry);
  }

  lemma ReadAfter(raw: Option<string>, p: Pass)
    ensures Read(After(raw, p)) == AfterReading(Read(raw), p)
    ensures Outcome(Read(raw), p).0.Keep? ==> After(raw, p) == raw
  {
    match Outcome(Read(raw), p).0
    case Stamp(expiry) => StampReadsBack(expiry);
    case _ =>
  }

  // ---------- what one pass does to a reading ----------

  /** The value can no longer keep anything awake from `limit` on: it is gone, unreadable,
      or an absolute expiry no later than `limit`. */
  predicate BoundedBy(r: Reading, limit: int) {
    r.Entered? ==> r.e.Absolute? && r.e.t <= limit
  }

  /** Whatever the clock, the cap and the default do, a bound on the value survives a pass. */
  lemma PassKeepsBound(r: Reading, p: Pass, limit: int)
    requires BoundedBy(r, limit)
    ensures BoundedBy(AfterReading(r, p), limit)
    ensures CountsActive(r, p) ==> p.now < Outcome(r, p).1.earliest.value <= limit
  {}

  /** The pass that processes a value caps it at now + max. */
  lemma ProcessingBounds(r: Reading, p: Pass)
    requires Processes(r, p) && p.max > 0
    ensures BoundedBy(AfterReading(r, p), p.now + p.max)
    ensures CountsActive(r, p) ==> p.now < Outcome(r, p).1.earliest.value <= p.now + p.max
  {}

  /** An absolute value within the cap is left as it is while it lasts. */
  lemma ActiveAbsoluteIsKept(r: Reading, p: Pass, t: int)
    requires r == Entered(Absolute(t)) && p.now < t && (p.max > 0 ==> t <= p.now + p.max)
    ensures CountsActive(r, p) && Outcome(r, p) == (Keep, WakeState(1, Some(t)))
  {}

  /** Dropping the fraction ends an override less than a second early: later passes under the
      same cap count it active exactly up to the truncated expiry, and then remove it. */
  lemma StampedOverrideLasts(r: Reading, p: Pass, q: Pass, expiry: nat)
    requires Outcome(r, p).0 == Stamp(expiry) && p.updateOk && expiry < END
    requires p.now <= q.now && q.max == p.max
    ensures Outcome(AfterReading(r, p), q) ==
            if q.now < Truncate(expiry) then (Keep, WakeState(1, Some(Truncate(expiry)))) else (Drop, INACTIVE)
    ensures expiry - SECOND < Truncate(expiry) <= expiry
  {}

  // ---------- runs ----------

  /** vs[k] is the value before pass k of a run, and vs[k + 1] the one after it. */
  ghost predicate IsRun(vs: seq<Option<string>>, ps: seq<Pass>) {
    |vs| == |ps| + 1 && forall k :: 0 <= k < |ps| ==> vs[k + 1] == After(vs[k], ps[k])
  }

  ghost predicate IsReadingRun(rs: seq<Reading>, ps: seq<Pass>) {
    |rs| == |ps| + 1 && forall k :: 0 <= k < |ps| ==> rs[k + 1] == AfterReading(rs[k], ps[k])
  }

  ghost function Readings(vs: seq<Option<string>>): seq<Reading> {
    seq(|vs|, k requires 0 <= k < |vs| => Read(vs[k]))
  }

  lemma RunReads(vs: seq<Option<string>>, ps: seq<Pass>)
    requires IsRun(vs, ps)
    ensures IsReadingRun(Readings(vs), ps)
  {
    forall k | 0 <= k < |ps| ensures Readings(vs)[k + 1] == AfterReading(Readings(vs)[k], ps[k]) {
      ReadAfter(vs[k], ps[k]);
    }
  }

  predicate ClockNondecreasing(ps: seq<Pass>) {
    forall i, j :: 0 <= i <= j < |ps| ==> ps[i].now <= ps[j].now
  }

  lemma {:induction false} RunKeepsBound(rs: seq<Reading>, ps: seq<Pass>, i: nat, j: nat, limit: int)
    requires IsReadingRun(rs, ps) && i <= j <= |ps| && BoundedBy(rs[i], limit)
    ensures BoundedBy(rs[j], limit)
    decreases j - i
  {
    if i < j {
      PassKeepsBound(rs[i], ps[i], limit);
      RunKeepsBound(rs, ps, i + 1, j, limit);
    }
  }

  /** Wake is bounded: once pass i has processed the value, every pass that counts the
      override active does so before i's clock plus the cap. The cap in force at pass i is
      what counts; later caps, defaults and failing updates cannot extend it. */
  lemma WakeBounded(vs: seq<Option<string>>, ps: seq<Pass>, i: nat, j: nat)
    requires IsRun(vs, ps) && i <= j < |ps| && ps[i].max > 0
    requires Processes(Read(vs[i]), ps[i]) && CountsActive(Read(vs[j]), ps[j])
    ensures ps[j].now < ps[i].now + ps[i].max
  {
    RunReads(vs, ps);
    ReadingBounded(Readings(vs), ps, i, j);
  }

  lemma ReadingBounded(rs: seq<Reading>, ps: seq<Pass>, i: nat, j: nat)
    requires IsReadingRun(rs, ps) && i <= j < |ps| && ps[i].max > 0
    requires Processes(rs[i], ps[i]) && CountsActive(rs[j], ps[j])
    ensures ps[j].now < ps[i].now + ps[i].max
  {
    var limit := ps[i].now + ps[i].max;
    ProcessingBounds(rs[i], ps[i]);
    if i < j {
      RunKeepsBound(rs, ps, i + 1, j, limit);
      PassKeepsBound(rs[j], ps[j], limit);
    }
  }

  /** No re-extension: from an absolute value on, every later readable value is absolute
      and no later, under any clock and any edit of the durations. */
  lemma NoReextension(vs: seq<Option<string>>, ps: seq<Pass>, i: nat, j: nat, t: int)
    requires IsRun(vs, ps) && i <= j <= |ps| && Read(vs[i]) == Entered(Absolute(t))
    ensures BoundedBy(Read(vs[j]), t)
  {
    RunReads(vs, ps);
    RunKeepsBound(Readings(vs), ps, i, j, t);
  }

  /** Once deleted the value never reappears. */
  lemma {:induction false} DeletedStaysDeleted(vs: seq<Option<string>>, ps: seq<Pass>, i: nat, j: nat)
    requires IsRun(vs, ps) && i <= j <= |ps| && vs[i].None?
    ensures vs[j].None?
    decreases j - i
  {
    if i < j { DeletedStaysDeleted(vs, ps, i + 1, j); }
  }

  /** With a fixed cap and a nondecreasing clock the value left by a processing pass stays
      exactly as it is, and active, until its expiry. */
  lemma UnchangedUntilExpiry(vs: seq<Option<string>>, ps: seq<Pass>, i: nat, j: nat, t: int)
    requires IsRun(vs, ps) && i < j <= |ps| && ClockNondecreasing(ps)
    requires forall k :: i <= k < |ps| ==> ps[k].max == ps[i].max
    requires Processes(Read(vs[i]), ps[i]) && Read(vs[i + 1]) == Entered(Absolute(t))
    requires forall k :: i < k < j ==> ps[k].now < t
    ensures vs[j] == vs[i + 1]
    ensures forall k :: i < k < j ==> vs[k] == vs[i + 1] && CountsActive(Read(vs[k]), ps[k])
  {
    ReadAfter(vs[i], ps[i]);
    if ps[i].max > 0 { ProcessingBounds(Read(vs[i]), ps[i]); }
    KeptUntilExpiry(vs, ps, i + 1, j, t, if ps[i].max > 0 then ps[i].now + ps[i].max else t);
  }

  lemma {:induction false} KeptUntilExpiry(vs: seq<Option<string>>, ps: seq<Pass>, i: nat, j: nat, t: int, cap: int)
    requires IsRun(vs, ps) && i <= j <= |ps| && Read(vs[i]) == Entered(Absolute(t)) && t <= cap
    requires forall k :: i <= k < j ==> ps[k].now < t && (ps[k].max > 0 ==> cap <= ps[k].now + ps[k].max)
    ensures vs[j] == vs[i]
    ensures forall k :: i <= k < j ==> vs[k] == vs[i] && CountsActive(Read(vs[k]), ps[k])
    decreases j - i
  {
    if i < j {
      KeptByAPass(vs[i], ps[i], t);
      assert vs[i + 1] == After(vs[i], ps[i]);
      KeptUntilExpiry(vs, ps, i + 1, j, t, cap);
    }
  }

  lemma KeptByAPass(raw: Option<string>, p: Pass, t: int)
    requires Read(raw) == Entered(Absolute(t)) && p.now < t && (p.max > 0 ==> t <= p.now + p.max)
    ensures After(raw, p) == raw && CountsActive(Read(raw), p)
  {
    ActiveAbsoluteIsKept(Read(raw), p, t);
    ReadAfter(raw, p);
  }
}
