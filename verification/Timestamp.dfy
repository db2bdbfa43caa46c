/** RFC 3339 timestamps (section 5.6): the form the operator writes, and the parser that reads it back. */
module Timestamp {
  import opened Wrappers
  import opened Clock
  import opened Decimal

  // ---------- proleptic Gregorian calendar ----------

  predicate Leap(y: nat) { y % 4 == 0 && (y % 100 != 0 || y % 400 == 0) }

  function DaysInYear(y: nat): nat { if Leap(y) then 366 else 365 }

  function DaysIn(y: nat, m: nat): (d: nat)
    requires 1 <= m <= 12
    ensures 28 <= d <= 31
  {
    if m == 2 then (if Leap(y) then 29 else 28)
    else if m == 4 || m == 6 || m == 9 || m == 11 then 30
    else 31
  }

  function DaysBeforeYear(y: nat): nat {
    if y == 0 then 0 else DaysBeforeYear(y - 1) + DaysInYear(y - 1)
  }

  function DaysBeforeMonth(y: nat, m: nat): nat
    requires 1 <= m <= 13
  {
    if m == 1 then 0 else DaysBeforeMonth(y, m - 1) + DaysIn(y, m - 1)
  }

  lemma MonthsFillTheYear(y: nat)
    ensures DaysBeforeMonth(y, 13) == DaysInYear(y)
  {
    var february := DaysIn(y, 2);
    assert DaysBeforeMonth(y, 1) == 0;
    assert DaysBeforeMonth(y, 2) == 31;
    assert DaysBeforeMonth(y, 3) == 31 + february;
    assert DaysBeforeMonth(y, 4) == 62 + february;
    assert DaysBeforeMonth(y, 5) == 92 + february;
    assert DaysBeforeMonth(y, 6) == 123 + february;
    assert DaysBeforeMonth(y, 7) == 153 + february;
    assert DaysBeforeMonth(y, 8) == 184 + february;
    assert DaysBeforeMonth(y, 9) == 215 + february;
    assert DaysBeforeMonth(y, 10) == 245 + february;
    assert DaysBeforeMonth(y, 11) == 276 + february;
    assert DaysBeforeMonth(y, 12) == 306 + february;
  }

  lemma {:induction false} YearsAscend(y: nat, y': nat)
    requires y <= y'
    ensures DaysBeforeYear(y) <= DaysBeforeYear(y')
  {
    if y < y' { YearsAscend(y, y' - 1); }
  }

  lemma {:induction false} MonthsAscend(y: nat, m: nat, m': nat)
    requires 1 <= m <= m' <= 13
    ensures DaysBeforeMonth(y, m) <= DaysBeforeMonth(y, m')
  {
    if m < m' { MonthsAscend(y, m, m' - 1); }
  }

  /** The year holding `rest` days after the start of `y`, and the day within it. */
  function YearFrom(y: nat, rest: nat): (r: (nat, nat))
    ensures DaysBeforeYear(r.0) + r.1 == DaysBeforeYear(y) + rest && r.1 < DaysInYear(r.0)
    decreases rest
  {
    if rest < DaysInYear(y) then (y, rest) else YearFrom(y + 1, rest - DaysInYear(y))
  }

  /** The month holding day `rest` after the start of month `m`, and the day within it. */
  function MonthFrom(y: nat, m: nat, rest: nat): (r: (nat, nat))
    requires 1 <= m <= 12 && DaysBeforeMonth(y, m) + rest < DaysBeforeMonth(y, 13)
    ensures 1 <= r.0 <= 12 && r.1 < DaysIn(y, r.0)
    ensures DaysBeforeMonth(y, r.0) + r.1 == DaysBeforeMonth(y, m) + rest
    decreases rest
  {
    if rest < DaysIn(y, m) then (m, rest)
    else MonthFrom(y, m + 1, rest - DaysIn(y, m))
  }

  datatype Civil = Civil(year: nat, month: nat, day: nat, second: nat) {
    /** A real calendar date and time of day. */
    predicate Valid() {
      1 <= month <= 12 && 1 <= day <= DaysIn(year, month) && second < 86400
    }
  }

  /** Seconds since 0000-01-01T00:00:00Z. */
  function Seconds(c: Civil): int
    requires c.Valid()
  {
    86400 * (DaysBeforeYear(c.year) + DaysBeforeMonth(c.year, c.month) + c.day - 1) + c.second
  }

  function ToCivil(seconds: nat): (c: Civil)
    ensures c.Valid() && Seconds(c) == seconds
  {
    var (y, yday) := YearFrom(0, seconds / 86400);
    MonthsFillTheYear(y);
    var (m, mday) := MonthFrom(y, 1, yday);
    Civil(y, m, mday + 1, seconds % 86400)
  }

  // ---------- writing ----------

  /** expiry.UTC().Format(time.RFC3339): fractions of a second are dropped. */
  function FormatExpiry(t: nat): string {
    Text(ToCivil(t / 1_000_000_000))
  }

  function Text(c: Civil): string
    requires c.Valid()
  {
    YearText(c.year) + AfterYear(c)
  }

  /** At least four digits. */
  function YearText(y: nat): (s: string)
    ensures y < 10000 ==> |s| == 4
  {
    if y < 10000 then Two(y / 100) + Two(y % 100) else Digits(y)
  }

  /** "-MM-DDThh:mm:ssZ" */
  function AfterYear(c: Civil): (s: string)
    requires c.Valid()
    ensures |s| == 16
  {
    "-" + Two(c.month) + "-" + Two(c.day) + "T" +
    Two(c.second / 3600) + ":" + Two(c.second / 60 % 60) + ":" + Two(c.second % 60) + "Z"
  }

  // ---------- reading ----------

  /** Nanoseconds of the digits after the decimal point; digits past the ninth are dropped. */
  function Fraction(digits: string): nat
    requires AllDigits(digits)
  {
    if |digits| >= 9 then Value(digits[..9]) else Value(digits) * Pow10(9 - |digits|)
  }

  /** "Z" or a signed "hh:mm", in seconds east of UTC. */
  function ParseOffset(s: string): Option<int> {
    if s == "Z" then Some(0)
    else if |s| == 6 && (s[0] == '+' || s[0] == '-') && s[3] == ':' then
      match (TwoAt(s, 1), TwoAt(s, 4))
      case (Some(h), Some(m)) =>
        var east: int := h * 3600 + m * 60;
        if h < 24 && m < 60 then Some(if s[0] == '-' then -east else east) else None
      case _ => None
    else None
  }

  /** What follows the seconds: an optional fraction, in nanoseconds, and the offset in seconds. */
  function ParseTail(tail: string): Option<(nat, int)>
    requires tail != []
  {
    var run := if tail[0] == '.' then DigitRun(tail[1..]) else 0;
    var fraction := if run > 0 then Fraction(tail[1..][..run]) else 0;
    match ParseOffset(if run > 0 then tail[1 + run..] else tail)
    case Some(offset) => Some((fraction, offset))
    case None => None
  }

  function ParseDate(s: string): Option<(nat, nat, nat)>
    requires |s| >= 20
  {
    match (TwoAt(s, 0), TwoAt(s, 2), TwoAt(s, 5), TwoAt(s, 8))
    case (Some(c), Some(y), Some(m), Some(d)) =>
      if s[4] == '-' && s[7] == '-' && s[10] == 'T' then Some((100 * c + y, m, d)) else None
    case _ => None
  }

  function ParseTime(s: string): Option<nat>
    requires |s| >= 20
  {
    match (TwoAt(s, 11), TwoAt(s, 14), TwoAt(s, 17))
    case (Some(h), Some(m), Some(sec)) =>
      if s[13] == ':' && s[16] == ':' && h < 24 && m < 60 && sec < 60 then Some(h * 3600 + m * 60 + sec) else None
    case _ => None
  }

  /** time.Parse(time.RFC3339, s). */
  function ParseRFC3339(s: string): Option<int> {
    if |s| < 20 then None
    else
      match (ParseDate(s), ParseTime(s), ParseTail(s[19..]))
      case (Some((y, m, d)), Some(second), Some((fraction, offset))) =>
        var c := Civil(y, m, d, second);
        if c.Valid() then Some((Seconds(c) - offset) * SECOND + fraction) else None
      case _ => None
  }

  // ---------- round trip ----------

  /** The first instant of year 10000, which RFC 3339 cannot write. */
  ghost const END: nat := DaysBeforeYear(10000) * 86400 * SECOND

  /** A timestamp is in years 0 to 9999 exactly when it lies before END. */
  lemma YearInRange(c: Civil)
    requires c.Valid()
    ensures c.year < 10000 <==> Seconds(c) < DaysBeforeYear(10000) * 86400
  {
    if c.year < 10000 {
      MonthsFillTheYear(c.year);
      MonthsAscend(c.year, c.month + 1, 13);
      YearsAscend(c.year + 1, 10000);
    } else {
      YearsAscend(10000, c.year);
    }
  }

  lemma BeforeEnd(t: nat)
    ensures t < END <==> t / 1_000_000_000 < DaysBeforeYear(10000) * 86400
  {}

  /** Reading a written expiry gives the instant truncated to the second; an expiry from
      year 10000 on is written in a form that no longer reads as a timestamp. */
  lemma FormatParseRoundTrip(t: nat)
    ensures t < END ==> ParseRFC3339(FormatExpiry(t)) == Some(Truncate(t))
    ensures t >= END ==> ParseRFC3339(FormatExpiry(t)) == None
  {
    var c := ToCivil(t / 1_000_000_000);
    BeforeEnd(t);
    TruncateWhole(t);
    TextParses(c);
    YearInRange(c);
  }

  lemma TextParses(c: Civil)
    requires c.Valid()
    ensures ParseRFC3339(Text(c)) == if c.year < 10000 then Some(Seconds(c) * SECOND) else None
  {
    if c.year < 10000 {
      DateParses(c, Text(c));
      TimeParses(c, Text(c));
      assert Text(c)[19..] == "Z";
    } else {
      LongYearFails(c.year, AfterYear(c));
    }
  }

  lemma LongYearFails(y: nat, rest: string)
    requires y >= 10000
    ensures ParseRFC3339(YearText(y) + rest) == None
  {
    assert Pow10(2) == 100 && Pow10(4) == 100 * Pow10(2);
    DigitsLength(y, 4);
    assert (Digits(y) + rest)[4] == Digits(y)[4] && IsDigit(Digits(y)[4]);
  }

  lemma DateParses(c: Civil, s: string)
    requires c.Valid() && c.year < 10000 && s == Text(c)
    ensures |s| == 20 && ParseDate(s) == Some((c.year, c.month, c.day))
  {}

  lemma TimeParses(c: Civil, s: string)
    requires c.Valid() && c.year < 10000 && s == Text(c)
    ensures |s| == 20 && ParseTime(s) == Some(c.second)
  {
    assert forall i :: 0 <= i < 16 ==> s[4 + i] == AfterYear(c)[i];
    TimeOfDayParts(c.second);
    TwoReadsBack(c.second / 3600, s, 11);
    TwoReadsBack(c.second / 60 % 60, s, 14);
    TwoReadsBack(c.second % 60, s, 17);
  }

  lemma TimeOfDayParts(second: nat)
    requires second < 86400
    ensures second / 3600 < 24 && second / 3600 * 3600 + second / 60 % 60 * 60 + second % 60 == second
  {}

  // ---------- the calendar and the texts in closed form ----------

  /** 365 days a year and a leap day in every fourth, but not the hundredth, but the four hundredth. */
  lemma {:induction false} LeapYears(y: nat)
    ensures DaysBeforeYear(y) == 365 * y + (y + 3) / 4 - (y + 99) / 100 + (y + 399) / 400
  {
    if y > 0 {
      LeapYears(y - 1);
      LeapSteps(y - 1);
    }
  }

  lemma LeapSteps(n: nat)
    ensures (n + 4) / 4 - (n + 3) / 4 == if n % 4 == 0 then 1 else 0
    ensures (n + 100) / 100 - (n + 99) / 100 == if n % 100 == 0 then 1 else 0
    ensures (n + 400) / 400 - (n + 399) / 400 == if n % 400 == 0 then 1 else 0
    ensures n % 100 == 0 ==> n % 4 == 0
    ensures n % 400 == 0 ==> n % 100 == 0
  {
    StepOfFour(n);
    StepOfHundred(n);
    StepOfFourHundred(n);
  }

  lemma StepOfFour(n: nat)
    ensures (n + 4) / 4 - (n + 3) / 4 == if n % 4 == 0 then 1 else 0
  {}

  lemma StepOfHundred(n: nat)
    ensures (n + 100) / 100 - (n + 99) / 100 == if n % 100 == 0 then 1 else 0
    ensures n % 100 == 0 ==> n % 4 == 0
  {
    HundredAt(n / 100, n % 100);
    if n % 100 == 0 { assert n == 4 * (25 * (n / 100)); }
  }

  lemma HundredAt(q: nat, r: nat)
    requires r < 100
    ensures (100 * q + r + 100) / 100 == q + 1
    ensures (100 * q + r + 99) / 100 == if r == 0 then q else q + 1
  {}

  lemma StepOfFourHundred(n: nat)
    ensures (n + 400) / 400 - (n + 399) / 400 == if n % 400 == 0 then 1 else 0
    ensures n % 400 == 0 ==> n % 100 == 0
  {
    FourHundredAt(n / 400, n % 400);
    if n % 400 == 0 { assert n == 100 * (4 * (n / 400)); }
  }

  lemma FourHundredAt(q: nat, r: nat)
    requires r < 400
    ensures (400 * q + r + 400) / 400 == q + 1
    ensures (400 * q + r + 399) / 400 == if r == 0 then q else q + 1
  {}

  /** Monday, 2 March 2026 is day 740042. */
  lemma March2026()
    ensures Seconds(Civil(2026, 3, 2, 0)) == 740042 * 86400
  {
    LeapYears(2026);
    assert DaysBeforeYear(2026) == 739982;
    assert DaysBeforeMonth(2026, 2) == 31;
    assert DaysBeforeMonth(2026, 3) == 59;
  }

  lemma WithinItsYear(c: Civil)
    requires c.Valid()
    ensures 86400 * DaysBeforeYear(c.year) <= Seconds(c) < 86400 * DaysBeforeYear(c.year + 1)
  {
    MonthsFillTheYear(c.year);
    MonthsAscend(c.year, c.month + 1, 13);
  }

  /** A date and time of day is determined by its seconds. */
  lemma CivilUnique(c: Civil, d: Civil)
    requires c.Valid() && d.Valid() && Seconds(c) == Seconds(d)
    ensures c == d
  {
    WithinItsYear(c);
    WithinItsYear(d);
    if c.year < d.year {
      YearsAscend(c.year + 1, d.year);
    } else if d.year < c.year {
      YearsAscend(d.year + 1, c.year);
    } else {
      SameYearUnique(c, d);
    }
  }

  lemma SameYearUnique(c: Civil, d: Civil)
    requires c.Valid() && d.Valid() && Seconds(c) == Seconds(d) && c.year == d.year
    ensures c == d
  {
    if c.month < d.month {
      MonthsAscend(c.year, c.month + 1, d.month);
    } else if d.month < c.month {
      MonthsAscend(c.year, d.month + 1, c.month);
    }
  }

  /** An instant in second h:m:s of a date is written year-month-dayTh:m:sZ. */
  lemma ExpiryText(year: nat, month: nat, day: nat, h: nat, m: nat, s: nat, fraction: nat)
    requires year < 10000 && 1 <= month <= 12 && 1 <= day <= DaysIn(year, month)
    requires h < 24 && m < 60 && s < 60 && fraction < SECOND
    ensures var c := Civil(year, month, day, h * 3600 + m * 60 + s);
            && Seconds(c) >= 0
            && FormatExpiry(Seconds(c) * SECOND + fraction) ==
               Two(year / 100) + Two(year % 100) +
               ("-" + Two(month) + "-" + Two(day) + "T" + Two(h) + ":" + Two(m) + ":" + Two(s) + "Z")
  {
    var c := Civil(year, month, day, h * 3600 + m * 60 + s);
    WholeSecond(Seconds(c), fraction);
    CivilUnique(c, ToCivil(Seconds(c)));
    AfterYearText(c, h, m, s);
  }

  lemma AfterYearText(c: Civil, h: nat, m: nat, s: nat)
    requires c.Valid() && h < 24 && m < 60 && s < 60 && c.second == h * 3600 + m * 60 + s
    ensures AfterYear(c) == "-" + Two(c.month) + "-" + Two(c.day) + "T" + Two(h) + ":" + Two(m) + ":" + Two(s) + "Z"
  {
    TimeParts(h, m, s);
  }

  lemma WholeSecond(seconds: nat, fraction: nat)
    requires fraction < SECOND
    ensures (seconds * SECOND + fraction) / 1_000_000_000 == seconds
  {}

  lemma TimeParts(h: nat, m: nat, s: nat)
    requires h < 24 && m < 60 && s < 60
    ensures var t := h * 3600 + m * 60 + s; t < 86400 && t / 3600 == h && t / 60 % 60 == m && t % 60 == s
  {}

  function OffsetText(east: bool, h: nat, m: nat): string
    requires h < 24 && m < 60
  {
    (if east then "+" else "-") + Two(h) + ":" + Two(m)
  }

  /** The instant of a local date and time, `offset` seconds east of UTC. */
  ghost function InstantAt(c: Civil, offset: int, fraction: nat): int
    requires c.Valid()
  {
    (Seconds(c) - offset) * 1_000_000_000 + fraction
  }

  /** An offset east of UTC is subtracted, one west of it added. */
  lemma OffsetReads(c: Civil, east: bool, h: nat, m: nat)
    requires c.Valid() && c.year < 10000 && h < 24 && m < 60
    ensures ParseRFC3339(Text(c)[..19] + OffsetText(east, h, m)) ==
            Some(InstantAt(c, if east then h * 3600 + m * 60 else -(h * 3600 + m * 60), 0))
  {
    var offset := OffsetTextReads(east, h, m);
    LocalReads(c, OffsetText(east, h, m), 0, offset);
  }

  lemma LocalReads(c: Civil, text: string, fraction: nat, offset: int)
    requires c.Valid() && c.year < 10000 && text != "" && ParseTail(text) == Some((fraction, offset))
    ensures ParseRFC3339(Text(c)[..19] + text) == Some(InstantAt(c, offset, fraction))
  {
    var local := Text(c)[..19] + text;
    DateParses(c, Text(c));
    TimeParses(c, Text(c));
    assert local[19..] == text && local[..19] == Text(c)[..19];
    SameDateAndTime(Text(c), local);
    PartsRead(local, c, fraction, offset);
  }

  lemma PartsRead(s: string, c: Civil, fraction: nat, offset: int)
    requires |s| >= 20 && c.Valid() && ParseDate(s) == Some((c.year, c.month, c.day)) && ParseTime(s) == Some(c.second)
    requires ParseTail(s[19..]) == Some((fraction, offset))
    ensures ParseRFC3339(s) == Some(InstantAt(c, offset, fraction))
  {}

  lemma OffsetTextReads(east: bool, h: nat, m: nat) returns (offset: int)
    requires h < 24 && m < 60
    ensures |OffsetText(east, h, m)| == 6 && offset == if east then h * 3600 + m * 60 else -(h * 3600 + m * 60)
    ensures ParseTail(OffsetText(east, h, m)) == Some((0, offset))
  {
    offset := if east then h * 3600 + m * 60 else -(h * 3600 + m * 60);
    TwoReadsBack(h, OffsetText(east, h, m), 1);
    TwoReadsBack(m, OffsetText(east, h, m), 4);
  }

  lemma SameDateAndTime(s: string, t: string)
    requires |s| >= 20 && |t| >= 20 && s[..19] == t[..19]
    ensures ParseDate(t) == ParseDate(s) && ParseTime(t) == ParseTime(s)
  {
    assert forall i :: 0 <= i < 19 ==> s[i] == s[..19][i] == t[..19][i] == t[i];
  }

  /** Up to nine digits after the point are that part of a second, added to the whole ones. */
  lemma FractionReads(c: Civil, digits: string) returns (fraction: nat)
    requires c.Valid() && c.year < 10000 && AllDigits(digits) && 0 < |digits| <= 9
    ensures fraction * Pow10(|digits|) == Value(digits) * 1_000_000_000
    ensures ParseRFC3339(Text(c)[..19] + ("." + digits + "Z")) == Some(InstantAt(c, 0, fraction))
  {
    fraction := FractionTailReads(digits);
    LocalReads(c, "." + digits + "Z", fraction, 0);
  }

  lemma FractionTailReads(digits: string) returns (fraction: nat)
    requires AllDigits(digits) && 0 < |digits| <= 9
    ensures fraction * Pow10(|digits|) == Value(digits) * 1_000_000_000
    ensures ParseTail("." + digits + "Z") == Some((fraction, 0))
  {
    fraction := Fraction(digits);
    FractionSize(digits);
    TailReads(digits);
  }

  lemma TailReads(digits: string)
    requires AllDigits(digits) && digits != ""
    ensures ParseTail("." + digits + "Z") == Some((Fraction(digits), 0))
  {
    var tail := "." + digits + "Z";
    assert tail[1..] == digits + "Z" && tail[1 + |digits|..] == "Z";
    RunOfDigits(digits, "Z");
    assert tail[1..][..|digits|] == digits;
  }

  lemma FractionSize(digits: string)
    requires AllDigits(digits) && |digits| <= 9
    ensures Fraction(digits) * Pow10(|digits|) == Value(digits) * 1_000_000_000
  {
    if |digits| == 9 {
      assert digits[..9] == digits;
      TenToTheNine(9);
    } else {
      NineDigits(Value(digits), |digits|);
    }
  }

  lemma {:induction false} RunOfDigits(digits: string, rest: string)
    requires AllDigits(digits) && rest != "" && !IsDigit(rest[0])
    ensures DigitRun(digits + rest) == |digits|
  {
    if digits == "" {
      assert digits + rest == rest;
    } else {
      RunOfDigits(digits[1..], rest);
      assert (digits + rest)[1..] == digits[1..] + rest;
    }
  }

  lemma {:induction false} NineDigits(v: nat, n: nat)
    requires n <= 9
    ensures v * Pow10(9 - n) * Pow10(n) == v * 1_000_000_000
  {
    TenToTheNine(n);
    Associative(v, Pow10(9 - n), Pow10(n));
  }

  lemma Associative(a: int, b: int, c: int)
    ensures a * b * c == a * (b * c)
  {}

  lemma {:induction false} TenToTheNine(n: nat)
    requires n <= 9
    ensures Pow10(9 - n) * Pow10(n) == 1_000_000_000
  {
    if n == 0 {
      assert Pow10(3) == 1000 && Pow10(6) == 1000 * Pow10(3) && Pow10(9) == 1000 * Pow10(6);
    } else {
      TenToTheNine(n - 1);
    }
  }

  /** What reads as a timestamp starts with a real date and time of the years 0 to 9999. */
  lemma OnlyTimestampsRead(s: string) returns (c: Civil)
    requires ParseRFC3339(s).Some?
    ensures c.Valid() && c.year < 10000 && |s| >= 20 && s[..19] == Text(c)[..19]
  {
    var (y, m, d) := ParseDate(s).value;
    c := Civil(y, m, d, ParseTime(s).value);
    var t := Text(c);
    DateIsText(s, c);
    TimeIsText(s, c);
    forall i | 0 <= i < 19 ensures s[i] == t[i] {}
    assert s[..19] == t[..19];
  }

  lemma DateIsText(s: string, c: Civil)
    requires |s| >= 20 && c.Valid() && ParseDate(s) == Some((c.year, c.month, c.day))
    ensures c.year < 10000 && |Text(c)| == 20 && forall i :: 0 <= i < 11 ==> s[i] == Text(c)[i]
  {
    TwoIsText(s, 0, c.year / 100);
    TwoIsText(s, 2, c.year % 100);
    TwoIsText(s, 5, c.month);
    TwoIsText(s, 8, c.day);
  }

  lemma TimeIsText(s: string, c: Civil)
    requires |s| >= 20 && c.Valid() && c.year < 10000 && ParseTime(s) == Some(c.second)
    ensures |Text(c)| == 20 && forall i :: 11 <= i < 19 ==> s[i] == Text(c)[i]
  {
    var h, m, sec := TwoAt(s, 11).value, TwoAt(s, 14).value, TwoAt(s, 17).value;
    TwoIsText(s, 11, h);
    TwoIsText(s, 14, m);
    TwoIsText(s, 17, sec);
    AfterYearText(c, h, m, sec);
    TimeInText(s, c, Two(h), Two(m), Two(sec));
  }

  lemma TimeInText(s: string, c: Civil, h: string, m: string, sec: string)
    requires |s| >= 20 && c.Valid() && c.year < 10000 && |h| == |m| == |sec| == 2
    requires AfterYear(c) == "-" + Two(c.month) + "-" + Two(c.day) + "T" + h + ":" + m + ":" + sec + "Z"
    requires s[11] == h[0] && s[12] == h[1] && s[13] == ':' && s[14] == m[0] && s[15] == m[1] && s[16] == ':'
    requires s[17] == sec[0] && s[18] == sec[1]
    ensures |Text(c)| == 20 && forall i :: 11 <= i < 19 ==> s[i] == Text(c)[i]
  {
    assert forall i :: 0 <= i < 16 ==> Text(c)[4 + i] == AfterYear(c)[i];
  }

  lemma TwoIsText(s: string, i: nat, n: nat)
    requires i + 1 < |s| && TwoAt(s, i) == Some(n)
    ensures s[i] == Two(n)[0] && s[i + 1] == Two(n)[1]
  {}
}
