/** strconv: decimal text of integers, and the fixed-width fields of timestamps. */
module Decimal {
  import opened Wrappers
  import opened Api

  predicate IsDigit(c: char) { '0' <= c <= '9' }

  predicate AllDigits(s: string) { forall i :: 0 <= i < |s| ==> IsDigit(s[i]) }

  function DigitChar(d: int): (c: char)
    requires 0 <= d < 10
    ensures IsDigit(c) && c as int - '0' as int == d
  {
    '0' + d as char
  }

  function DigitValue(c: char): (d: int)
    requires IsDigit(c)
    ensures 0 <= d < 10 && DigitChar(d) == c
  {
    c as int - '0' as int
  }

  /** Decimal digits of n, without leading zeros. */
  function Digits(n: nat): (s: string)
    ensures s != [] && AllDigits(s)
  {
    if n < 10 then [DigitChar(n)] else Digits(n / 10) + [DigitChar(n % 10)]
  }

  function Value(s: string): nat
    requires AllDigits(s)
  {
    if s == [] then 0 else 10 * Value(s[..|s| - 1]) + DigitValue(s[|s| - 1])
  }

  lemma {:induction false} ValueOfDigits(n: nat)
    ensures Value(Digits(n)) == n
  {
    if n >= 10 {
      ValueOfDigits(n / 10);
      assert Digits(n)[..|Digits(n)| - 1] == Digits(n / 10);
    }
  }

  lemma {:induction false} DigitsLength(n: nat, k: nat)
    requires n >= Pow10(k)
    ensures |Digits(n)| > k
    decreases k
  {
    if k > 0 { DigitsLength(n / 10, k - 1); }
  }

  function Pow10(k: nat): (p: nat)
    ensures p > 0
  {
    if k == 0 then 1 else 10 * Pow10(k - 1)
  }

  /** n as two digits. */
  function Two(n: nat): (s: string)
    requires n < 100
    ensures |s| == 2
  {
    [DigitChar(n / 10), DigitChar(n % 10)]
  }

  /** The number written in s[i] and s[i+1]. */
  function TwoAt(s: string, i: nat): (r: Option<nat>)
    requires i + 1 < |s|
    ensures r.Some? ==> r.value < 100
  {
    if IsDigit(s[i]) && IsDigit(s[i + 1]) then Some(10 * DigitValue(s[i]) + DigitValue(s[i + 1])) else None
  }

  lemma TwoReadsBack(n: nat, s: string, i: nat)
    requires n < 100 && i + 1 < |s| && s[i] == Two(n)[0] && s[i + 1] == Two(n)[1]
    ensures TwoAt(s, i) == Some(n)
  {}

  /** The run of digits at the start of s. */
  function DigitRun(s: string): (n: nat)
    ensures n <= |s| && AllDigits(s[..n])
  {
    if s == [] || !IsDigit(s[0]) then 0 else 1 + DigitRun(s[1..])
  }

  // ---------- int32 checkpoints ----------

  function FormatInt(n: int): string {
    if n < 0 then "-" + Digits(-n) else Digits(n)
  }

  /** strconv.ParseInt(s, 10, 32): optional sign, at least one digit, in range. */
  function ParseInt32(s: string): Option<Int32> {
    var negative := s != [] && s[0] == '-';
    var body := if s != [] && (s[0] == '-' || s[0] == '+') then s[1..] else s;
    if body == [] || !AllDigits(body) then None
    else
      var v: int := Value(body);
      var n := if negative then -v else v;
      if -0x8000_0000 <= n < 0x8000_0000 then Some(n) else None
  }

  /** Every integer reads back if it is an int32, and not at all otherwise. */
  lemma ParseFormatInt(n: int)
    ensures ParseInt32(FormatInt(n)) == if -0x8000_0000 <= n < 0x8000_0000 then Some(n) else None
  {
    if n < 0 {
      NegativeReads(-n);
    } else {
      ValueOfDigits(n);
      UnsignedReads(Digits(n));
    }
  }

  lemma NegativeReads(n: nat)
    ensures var v: int := n; ParseInt32("-" + Digits(n)) == if v <= 0x8000_0000 then Some(-v) else None
  {
    ValueOfDigits(n);
    SignedReads(Digits(n));
  }

  lemma SignedReads(digits: string)
    requires digits != [] && AllDigits(digits)
    ensures var v: int := Value(digits); ParseInt32("-" + digits) == if v <= 0x8000_0000 then Some(-v) else None
  {
    assert ("-" + digits)[1..] == digits;
  }

  /** A plus sign makes no difference. */
  lemma UnsignedReads(digits: string)
    requires digits != [] && AllDigits(digits)
    ensures var v: int := Value(digits);
            ParseInt32(digits) == ParseInt32("+" + digits) == if v < 0x8000_0000 then Some(v) else None
  {
    assert IsDigit(digits[0]);
    assert ("+" + digits)[1..] == digits;
  }
}
