/** Byte-wise string order, as Go's < on strings, and splitting at a separator. */
module Lexical {

  predicate Less(a: string, b: string) {
    b != [] && (a == [] || a[0] < b[0] || (a[0] == b[0] && Less(a[1..], b[1..])))
  }

  predicate AtMost(a: string, b: string) { a == b || Less(a, b) }

  lemma {:induction false} Total(a: string, b: string)
    ensures a == b || Less(a, b) || Less(b, a)
    ensures !(Less(a, b) && Less(b, a))
    ensures !Less(a, a)
  {
    if a != [] && b != [] {
      Total(a[1..], b[1..]);
      assert a == [a[0]] + a[1..] && b == [b[0]] + b[1..];
    }
    if a != [] { Total(a[1..], a[1..]); }
  }

  lemma {:induction false} Transitive(a: string, b: string, c: string)
    requires Less(a, b) && Less(b, c)
    ensures Less(a, c)
  {
    if a != [] && a[0] == b[0] && b[0] == c[0] {
      Transitive(a[1..], b[1..], c[1..]);
    }
  }

  lemma Chain(a: string, b: string, c: string)
    requires Less(a, b) && Less(b, c)
    ensures Less(a, c) && a != c
  {}

  lemma AtMostTransitive(a: string, b: string, c: string)
    requires AtMost(a, b) && AtMost(b, c)
    ensures AtMost(a, c)
  {
    if a != b && b != c { Transitive(a, b, c); }
  }

  function Count(c: char, s: string): nat {
    if s == [] then 0 else (if s[0] == c then 1 else 0) + Count(c, s[1..])
  }

  lemma {:induction false} CountConcat(c: char, a: string, b: string)
    ensures Count(c, a + b) == Count(c, a) + Count(c, b)
  {
    if a == [] {
      assert a + b == b;
    } else {
      CountConcat(c, a[1..], b);
      assert (a + b)[1..] == a[1..] + b;
    }
  }

  lemma {:induction false} CountZero(c: char, s: string)
    ensures Count(c, s) == 0 <==> c !in s
  {
    if s != [] { CountZero(c, s[1..]); }
  }

  /** Cutting at the first separator is unambiguous. */
  lemma SplitUnique(c: char, a: string, x: string, b: string, y: string)
    requires c !in a && c !in b
    requires a + [c] + x == b + [c] + y
    ensures a == b && x == y
  {
    var s := a + [c] + x;
    assert s[|a|] == c && (b + [c] + y)[|b|] == c;
    assert forall i :: 0 <= i < |a| ==> s[i] == a[i];
    assert forall i :: 0 <= i < |b| ==> (b + [c] + y)[i] == b[i];
    assert |a| == |b|;
    assert a == s[..|a|] && b == (b + [c] + y)[..|b|];
    assert x == s[|a| + 1..] && y == (b + [c] + y)[|b| + 1..];
  }
}
