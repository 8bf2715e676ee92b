/** Decimal text: the digits, values and conversions that the C library gives the check-digit code. */
module Decimal {

  import opened Wrappers

  predicate IsDigit(c: char) {
    '0' <= c <= '9'
  }

  predicate AllDigits(s: string) {
    forall i :: 0 <= i < |s| ==> IsDigit(s[i])
  }

  function DigitValue(c: char): (d: nat)
    requires IsDigit(c)
    ensures d < 10
  {
    c as int - '0' as int
  }

  function DigitChar(d: nat): (c: char)
    requires d < 10
    ensures IsDigit(c) && DigitValue(c) == d
  {
    ('0' as int + d) as char
  }

  /** The number a digit string writes; the empty string writes 0. */
  function Value(s: string): nat
    requires AllDigits(s)
  {
    if s == [] then 0 else 10 * Value(s[..|s| - 1]) + DigitValue(s[|s| - 1])
  }

  /** `d` followed by `k` decimal zeros, d * 10^k. */
  function Shift(d: int, k: nat): int {
    if k == 0 then d else 10 * Shift(d, k - 1)
  }

  lemma {:induction false} ShiftLinear(a: int, b: int, k: nat)
    ensures Shift(a, k) - Shift(b, k) == Shift(a - b, k)
  {
    if k > 0 {
      ShiftLinear(a, b, k - 1);
    }
  }

  lemma {:induction false} ValueConcat(a: string, b: string)
    requires AllDigits(a) && AllDigits(b)
    ensures AllDigits(a + b)
    ensures Value(a + b) == Shift(Value(a), |b|) + Value(b)
  {
    if b == [] {
      assert a + b == a;
    } else {
      ValueConcat(a, b[..|b| - 1]);
      assert (a + b)[..|a + b| - 1] == a + b[..|b| - 1];
    }
  }

  lemma {:induction false} ValueBound(s: string)
    requires AllDigits(s)
    ensures Value(s) < Shift(1, |s|)
  {
    if s != [] {
      ValueBound(s[..|s| - 1]);
    }
  }

  lemma ShiftAtMostNine(k: nat)
    requires k <= 9
    ensures Shift(1, k) <= 1_000_000_000
    decreases 9 - k
  {
    if k == 9 {
      assert Shift(1, 3) == 1000;
      assert Shift(1, 6) == 1_000_000;
    } else {
      ShiftAtMostNine(k + 1);
      ShiftPositive(k);
    }
  }

  lemma ShiftPositive(k: nat)
    ensures Shift(1, k) > 0
  {
  }

  /** What `%u` prints. */
  function Print(n: nat): (s: string)
    ensures s != [] && AllDigits(s) && Value(s) == n
    ensures n < 100 ==> |s| <= 2
  {
    if n < 10 then [DigitChar(n)] else Print(n / 10) + [DigitChar(n % 10)]
  }

  /** What `%02u` prints for numbers of at most two digits. */
  function Print2(n: nat): (s: string)
    requires n < 100
    ensures |s| == 2 && AllDigits(s) && Value(s) == n
  {
    var s := [DigitChar(n / 10), DigitChar(n % 10)];
    assert s[..1] == [DigitChar(n / 10)] && s[..1][..0] == [];
    assert Value(s[..1]) == n / 10;
    s
  }

  /** What `%u` scans: the leading digits, if there are any and their number fits 32 bits. Leading
      blanks and signs, which no caller produces, are read as nothing. */
  function Scan(s: string): (r: Option<nat>)
    ensures s != [] && AllDigits(s) && Value(s) < 0x1_0000_0000 ==> r == Some(Value(s))
  {
    if s == [] || !IsDigit(s[0]) then None
    else
      LeadingAllDigits(s);
      var v := Value(s[..Leading(s)]);
      if v < 0x1_0000_0000 then Some(v) else None
  }

  function Leading(s: string): (n: nat)
    ensures n <= |s| && AllDigits(s[..n])
    ensures AllDigits(s) ==> n == |s|
  {
    if s == [] || !IsDigit(s[0]) then 0
    else
      var n := 1 + Leading(s[1..]);
      assert s[..n] == [s[0]] + s[1..][..n - 1];
      n
  }

  lemma LeadingAllDigits(s: string)
    ensures AllDigits(s) ==> s[..Leading(s)] == s
  {
  }
}
