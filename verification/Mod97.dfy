/** The number theory of MOD 97-10: powers of ten are invertible modulo 97. */
module Mod97 {
  import opened Decimal

  ghost predicate Congruent(a: int, b: int) {
    (a - b) % 97 == 0
  }

  lemma CongruentMod(a: int, b: int)
    ensures Congruent(a, b) <==> a % 97 == b % 97
  {
    assert a == 97 * (a / 97) + a % 97;
    assert b == 97 * (b / 97) + b % 97;
    var q := a / 97 - b / 97;
    assert a - b == 97 * q + (a % 97 - b % 97);
    if a % 97 == b % 97 {
      assert a - b == 97 * q;
    }
  }

  lemma CongruentReduce(a: int, b: int)
    requires Congruent(a, b)
    ensures Congruent(a % 97, b)
  {
    CongruentMod(a, b);
    CongruentMod(a % 97, b);
  }

  lemma Multiple(x: int, k: int)
    requires x == 97 * k
    ensures x % 97 == 0
  {
  }

  /** 10 is invertible modulo 97: 68 * 10 = 7 * 97 + 1. */
  lemma TenCancels(x: int)
    ensures (10 * x) % 97 == 0 <==> x % 97 == 0
  {
    if (10 * x) % 97 == 0 {
      Multiple(x, 68 * (10 * x / 97) - 7 * x);
    }
    if x % 97 == 0 {
      Multiple(10 * x, 10 * (x / 97));
    }
  }

  /** A number with zeros appended is divisible by 97 only when the number is. */
  lemma {:induction false} ShiftCancels(d: int, k: nat)
    ensures Shift(d, k) % 97 == 0 <==> d % 97 == 0
  {
    if k > 0 {
      TenCancels(Shift(d, k - 1));
      ShiftCancels(d, k - 1);
    }
  }

  lemma ShiftDecides(x: int, y: int, a: int, b: int, k: nat, r: int)
    requires x == Shift(a, k) + r && y == Shift(b, k) + r
    ensures Congruent(x, y) <==> Congruent(a, b)
  {
    ShiftLinear(a, b, k);
    ShiftCancels(a - b, k);
  }

  /** Numbers that end in the same digits agree modulo 97 exactly when what stands before does. */
  lemma SuffixNeutral(a: string, b: string, rest: string)
    requires AllDigits(a) && AllDigits(b) && AllDigits(rest)
    ensures AllDigits(a + rest) && AllDigits(b + rest)
    ensures Congruent(Value(a + rest), Value(b + rest)) <==> Congruent(Value(a), Value(b))
  {
    ValueConcat(a, rest);
    ValueConcat(b, rest);
    ShiftDecides(Value(a + rest), Value(b + rest), Value(a), Value(b), |rest|, Value(rest));
  }

  /** Numbers that agree outside one block of digits agree modulo 97 exactly when the blocks do. */
  lemma BlockDecides(x: string, e: string, e': string, y: string)
    requires AllDigits(x) && AllDigits(e) && AllDigits(e') && AllDigits(y)
    requires |e| == |e'|
    ensures AllDigits(x + e + y) && AllDigits(x + e' + y)
    ensures Congruent(Value(x + e + y), Value(x + e' + y)) <==> Congruent(Value(e), Value(e'))
  {
    ValueConcat(x, e);
    ValueConcat(x, e');
    SuffixNeutral(x + e, x + e', y);
  }

  // ---------- 97 is a prime ----------

  lemma NoDivisor(d: nat, q: nat)
    requires 1 < d < 97
    ensures d * q != 97
  {
    if d < 10 {
      assert d in {2, 3, 4, 5, 6, 7, 8, 9};
    } else if q < 10 {
      assert q in {0, 1, 2, 3, 4, 5, 6, 7, 8, 9};
    } else {
      assert d * q >= 10 * q;
    }
  }

  /** A product is divisible by 97 only when a factor is. */
  lemma {:induction false} Prime(d: nat, x: int)
    requires 0 < d < 97 && (d * x) % 97 == 0
    ensures x % 97 == 0
  {
    if d > 1 {
      var q, r := 97 / d, 97 % d;
      assert 97 == d * q + r;
      NoDivisor(d, q);
      assert r * x == 97 * x - q * (d * x);
      Multiple(r * x, x - q * (d * x / 97));
      Prime(r, x);
    }
  }

  // ---------- the powers of ten ----------

  /** 10^k modulo 97 */
  function Ten(k: nat): (r: nat)
    ensures r < 97
  {
    if k == 0 then 1 else 10 * Ten(k - 1) % 97
  }

  lemma ReduceFactor(x: int, y: int)
    ensures Congruent(x * y, x * (y % 97))
  {
    Multiple(x * y - x * (y % 97), x * (y / 97));
  }

  lemma {:induction false} ShiftTen(d: int, k: nat)
    ensures Congruent(Shift(d, k), d * Ten(k))
  {
    if k > 0 {
      var s, t := Shift(d, k - 1), Ten(k - 1);
      ShiftTen(d, k - 1);
      ReduceFactor(d, 10 * t);
      var a, b := (s - d * t) / 97, (d * (10 * t) - d * Ten(k)) / 97;
      Multiple(10 * s - d * Ten(k), 10 * a + b);
    }
  }

  /** Two stretches of powers, one after the other. */
  lemma Compose(c: int, d: int, e: int, t: int, u: int)
    requires Congruent(c * d, e) && u == c * t % 97
    ensures d * u % 97 == e * t % 97
  {
    var q := c * t / 97;
    assert u == c * t - 97 * q;
    assert d * u - e * t == (c * d - e) * t - 97 * (q * d);
    assert (c * d - e) * t == 97 * ((c * d - e) / 97) * t;
    Multiple(d * u - e * t, (c * d - e) / 97 * t - q * d);
    CongruentMod(d * u, e * t);
  }

  lemma After2(k: nat)
    ensures Ten(k + 2) == 3 * Ten(k) % 97
  {
    Compose(10, 10, 3, Ten(k), Ten(k + 1));
  }

  lemma After4(k: nat)
    ensures Ten(k + 4) == 9 * Ten(k) % 97
  {
    After2(k);
    After2(k + 2);
    Compose(3, 3, 9, Ten(k), Ten(k + 2));
  }

  lemma After8(k: nat)
    ensures Ten(k + 8) == 81 * Ten(k) % 97
  {
    After4(k);
    After4(k + 4);
    Compose(9, 9, 81, Ten(k), Ten(k + 4));
  }

  lemma After16(k: nat)
    ensures Ten(k + 16) == 62 * Ten(k) % 97
  {
    After8(k);
    After8(k + 8);
    Compose(81, 81, 62, Ten(k), Ten(k + 8));
  }

  lemma After32(k: nat)
    ensures Ten(k + 32) == 61 * Ten(k) % 97
  {
    After16(k);
    After16(k + 16);
    Compose(62, 62, 61, Ten(k), Ten(k + 16));
  }

  lemma After48(k: nat)
    ensures Ten(k + 48) == 96 * Ten(k) % 97
  {
    After32(k);
    After16(k + 32);
    Compose(61, 62, 96, Ten(k), Ten(k + 32));
  }

  function HalfTurn(j: nat): nat {
    if j % 2 == 0 then 1 else 96
  }

  lemma HalfTurnNext(j: nat, t: nat, u: nat)
    requires j > 0 && t == HalfTurn(j - 1) && u == 96 * t % 97
    ensures u == HalfTurn(j)
  {
  }

  /** 10^48 is -1. */
  lemma {:induction false} Halves(j: nat, n: nat)
    requires n == 48 * j
    ensures Ten(n) == HalfTurn(j)
  {
    if j > 0 {
      var k: nat := n - 48;
      Halves(j - 1, k);
      After48(k);
      HalfTurnNext(j, Ten(k), Ten(k + 48));
      assert k + 48 == n;
    }
  }

  function ThirdTurn(j: nat): nat {
    if j % 3 == 0 then 1 else if j % 3 == 1 then 61 else 35
  }

  lemma ThirdTurnNext(j: nat, t: nat, u: nat)
    requires j > 0 && t == ThirdTurn(j - 1) && u == 61 * t % 97
    ensures u == ThirdTurn(j)
  {
  }

  /** 10^32 is a third root of 1. */
  lemma {:induction false} Thirds(j: nat, n: nat)
    requires n == 32 * j
    ensures Ten(n) == ThirdTurn(j)
  {
    if j > 0 {
      var k: nat := n - 32;
      Thirds(j - 1, k);
      After32(k);
      ThirdTurnNext(j, Ten(k), Ten(k + 32));
      assert k + 32 == n;
    }
  }

  lemma {:induction false} Period(k: nat, m: nat)
    requires Ten(k) == 1
    ensures Ten(m + k) == Ten(m)
  {
    if m > 0 {
      Period(k, m - 1);
    }
  }

  lemma {:induction false} Periods(k: nat, c: nat, n: nat)
    requires Ten(k) == 1 && n == c * k
    ensures Ten(n) == 1
  {
    if c > 0 {
      var m := (c - 1) * k;
      Periods(k, c - 1, m);
      Period(k, m);
      assert m + k == n;
    }
  }

  lemma Halved(k: nat, c: nat, j: nat, n: nat) returns (h: nat)
    requires Ten(k) == 1 && c * k == n == 48 * j
    ensures j == 2 * h
  {
    Periods(k, c, n);
    Halves(j, n);
    h := j / 2;
  }

  lemma Third(k: nat, n: nat) returns (t: nat)
    requires Ten(k) == 1 && n == 32 * k
    ensures k == 3 * t
  {
    Periods(k, 32, n);
    Thirds(k, n);
    t := k / 3;
  }

  lemma Both(k: nat, h: nat, t: nat)
    requires k == 32 * h == 3 * t
    ensures k % 96 == 0
  {
    assert k == 96 * (11 * h - t);
  }

  lemma OrderDivides(k: nat)
    requires Ten(k) == 1
    ensures k % 96 == 0
  {
    var a := Halved(k, 48, k, 48 * k);
    var b := Halved(k, 24, a, 24 * k);
    var c := Halved(k, 12, b, 12 * k);
    var d := Halved(k, 6, c, 6 * k);
    var e := Halved(k, 3, d, 3 * k);
    var t := Third(k, 32 * k);
    Both(k, e, t);
  }

  lemma EvenHalves(k: nat) returns (j: nat)
    requires k % 96 == 0
    ensures k == 48 * j && HalfTurn(j) == 1
  {
    j := 2 * (k / 96);
  }

  /** The order of 10 modulo 97 is 96: no smaller power is 1. */
  lemma OrderOfTen(k: nat)
    ensures Ten(k) == 1 <==> k % 96 == 0
  {
    if k % 96 == 0 {
      var j := EvenHalves(k);
      Halves(j, k);
    } else if Ten(k) == 1 {
      OrderDivides(k);
    }
  }

  lemma ShiftPeriod(d: nat, k: nat)
    requires d < 97 && k % 96 == 0
    ensures Shift(d, k) % 97 == d
  {
    hide Ten, Shift;
    OrderOfTen(k);
    ShiftTen(d, k);
    CongruentMod(Shift(d, k), d);
  }
}
