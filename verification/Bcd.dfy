/** Packed decimal numbers in 32 bits: eight digits of four bits each, the first of which may be any. */
module Bcd {
  import opened Wrappers

  /** The value of the last `n` packed digits of a word, and of what is above them. */
  function Unpack(w: nat, n: nat): nat {
    if n == 0 then w else Unpack(w / 16, n - 1) * 10 + w % 16
  }

  /** The last `n` digits of a number, and what is above them, packed. */
  function Pack(v: nat, n: nat): nat {
    if n == 0 then v else Pack(v / 10, n - 1) * 16 + v % 10
  }

  function Unpacked(w: nat): nat {
    Unpack(w, 7)
  }

  function Packed(v: nat): nat {
    U32(Pack(v, 7))
  }

  /** The numbers that eight packed digits can hold when the first of them goes up to 15 */
  const CAPACITY := 160_000_000

  // ---------- the code ----------

  lemma UnpackedDigits(w: nat)
    ensures Unpacked(w) == w / 0x1000_0000 * 10000000 + w / 0x100_0000 % 16 * 1000000 + w / 0x10_0000 % 16 * 100000
                           + w / 0x1_0000 % 16 * 10000 + w / 0x1000 % 16 * 1000 + w / 0x100 % 16 * 100
                           + w / 0x10 % 16 * 10 + w % 16
  {
    var w1 := w / 16;
    var w2 := w1 / 16;
    var w3 := w2 / 16;
    var w4 := w3 / 16;
    var w5 := w4 / 16;
    var w6 := w5 / 16;
    assert w2 == w / 0x100 && w3 == w / 0x1000 && w4 == w / 0x1_0000;
    assert w5 == w / 0x10_0000 && w6 == w / 0x100_0000 && w6 / 16 == w / 0x1000_0000;
    assert Unpack(w6, 1) == w6 / 16 * 10 + w6 % 16;
    assert Unpack(w4, 3) == (Unpack(w6, 1) * 10 + w5 % 16) * 10 + w4 % 16;
    assert Unpack(w2, 5) == (Unpack(w4, 3) * 10 + w3 % 16) * 10 + w2 % 16;
    assert Unpack(w, 7) == (Unpack(w2, 5) * 10 + w1 % 16) * 10 + w % 16;
  }

  lemma UnpackedSum(w: nat, sum: nat)
    requires w < 0x1_0000_0000
    requires sum == w / 0x1000_0000 % 16 * 10000000 + w / 0x100_0000 % 16 * 1000000 + w / 0x10_0000 % 16 * 100000
                    + w / 0x1_0000 % 16 * 10000 + w / 0x1000 % 16 * 1000 + w / 0x100 % 16 * 100
                    + w / 0x10 % 16 * 10 + w % 16
    ensures sum == Unpacked(w)
  {
    TopDigit(w, w / 0x1000_0000);
    UnpackedDigits(w);
  }

  lemma TopDigit(w: nat, d: nat)
    requires w < 0x1_0000_0000 && d == w / 0x1000_0000
    ensures d % 16 == d
  {
  }

  method FromBCD(value: nat) returns (rv: nat)
    requires value < 0x1_0000_0000
    ensures rv == Unpacked(value)
  {
    rv := 0;
    rv := rv + value / 0x1000_0000 % 16 * 10000000;
    rv := rv + value / 0x100_0000 % 16 * 1000000;
    rv := rv + value / 0x10_0000 % 16 * 100000;
    rv := rv + value / 0x1_0000 % 16 * 10000;
    rv := rv + value / 0x1000 % 16 * 1000;
    rv := rv + value / 0x100 % 16 * 100;
    rv := rv + value / 0x10 % 16 * 10;
    rv := rv + value % 16;
    UnpackedSum(value, rv);
  }

  lemma ModUnique(x: int, k: int, r: nat)
    requires x == 0x1_0000_0000 * k + r && r < 0x1_0000_0000
    ensures x % 0x1_0000_0000 == r
  {
  }

  /** Taking in one more digit: what the word has lost at its upper end does not matter. */
  lemma OneDigit(rv: nat, t: nat, d: nat, t': nat)
    requires rv == U32(t) && t' == t * 16 + d
    ensures U32(U32(rv * 16) + d) == U32(t')
  {
    var a, b := t / 0x1_0000_0000, rv * 16 / 0x1_0000_0000;
    var c := (U32(rv * 16) + d) / 0x1_0000_0000;
    ModUnique(t', 16 * a + b + c, U32(U32(rv * 16) + d));
  }

  function Pow10(k: nat): (p: nat)
    ensures p > 0
  {
    if k == 0 then 1 else 10 * Pow10(k - 1)
  }

  /** The number without its last `k` digits. */
  function Shift(v: nat, k: nat): nat {
    if k == 0 then v else Shift(v, k - 1) / 10
  }

  /** The last `k` digits. */
  function Low(v: nat, k: nat): nat {
    if k == 0 then 0 else Shift(v, k - 1) % 10 * Pow10(k - 1) + Low(v, k - 1)
  }

  /** What is above the last `k` of seven digits, packed. */
  function Top(v: nat, k: nat): nat
    decreases 7 - k
  {
    if k >= 7 then Shift(v, k) else Top(v, k + 1) * 16 + Shift(v, k) % 10
  }

  lemma Regroup(s: nat, d: nat, p: nat, low: nat)
    requires d <= 9 && low < p
    ensures (10 * s + d) * p + low == s * (10 * p) + (d * p + low)
    ensures d * p + low < 10 * p
  {
    assert (9 - d) * p >= 0;
  }

  lemma {:induction false} LowFits(v: nat, k: nat)
    ensures Low(v, k) < Pow10(k)
    ensures v == Shift(v, k) * Pow10(k) + Low(v, k)
  {
    if k > 0 {
      LowFits(v, k - 1);
      Regroup(Shift(v, k), Shift(v, k - 1) % 10, Pow10(k - 1), Low(v, k - 1));
    }
  }

  lemma DivUnique(x: nat, u: nat, k: nat, r: nat)
    requires x == k * u + r && r < u
    ensures x / u == k && x % u == r
  {
    var d := x / u - k;
    assert d * u == r - x % u;
    assert d >= 1 ==> d * u >= u;
    assert d <= -1 ==> d * u + u <= 0;
  }

  lemma {:induction false} TopPack(v: nat, k: nat)
    requires k <= 7
    ensures Top(v, k) == Pack(Shift(v, k), 7 - k)
    decreases 7 - k
  {
    if k < 7 {
      TopPack(v, k + 1);
    }
  }

  /** How far the packing has come when `k` digits are left. */
  ghost predicate Packing(v: nat, k: nat, rv: nat, value: nat) {
    rv == U32(Top(v, k)) && value == Low(v, k)
  }

  /** `rv<<=4; rv+=value/unit; value%=unit;` */
  method PackDigit(rv0: nat, value0: nat, unit: nat, ghost v: nat, ghost k: nat) returns (rv: nat, value: nat)
    requires k < 7 && unit == Pow10(k) && Packing(v, k + 1, rv0, value0)
    ensures Packing(v, k, rv, value)
  {
    LowFits(v, k);
    DivUnique(value0, unit, Shift(v, k) % 10, Low(v, k));
    OneDigit(rv0, Top(v, k + 1), Shift(v, k) % 10, Top(v, k));
    rv := U32(rv0 * 16);
    rv := U32(rv + value0 / unit);
    value := value0 % unit;
  }

  lemma FirstDigit(v: nat, rv: nat, value: nat)
    requires v < 0x1_0000_0000 && rv == v / 10000000 && value == v % 10000000
    ensures Packing(v, 7, rv, value)
  {
    assert Pow10(7) == 10000000;
    LowFits(v, 7);
    DivUnique(v, 10000000, Shift(v, 7), Low(v, 7));
  }

  method ToBCD(value0: nat) returns (rv: nat)
    requires value0 < 0x1_0000_0000
    ensures rv == Packed(value0)
  {
    var value := value0;
    rv := 0;
    rv := rv + value / 10000000;
    value := value % 10000000;
    FirstDigit(value0, rv, value);
    rv, value := PackDigit(rv, value, 1000000, value0, 6);
    rv, value := PackDigit(rv, value, 100000, value0, 5);
    rv, value := PackDigit(rv, value, 10000, value0, 4);
    rv, value := PackDigit(rv, value, 1000, value0, 3);
    rv, value := PackDigit(rv, value, 100, value0, 2);
    rv, value := PackDigit(rv, value, 10, value0, 1);
    rv, value := PackDigit(rv, value, 1, value0, 0);
    TopPack(value0, 0);
  }

  // ---------- round trips ----------

  lemma {:induction false} UnpackPack(v: nat, n: nat)
    ensures Unpack(Pack(v, n), n) == v
  {
    if n > 0 {
      UnpackPack(v / 10, n - 1);
    }
  }

  /** The last `n` packed digits are decimal ones. */
  predicate DecimalDigits(w: nat, n: nat) {
    n == 0 || (w % 16 <= 9 && DecimalDigits(w / 16, n - 1))
  }

  lemma {:induction false} PackUnpack(w: nat, n: nat)
    ensures Pack(Unpack(w, n), n) == w <==> DecimalDigits(w, n)
  {
    if n > 0 {
      PackUnpack(w / 16, n - 1);
      PackDecimal(Unpack(w, n), n);
    }
  }

  lemma {:induction false} PackDecimal(v: nat, n: nat)
    ensures DecimalDigits(Pack(v, n), n)
  {
    if n > 0 {
      PackDecimal(v / 10, n - 1);
    }
  }

  function Pow16(n: nat): (p: nat)
    ensures p > 0
  {
    if n == 0 then 1 else 16 * Pow16(n - 1)
  }

  /** `c` followed by `n` decimal zeros, or by `n` packed ones. */
  function Tens(c: nat, n: nat): nat {
    if n == 0 then c else 10 * Tens(c, n - 1)
  }

  function Nibbles(c: nat, n: nat): nat {
    if n == 0 then c else 16 * Nibbles(c, n - 1)
  }

  lemma TensAbove(v: nat, x: nat, w: nat)
    requires w == v + 10 * x
    ensures w / 10 == v / 10 + x && w % 10 == v % 10
  {
  }

  /** What is added above the last digits is added above the last packed digits. */
  lemma {:induction false} PackAbove(v: nat, c: nat, n: nat, w: nat)
    requires w == v + Tens(c, n)
    ensures Pack(w, n) == Pack(v, n) + Nibbles(c, n)
  {
    if n > 0 {
      TensAbove(v, Tens(c, n - 1), w);
      PackAbove(v / 10, c, n - 1, w / 10);
    }
  }

  lemma TwoZeros(c: nat, n: nat)
    requires n >= 2
    ensures Tens(c, n) == 100 * Tens(c, n - 2) && Nibbles(c, n) == 256 * Nibbles(c, n - 2)
  {
  }

  lemma SevenZeros(c: nat)
    ensures Tens(c, 7) == 10000000 * c && Nibbles(c, 7) == 0x1000_0000 * c
  {
    TwoZeros(c, 7);
    TwoZeros(c, 5);
    TwoZeros(c, 3);
    assert Tens(c, 1) == 10 * Tens(c, 0) && Nibbles(c, 1) == 16 * Nibbles(c, 0);
  }

  lemma {:induction false} PackFits(v: nat, n: nat)
    requires v < 16 * Pow10(n)
    ensures Pack(v, n) < 16 * Pow16(n)
  {
    if n > 0 {
      PackFits(v / 10, n - 1);
    }
  }

  lemma {:induction false} UnpackFits(w: nat, n: nat)
    requires w < 16 * Pow16(n) && DecimalDigits(w, n)
    ensures Unpack(w, n) < 16 * Pow10(n)
  {
    if n > 0 {
      UnpackFits(w / 16, n - 1);
    }
  }

  /** Of a number that is too large, packing keeps the remainder. */
  lemma PackedReduced(v: nat)
    ensures Packed(v) == Pack(v % CAPACITY, 7)
  {
    assert Pow10(7) == 10000000 && Pow16(7) == 0x1000_0000;
    var c, x := v / CAPACITY, v % CAPACITY;
    SevenZeros(16 * c);
    PackAbove(x, 16 * c, 7, v);
    PackFits(x, 7);
    ModUnique(Pack(v, 7), c, Pack(x, 7));
  }

  lemma UnpackedOf(w: nat, x: nat, v: nat)
    requires w == Pack(x, 7) && x == v % CAPACITY
    ensures Unpacked(w) == x && (Unpacked(w) == v <==> v < CAPACITY)
  {
    UnpackPack(x, 7);
  }

  /** Reading back a packed number gives its remainder, which is the number itself exactly when it is
      below 160000000. */
  lemma UnpackedPacked(v: nat)
    ensures Unpacked(Packed(v)) == v % CAPACITY
    ensures Unpacked(Packed(v)) == v <==> v < CAPACITY
  {
    PackedReduced(v);
    UnpackedOf(Packed(v), v % CAPACITY, v);
  }

  /** Packing what was read from a word gives the word exactly when its last seven digits are decimal. */
  lemma PackedUnpacked(w: nat)
    requires w < 0x1_0000_0000
    ensures Packed(Unpacked(w)) == w <==> DecimalDigits(w, 7)
  {
    PackedReduced(Unpacked(w));
    PackDecimal(Unpacked(w) % CAPACITY, 7);
    if DecimalDigits(w, 7) {
      assert Pow10(7) == 10000000 && Pow16(7) == 0x1000_0000;
      UnpackFits(w, 7);
      PackUnpack(w, 7);
    }
  }

  lemma {:induction false} UnpackZero(m: nat)
    ensures Unpack(0, m) == 0
  {
    if m > 0 {
      UnpackZero(m - 1);
    }
  }

  lemma ModTimesOf(a: nat, q: nat, b: nat, d: nat, t: nat, r: nat)
    requires a == t * q + r && r < q && d < b
    ensures b * a + d == t * (b * q) + (b * r + d) && b * r + d < b * q
  {
    assert b * (t * q + r) == t * (b * q) + b * r;
    assert b * r <= b * (q - 1);
  }

  lemma ModTimes(a: nat, q: nat, b: nat, d: nat)
    requires q > 0 && d < b
    ensures b * q > 0 && (b * a + d) % (b * q) == b * (a % q) + d
  {
    assert a == a / q * q + a % q;
    ModTimesOf(a, q, b, d, a / q, a % q);
    DivUnique(b * a + d, b * q, a / q, b * (a % q) + d);
  }

  /** Cutting off upper packed digits cuts off the upper digits of the number. */
  lemma {:induction false} UnpackLow(v: nat, n: nat, m: nat, k: nat, w: nat)
    requires k <= n && k <= m
    requires w == Pack(v, n) % Pow16(k)
    ensures Unpack(w, m) == v % Pow10(k)
    decreases k
  {
    if k == 0 {
      UnpackZero(m);
    } else {
      var a, q := Pack(v / 10, n - 1), Pow16(k - 1);
      UnpackLow(v / 10, n - 1, m - 1, k - 1, a % q);
      OneMoreLow(v, a, q, Pow10(k - 1), w, m);
    }
  }

  lemma OneMoreLow(v: nat, a: nat, q: nat, p: nat, w: nat, m: nat)
    requires p > 0 && q > 0 && m > 0 && w == (16 * a + v % 10) % (16 * q)
    requires Unpack(a % q, m - 1) == v / 10 % p
    ensures Unpack(w, m) == v % (10 * p)
  {
    hide Unpack;
    ModTimes(a, q, 16, v % 10);
    ModTimes(v / 10, p, 10, v % 10);
    UnpackDigit(a % q, v % 10, m);
  }

  lemma UnpackDigit(w: nat, d: nat, m: nat)
    requires d < 16 && m > 0
    ensures Unpack(16 * w + d, m) == Unpack(w, m - 1) * 10 + d
  {
  }
}
