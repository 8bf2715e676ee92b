/** Which typing errors the check of an IBAN finds. */
module IbanErrors {
  import opened Ascii
  import opened Decimal
  import opened GermanIban
  import opened Iban
  import opened Mod97
  import opened Seqs

  predicate AllAlnum(w: string) {
    forall i :: 0 <= i < |w| ==> IsAlnum(w[i])
  }

  /** `s` with the characters from `i` on replaced by `w`. */
  function Splice(s: string, i: nat, w: string): (t: string)
    requires i + |w| <= |s|
    ensures |t| == |s|
  {
    s[..i] + w + s[i + |w|..]
  }

  /** The stretch lies inside the first four characters or behind them. */
  predicate OneSide(i: nat, n: nat) {
    i + n <= 4 || i >= 4
  }

  predicate CountryInCapitals(s: string)
    requires |s| >= 2
  {
    'A' <= s[0] <= 'Z' && 'A' <= s[1] <= 'Z'
  }

  // ---------- where a stretch of text ends up in the number ----------

  function Before(s: string, i: nat): (x: string)
    requires 4 <= |s| && i <= |s|
    ensures AllDigits(x)
  {
    if i >= 4 then Expand(s[4..i]) else Expand(s[4..]) + Expand(s[..i])
  }

  function After(s: string, j: nat): (y: string)
    requires 4 <= |s| && j <= |s|
    ensures AllDigits(y)
  {
    if j > 4 then Expand(s[j..]) + Expand(s[..4]) else Expand(s[j..4])
  }

  lemma {:induction false} ExpandThree(a: string, w: string, b: string)
    ensures Expand(a + w + b) == Expand(a) + Expand(w) + Expand(b)
  {
    FlatMapConcat(ExpandChar, a, w);
    FlatMapConcat(ExpandChar, a + w, b);
  }

  lemma SpliceBehind(s: string, i: nat, w: string)
    requires 4 <= i && i + |w| <= |s|
    ensures Splice(s, i, w)[4..] == s[4..i] + w + s[i + |w|..]
    ensures Splice(s, i, w)[..4] == s[..4]
  {
  }

  lemma SpliceInFront(s: string, i: nat, w: string)
    requires i + |w| <= 4 <= |s|
    ensures Splice(s, i, w)[4..] == s[4..]
    ensures Splice(s, i, w)[..4] == s[..i] + w + s[i + |w|..4]
  {
  }

  lemma JoinBehind(x: string, e: string, y: string, head: string, tail: string)
    requires tail == x + e + y
    ensures tail + head == x + e + (y + head)
  {
  }

  lemma JoinInFront(x: string, e: string, y: string, head: string, tail: string)
    requires head == x + e + y
    ensures tail + head == tail + x + e + y
  {
  }

  lemma StretchInNumber(s: string, i: nat, w: string)
    requires |s| >= 4 && w != [] && i + |w| <= |s| && OneSide(i, |w|)
    ensures Rearranged(Splice(s, i, w)) == Before(s, i) + Expand(w) + After(s, i + |w|)
  {
    var j, t := i + |w|, Splice(s, i, w);
    if i >= 4 {
      SpliceBehind(s, i, w);
      ExpandThree(s[4..i], w, s[j..]);
      JoinBehind(Expand(s[4..i]), Expand(w), Expand(s[j..]), Expand(s[..4]), Expand(t[4..]));
    } else {
      SpliceInFront(s, i, w);
      ExpandThree(s[..i], w, s[j..4]);
      JoinInFront(Expand(s[..i]), Expand(w), Expand(s[j..4]), Expand(t[..4]), Expand(s[4..]));
    }
  }

  // ---------- the replaced text still fits ----------

  lemma CleanThree(a: string, w: string, b: string)
    ensures Clean(a + w + b) <==> Clean(a) && Clean(w) && Clean(b)
  {
    var s := a + w + b;
    if Clean(s) {
      assert forall k :: 0 <= k < |a| ==> s[k] == a[k];
      assert forall k :: 0 <= k < |w| ==> s[|a| + k] == w[k];
      assert forall k :: 0 <= k < |b| ==> s[|a| + |w| + k] == b[k];
    }
  }

  lemma AlnumExpands(c: char)
    requires IsAlnum(c)
    ensures |ExpandChar(c)| >= 1
  {
  }

  lemma FitsReplaced(a: string, w: string, w': string, b: string, maxLen: nat)
    requires Fits(a + w + b, maxLen)
    requires w != [] && |w| == |w'| && AllAlnum(w') && |Expand(w)| == |Expand(w')|
    ensures Fits(a + w' + b, maxLen)
  {
    CleanThree(a, w, b);
    CleanThree(a, w', b);
    ExpandThree(a, w, b);
    ExpandThree(a, w', b);
    var t := a + w' + b;
    var k := |t| - 1;
    if b == [] {
      FlatMapStep(ExpandChar, t, k);
      assert t[..k + 1] == t && t[k] == w'[|w'| - 1];
      AlnumExpands(t[k]);
    } else {
      var b' := b[..|b| - 1];
      assert t[..k] == a + w' + b';
      assert (a + w + b)[..k] == a + w + b';
      ExpandThree(a, w, b');
      ExpandThree(a, w', b');
    }
  }

  lemma StillReadable(s: string, i: nat, w: string)
    requires Readable(s) && w != [] && i + |w| <= |s| && OneSide(i, |w|)
    requires AllAlnum(w) && |Expand(w)| == |Expand(s[i..i + |w|])|
    requires CountryInCapitals(Splice(s, i, w))
    ensures Readable(Splice(s, i, w))
  {
    var j, v := i + |w|, s[i..i + |w|];
    SpliceSelf(s, i, |w|);
    if i >= 4 {
      SpliceBehind(s, i, w);
      SpliceBehind(s, i, v);
      FitsReplaced(s[4..i], v, w, s[j..], 255);
      ExpandThree(s[4..i], v, s[j..]);
      ExpandThree(s[4..i], w, s[j..]);
    } else {
      SpliceInFront(s, i, w);
      SpliceInFront(s, i, v);
      FitsReplaced(s[..i], v, w, s[j..4], 255 - |Expand(s[4..])|);
    }
  }

  lemma SpliceSelf(s: string, i: nat, n: nat)
    requires i + n <= |s|
    ensures Splice(s, i, s[i..i + n]) == s
  {
  }

  // ---------- the general law ----------

  lemma ComparedToValid(s: string, t: string)
    requires CheckResult(s) == 0 && Readable(t)
    ensures CheckResult(t) == if Congruent(Value(Rearranged(t)), Value(Rearranged(s))) then 0 else 1
  {
    CongruentMod(Value(Rearranged(t)), Value(Rearranged(s)));
  }

  /** Replacing a stretch of a valid IBAN by letters and digits that expand to as many digits leaves
      it valid exactly when the numbers the two stretches expand to agree modulo 97. */
  lemma ReplacementDecides(s: string, i: nat, w: string)
    requires CheckResult(s) == 0
    requires w != [] && i + |w| <= |s| && OneSide(i, |w|)
    requires AllAlnum(w) && |Expand(w)| == |Expand(s[i..i + |w|])|
    requires CountryInCapitals(Splice(s, i, w))
    ensures CheckResult(Splice(s, i, w))
         == if Congruent(Value(Expand(w)), Value(Expand(s[i..i + |w|]))) then 0 else 1
  {
    hide Value, Expand, Rearranged, Congruent;
    StillReadable(s, i, w);
    StretchInNumber(s, i, w);
    var v := s[i..i + |w|];
    SpliceSelf(s, i, |w|);
    StretchInNumber(s, i, v);
    BlockDecides(Before(s, i), Expand(w), Expand(v), After(s, i + |w|));
    ComparedToValid(s, Splice(s, i, w));
  }

  // ---------- single characters ----------

  /** The number a character counts as: 0 to 9 for digits, 10 to 35 for letters. */
  function CharNumber(c: char): (n: nat)
    requires IsAlnum(c)
    ensures IsLetter(c) ==> 10 <= n <= 35
    ensures !IsLetter(c) ==> n <= 9
  {
    if IsLetter(c) then 10 + (Upper(c) as int - 'A' as int) else DigitValue(c)
  }

  lemma ExpandCharValue(c: char)
    requires IsAlnum(c)
    ensures Value(ExpandChar(c)) == CharNumber(c)
    ensures |ExpandChar(c)| == if IsLetter(c) then 2 else 1
  {
    var e := ExpandChar(c);
    if IsLetter(c) {
      assert e[..1][..0] == [];
      assert Value(e[..1]) == CharNumber(c) / 10;
    } else {
      assert e[..0] == [];
    }
  }

  lemma CloseNumbers(a: int, b: int)
    requires -97 < a - b < 97
    ensures Congruent(a, b) <==> a == b
  {
  }

  lemma SpliceOne(s: string, i: nat, c: char)
    requires i < |s|
    ensures s[i..i + 1] == [s[i]] && Splice(s, i, [c]) == s[i := c]
  {
  }

  /** One wrong character of the same kind is always found: a digit for another digit, or a letter
      for another letter whatever its case. */
  lemma WrongCharacterFound(s: string, i: nat, c: char)
    requires CheckResult(s) == 0 && i < |s|
    requires IsAlnum(s[i]) && IsAlnum(c) && (IsLetter(s[i]) <==> IsLetter(c))
    requires CharNumber(c) != CharNumber(s[i])
    requires CountryInCapitals(s[i := c])
    ensures CheckResult(s[i := c]) == 1
  {
    SpliceOne(s, i, c);
    FlatMapOne(ExpandChar, c);
    FlatMapOne(ExpandChar, s[i]);
    ExpandCharValue(c);
    ExpandCharValue(s[i]);
    ReplacementDecides(s, i, [c]);
    CloseNumbers(CharNumber(c), CharNumber(s[i]));
  }

  // ---------- neighbours swapped ----------

  /** Swapping these two neighbours cannot be noticed: they count the same, or they are one of the
      pairs 1/B, 2/M and 3/X, where the letter counts eleven times the digit. */
  predicate SwapHidden(a: char, b: char)
    requires IsAlnum(a) && IsAlnum(b)
  {
    || CharNumber(a) == CharNumber(b)
    || (IsLetter(a) && !IsLetter(b) && CharNumber(a) == 11 * CharNumber(b))
    || (IsLetter(b) && !IsLetter(a) && CharNumber(b) == 11 * CharNumber(a))
  }

  /** The pairs are these and no others, whatever the case of the letters. */
  lemma HiddenPairs(a: char, b: char)
    requires IsAlnum(a) && IsAlnum(b)
    ensures SwapHidden(a, b) <==> a == b || OtherCase(a, b) || ElevenTimes(a, b) || ElevenTimes(b, a)
  {
  }

  predicate ElevenTimes(digit: char, letter: char) {
    (digit == '1' && letter in "bB") || (digit == '2' && letter in "mM") || (digit == '3' && letter in "xX")
  }

  function PairNumber(a: char, b: char): int
    requires IsAlnum(a) && IsAlnum(b)
  {
    CharNumber(a) * (if IsLetter(b) then 100 else 10) + CharNumber(b)
  }

  lemma ExpandPairValue(a: char, b: char)
    requires IsAlnum(a) && IsAlnum(b)
    ensures Value(Expand([a, b])) == PairNumber(a, b)
    ensures |Expand([a, b])| == |ExpandChar(a)| + |ExpandChar(b)|
  {
    FlatMapCons(ExpandChar, a, [b]);
    FlatMapOne(ExpandChar, b);
    assert [a, b] == [a] + [b];
    ExpandCharValue(a);
    ExpandCharValue(b);
    ValueConcat(ExpandChar(a), ExpandChar(b));
    ShiftOneTwo(CharNumber(a));
  }

  lemma ShiftOneTwo(n: int)
    ensures Shift(n, 1) == 10 * n && Shift(n, 2) == 100 * n
  {
    assert Shift(n, 1) == 10 * Shift(n, 0);
  }

  lemma SwappedPairs(a: char, b: char)
    requires IsAlnum(a) && IsAlnum(b)
    ensures Congruent(PairNumber(b, a), PairNumber(a, b)) <==> SwapHidden(a, b)
  {
    var m: int, n: int := CharNumber(a), CharNumber(b);
    var d := PairNumber(b, a) - PairNumber(a, b);
    if IsLetter(a) && IsLetter(b) {
      MultipleOf97(99, n - m, d);
    } else if IsLetter(a) {
      MultipleOf97(-9, m - 11 * n, d);
    } else if IsLetter(b) {
      MultipleOf97(9, n - 11 * m, d);
    } else {
      MultipleOf97(9, n - m, d);
    }
  }

  lemma MultipleOf97(f: int, x: int, d: int)
    requires f in {9, -9, 99} && -97 < x < 97 && d == f * x
    ensures d % 97 == 0 <==> x == 0
  {
    if d % 97 == 0 {
      var q := d / 97;
      assert 9 * 54 == 5 * 97 + 1 && 2 * 49 == 97 + 1;
      if f == 9 {
        assert x == 97 * (54 * q - 5 * x);
      } else if f == -9 {
        assert x == 97 * (-54 * q - 5 * x);
      } else {
        assert x == 97 * (49 * q - 50 * x);
      }
    }
  }

  function Swapped(s: string, i: nat): (t: string)
    requires i + 2 <= |s|
  {
    s[i := s[i + 1]][i + 1 := s[i]]
  }

  lemma SwappedSplice(s: string, i: nat)
    requires i + 2 <= |s|
    ensures Swapped(s, i) == Splice(s, i, [s[i + 1], s[i]])
    ensures s[i..i + 2] == [s[i], s[i + 1]]
  {
  }

  lemma SideSwapDecides(s: string, i: nat)
    requires CheckResult(s) == 0 && i + 2 <= |s| && OneSide(i, 2)
    requires IsAlnum(s[i]) && IsAlnum(s[i + 1])
    requires CountryInCapitals(Swapped(s, i))
    ensures CheckResult(Swapped(s, i)) == if SwapHidden(s[i], s[i + 1]) then 0 else 1
  {
    var a, b := s[i], s[i + 1];
    SwappedSplice(s, i);
    ExpandPairValue(a, b);
    ExpandPairValue(b, a);
    SwappedPairs(a, b);
    ReplacementDecides(s, i, [b, a]);
  }

  // ---------- stretches across the fourth place ----------

  lemma AddMultiple(m: int, d: int, k: int)
    requires m == 97 * k
    ensures (m + d) % 97 == 0 <==> d % 97 == 0
  {
  }

  lemma {:induction false} ShiftProduct(d: int, k: nat)
    ensures Shift(d, k) == d * Shift(1, k)
  {
    if k > 0 {
      ShiftProduct(d, k - 1);
    }
  }

  lemma PowerCancels(z: int, e: nat)
    ensures (Shift(1, e) * z) % 97 == 0 <==> z % 97 == 0
  {
    ShiftProduct(z, e);
    ShiftCancels(z, e);
  }

  lemma {:induction false} PowerSum(m: nat, n: nat)
    ensures Shift(1, m + n) == Shift(1, m) * Shift(1, n)
  {
    if n > 0 {
      PowerSum(m, n - 1);
      var p, q := Shift(1, m), Shift(1, n - 1);
      assert p * (10 * q) == 10 * (p * q);
    }
  }

  lemma CongruentFactor(d: int, x: int, y: int, c: int)
    requires Congruent(x, y)
    ensures Congruent(d * x, c) <==> Congruent(d * y, c)
  {
    assert d * x - c == d * y - c + d * (x - y);
    AddMultiple(d * (x - y), d * y - c, d * ((x - y) / 97));
  }

  /** A number of `a0`, digits in the middle and `b0` becomes one of `a1`, the same digits and `b1`, where
      `b0` and `b1` have `e` and `f` digits and `n` is how many the middle, `b0` and `b1` have. The second
      leaves 1 modulo 97 like the first exactly when this holds. */
  ghost predicate AcrossHidden(a0: int, a1: int, b0: int, b1: int, e: nat, f: nat, n: nat) {
    Congruent((a1 - a0) * Ten(n), Shift(1, e) * (1 - b1) - Shift(1, f) * (1 - b0))
  }

  lemma AcrossIdentity(qa: int, qb: int, na: int, nb: int, wa: int, wb: int, x: int, y: int, p: int, c: int)
    requires x == qb * wa + na && y == qa * wb + nb
    requires p == wa * wb * (qa - qb) && c == wa * (1 - nb) - wb * (1 - na)
    ensures wa * (y - 1) == wb * (x - 1) + (p - c)
  {
    assert wa * (qa * wb) - wb * (qb * wa) == wa * wb * (qa - qb);
    assert wa * (y - 1) == wa * (qa * wb) - wa * (1 - nb);
    assert wb * (x - 1) == wb * (qb * wa) - wb * (1 - na);
  }

  lemma OneMore(e: nat, wb: int, x: int, y: int, p: int, c: int)
    requires x % 97 == 1 && Shift(1, e) * (y - 1) == wb * (x - 1) + (p - c)
    ensures y % 97 == 1 <==> Congruent(p, c)
  {
    PowerCancels(y - 1, e);
    CongruentMod(y, 1);
    MultipleTimes(wb, x);
    AddMultiple(wb * (x - 1), p - c, wb * (x / 97));
  }

  lemma MultipleTimes(w: int, x: int)
    requires x % 97 == 1
    ensures w * (x - 1) == 97 * (w * (x / 97))
  {
    assert x - 1 == 97 * (x / 97);
  }

  lemma ExchangeFactors(w: int, x: int, p: int)
    ensures w * (x * p) == x * (w * p)
  {
  }

  lemma AcrossProduct(a0: int, a1: int, k: nat, w: int, d: int)
    requires d == Shift(a1, k) - Shift(a0, k)
    ensures w * d == (a1 - a0) * (w * Shift(1, k))
  {
    hide Shift;
    ShiftLinear(a1, a0, k);
    ShiftProduct(a1 - a0, k);
    ExchangeFactors(w, a1 - a0, Shift(1, k));
  }

  lemma AcrossPower(d: int, e: nat, f: nat, k: nat, n: nat, c: int)
    requires n == k + e + f
    ensures Congruent(d * (Shift(1, e) * Shift(1, f) * Shift(1, k)), c) <==> Congruent(d * Ten(n), c)
  {
    hide Shift, Ten, Congruent;
    PowerSum(e, f);
    PowerSum(e + f, k);
    ShiftTen(1, n);
    CongruentFactor(d, Shift(1, n), Ten(n), c);
  }

  lemma AcrossDecides(a0: int, a1: int, b0: int, b1: int, e: nat, f: nat, k: nat, v: int, q0: int, q1: int, n: nat,
                      x: int, y: int)
    requires n == k + e + f && x % 97 == 1 && q0 == Shift(a0, k) + v && q1 == Shift(a1, k) + v
    requires x == q0 * Shift(1, e) + b0 && y == q1 * Shift(1, f) + b1
    ensures y % 97 == 1 <==> AcrossHidden(a0, a1, b0, b1, e, f, n)
  {
    hide Shift, Ten, Congruent;
    var wa, wb := Shift(1, e), Shift(1, f);
    var p, c := wa * wb * (q1 - q0), wa * (1 - b1) - wb * (1 - b0);
    AcrossIdentity(q1, q0, b0, b1, wa, wb, x, y, p, c);
    OneMore(e, wb, x, y, p, c);
    AcrossProduct(a0, a1, k, wa * wb, q1 - q0);
    AcrossPower(a1 - a0, e, f, k, n, c);
  }

  /** The digits of what stands around the stretch. */
  function Around(s: string, i: nat, j: nat): (m: string)
    requires i <= 4 <= j <= |s|
    ensures AllDigits(m)
  {
    Expand(s[j..]) + Expand(s[..i])
  }

  lemma SpliceAcross(s: string, i: nat, w: string)
    requires |s| >= 4 && i <= 4 <= i + |w| <= |s|
    ensures Splice(s, i, w)[4..] == w[4 - i..] + s[i + |w|..]
    ensures Splice(s, i, w)[..4] == s[..i] + w[..4 - i]
  {
  }

  lemma JoinAcross(a: string, x: string, y: string, b: string, tail: string, head: string)
    requires tail == a + x && head == y + b
    ensures tail + head == a + (x + y) + b
  {
  }

  lemma AcrossNumber(s: string, i: nat, w: string)
    requires |s| >= 4 && i <= 4 <= i + |w| <= |s|
    ensures Rearranged(Splice(s, i, w)) == Expand(w[4 - i..]) + Around(s, i, i + |w|) + Expand(w[..4 - i])
    ensures |Expand(Splice(s, i, w)[..4])| == |Expand(s[..i])| + |Expand(w[..4 - i])|
  {
    var j, t := i + |w|, Splice(s, i, w);
    SpliceAcross(s, i, w);
    FlatMapConcat(ExpandChar, w[4 - i..], s[j..]);
    FlatMapConcat(ExpandChar, s[..i], w[..4 - i]);
    JoinAcross(Expand(w[4 - i..]), Expand(s[j..]), Expand(s[..i]), Expand(w[..4 - i]), Expand(t[4..]), Expand(t[..4]));
  }

  lemma AcrossValue(a: string, m: string, b: string, x: string, q: int)
    requires AllDigits(a) && AllDigits(m) && AllDigits(b) && x == a + m + b
    requires q == Shift(Value(a), |m|) + Value(m)
    ensures AllDigits(x) && Value(x) == q * Shift(1, |b|) + Value(b)
  {
    hide Value, Shift;
    ValueConcat(a, m);
    ValueConcat(a + m, b);
    assert q == Value(a + m);
    ShiftProduct(q, |b|);
  }

  /** Replacing a stretch that reaches across the fourth place, where check digits and account number meet,
      by any other that can be read: exactly when it is not noticed. */
  lemma ReplacementAcross(s: string, i: nat, w: string)
    requires CheckResult(s) == 0 && i <= 4 <= i + |w| <= |s| && Readable(Splice(s, i, w))
    ensures var v := s[i..i + |w|];
            var b0, b1 := Expand(v[..4 - i]), Expand(w[..4 - i]);
            var n := |Around(s, i, i + |w|)| + |b0| + |b1|;
            var hidden := AcrossHidden(Value(Expand(v[4 - i..])), Value(Expand(w[4 - i..])), Value(b0), Value(b1),
                                       |b0|, |b1|, n);
            CheckResult(Splice(s, i, w)) == if hidden then 0 else 1
  {
    hide Value, Expand, Shift, Congruent;
    var v, m, t := s[i..i + |w|], Around(s, i, i + |w|), Splice(s, i, w);
    var a0, a1, b0, b1 := Expand(v[4 - i..]), Expand(w[4 - i..]), Expand(v[..4 - i]), Expand(w[..4 - i]);
    SpliceSelf(s, i, |w|);
    AcrossNumber(s, i, v);
    AcrossNumber(s, i, w);
    var q0, q1 := Shift(Value(a0), |m|) + Value(m), Shift(Value(a1), |m|) + Value(m);
    AcrossValue(a0, m, b0, Rearranged(s), q0);
    AcrossValue(a1, m, b1, Rearranged(t), q1);
    AcrossDecides(Value(a0), Value(a1), Value(b0), Value(b1), |b0|, |b1|, |m|, Value(m), q0, q1,
                  |m| + |b0| + |b1|, Value(Rearranged(s)), Value(Rearranged(t)));
  }

  // ---------- last check digit and first account digit swapped ----------

  function Width(c: char): int {
    if IsLetter(c) then 100 else 10
  }

  /** The characters `a` and `b` stand at both ends of a number of `n` digits, `b` in front. They can
      change places unnoticed when this holds. */
  ghost predicate EndsHidden(a: char, b: char, n: nat)
    requires IsAlnum(a) && IsAlnum(b)
  {
    Congruent((CharNumber(a) - CharNumber(b)) * Ten(n),
              Width(a) * (1 - CharNumber(b)) - Width(b) * (1 - CharNumber(a)))
  }

  lemma CharDigits(c: char)
    requires IsAlnum(c)
    ensures Expand([c]) == ExpandChar(c) && Value(Expand([c])) == CharNumber(c)
    ensures Shift(1, |ExpandChar(c)|) == Width(c)
  {
    FlatMapOne(ExpandChar, c);
    ExpandCharValue(c);
    ShiftOneTwo(1);
  }

  lemma EndsAcross(a: char, b: char, n: nat)
    requires IsAlnum(a) && IsAlnum(b)
    ensures EndsHidden(a, b, n)
       <==> AcrossHidden(CharNumber(b), CharNumber(a), CharNumber(a), CharNumber(b), |ExpandChar(a)|,
                         |ExpandChar(b)|, n)
  {
    CharDigits(a);
    CharDigits(b);
  }

  lemma CleanAround(s: string, t: string)
    requires |s| == |t| >= 5 && s[..3] == t[..3] && s[5..] == t[5..] && IsAlnum(t[3]) && IsAlnum(t[4])
    requires Clean(s[..4]) && Clean(s[4..])
    ensures Clean(t[..4]) && Clean(t[4..])
  {
    assert forall k :: 0 <= k < 3 ==> t[k] == s[..3][k] == s[..4][k];
    assert forall k :: 5 <= k < |t| ==> t[k] == s[5..][k - 5] == s[4..][k - 4];
  }

  lemma EndLengths(s: string)
    requires |s| >= 5
    ensures |Expand(s[4..])| == |ExpandChar(s[4])| + |Expand(s[5..])|
    ensures |Expand(s[..4])| == |Expand(s[..3])| + |ExpandChar(s[3])|
  {
    assert s[4..] == [s[4]] + s[5..] && s[..4] == s[..3] + [s[3]];
    FlatMapCons(ExpandChar, s[4], s[5..]);
    FlatMapSnoc(ExpandChar, s[..3], s[3]);
  }

  lemma SwappedReadable(s: string, t: string)
    requires Readable(s) && t == Swapped(s, 3) && IsAlnum(s[3]) && IsAlnum(s[4])
    ensures Readable(t)
  {
    assert s[..3] == t[..3] && s[5..] == t[5..];
    EndLengths(s);
    EndLengths(t);
    CleanAround(s, t);
    AlnumExpands(s[4]);
    CountryFirst(t);
    var tail, head := t[4..], t[..4];
    FlatMapPrefix(ExpandChar, tail, |tail| - 1);
    assert head[..3] == t[..3];
  }

  lemma PairParts(a: char, b: char)
    ensures [a, b][..1] == [a] && [a, b][1..] == [b]
  {
  }

  lemma BoundaryLength(s: string, v: string)
    requires |s| >= 5 && v == s[3..5] && IsAlnum(v[0]) && IsAlnum(v[1])
    ensures |Rearranged(s)| == |Around(s, 3, 5)| + |ExpandChar(v[0])| + |ExpandChar(v[1])|
  {
    PairParts(v[0], v[1]);
    CharDigits(v[0]);
    CharDigits(v[1]);
    SpliceSelf(s, 3, 2);
    AcrossNumber(s, 3, v);
  }

  /** Exactly when the characters on both sides of the fourth place change places unnoticed: it depends
      on them and on how many digits the whole number has. */
  lemma BoundarySwapDecides(s: string)
    requires CheckResult(s) == 0 && IsAlnum(s[3]) && IsAlnum(s[4])
    ensures CheckResult(Swapped(s, 3)) == if EndsHidden(s[3], s[4], |Rearranged(s)|) then 0 else 1
  {
    hide Value, Expand, AcrossHidden, EndsHidden, Rearranged, Around, Shift;
    var a, b := s[3], s[4];
    var v, w := [a, b], [b, a];
    SwappedReadable(s, Swapped(s, 3));
    SwappedSplice(s, 3);
    PairParts(a, b);
    PairParts(b, a);
    CharDigits(a);
    CharDigits(b);
    BoundaryLength(s, v);
    ReplacementAcross(s, 3, w);
    EndsAcross(a, b, |Rearranged(s)|);
  }

  lemma DivideTen(w: int, z: int)
    requires w in {10, 100}
    ensures (w * z) % 97 == 0 <==> z % 97 == 0
  {
    TenCancels(z);
    TenCancels(10 * z);
  }

  lemma OneFactor(t: nat, u: nat, w: int)
    requires t < 97
    requires (w == 10 && u == 10 * t % 97) || (w == 100 && u == 3 * t % 97)
    ensures (u - w) % 97 == 0 <==> t == 1
  {
    if (u - w) % 97 == 0 {
      var r := (u - w) / 97;
      var q := if w == 10 then 10 * t / 97 else t + 3 * t / 97;
      Multiple(w * (t - 1), q + r);
      DivideTen(w, t - 1);
    }
  }

  lemma AfterEnd(n: nat, k: nat, w: int)
    requires (n == k + 1 && w == 10) || (n == k + 2 && w == 100)
    ensures (Ten(n) - w) % 97 == 0 <==> Ten(k) == 1
  {
    if w == 100 {
      After2(k);
    }
    OneFactor(Ten(k), Ten(n), w);
  }

  lemma ZeroFactor(d: int, x: int, w: int)
    requires -97 < d < 97
    ensures Congruent(d * x, w * d) <==> d == 0 || (x - w) % 97 == 0
  {
    var z := x - w;
    assert d * x - w * d == d * z;
    if (d * z) % 97 == 0 && d != 0 {
      if d > 0 {
        Prime(d, z);
      } else {
        Multiple(-d * z, -(d * z / 97));
        Prime(-d, z);
      }
    }
    if z % 97 == 0 {
      Multiple(d * z, d * (z / 97));
    }
  }

  lemma SameKindEnds(a: char, b: char, n: nat)
    requires IsAlnum(a) && IsAlnum(b) && (IsLetter(a) <==> IsLetter(b)) && n >= 2
    ensures EndsHidden(a, b, n) <==> CharNumber(a) == CharNumber(b) || (n - |ExpandChar(a)|) % 96 == 0
  {
    hide Ten;
    ExpandCharValue(a);
    var k: nat := n - |ExpandChar(a)|;
    ZeroFactor(CharNumber(a) - CharNumber(b), Ten(n), Width(a));
    AfterEnd(n, k, Width(a));
    OrderOfTen(k);
  }

  lemma DigitEnds(a: char, b: char, n: nat)
    requires IsDigit(a) && IsDigit(b) && a != b && n >= 2
    ensures EndsHidden(a, b, n) <==> (n - 1) % 96 == 0
  {
    SameKindEnds(a, b, n);
    ExpandCharValue(a);
  }

  /** Two different digits on both sides of the fourth place change places unnoticed exactly if the number
      has 97 digits or 193. */
  lemma BoundaryDigits(s: string)
    requires CheckResult(s) == 0 && IsDigit(s[3]) && IsDigit(s[4]) && s[3] != s[4]
    ensures CheckResult(Swapped(s, 3)) == if |Rearranged(s)| in {97, 193} then 0 else 1
  {
    hide Value, EndsHidden;
    NumberLength(s);
    BoundarySwapDecides(s);
    DigitEnds(s[3], s[4], |Rearranged(s)|);
    HiddenLengths(|Rearranged(s)|);
  }

  lemma HiddenLengths(n: nat)
    requires 2 <= n <= 255
    ensures (n - 1) % 96 == 0 <==> n in {97, 193}
  {
  }

  // ---------- all swaps ----------

  /** Two swapped neighbours, wherever they stand, are found, except exactly the hidden swaps. */
  lemma SwapDecides(s: string, i: nat)
    requires CheckResult(s) == 0 && i + 2 <= |s|
    requires IsAlnum(s[i]) && IsAlnum(s[i + 1])
    requires CountryInCapitals(Swapped(s, i))
    ensures var hidden := if i == 3 then EndsHidden(s[3], s[4], |Rearranged(s)|) else SwapHidden(s[i], s[i + 1]);
            CheckResult(Swapped(s, i)) == if hidden then 0 else 1
  {
    if i == 3 {
      BoundarySwapDecides(s);
    } else {
      SideSwapDecides(s, i);
    }
  }

  /** Two different digits change places unnoticed only on both sides of the fourth place, and there
      exactly if the number has 97 digits or 193. */
  lemma SwappedDigits(s: string, i: nat)
    requires CheckResult(s) == 0 && i + 2 <= |s|
    requires IsDigit(s[i]) && IsDigit(s[i + 1]) && s[i] != s[i + 1]
    ensures CheckResult(Swapped(s, i)) == if i == 3 && |Rearranged(s)| in {97, 193} then 0 else 1
  {
    if i == 3 {
      BoundaryDigits(s);
    } else {
      SideDigits(s, i);
    }
  }

  lemma SideDigits(s: string, i: nat)
    requires CheckResult(s) == 0 && i + 2 <= |s| && i != 3
    requires IsDigit(s[i]) && IsDigit(s[i + 1]) && s[i] != s[i + 1]
    ensures CheckResult(Swapped(s, i)) == 1
  {
    hide Value;
    DigitsBehindCountry(s, i);
    SideSwapDecides(s, i);
  }

  lemma DigitsBehindCountry(s: string, i: nat)
    requires Readable(s) && i + 2 <= |s| && IsDigit(s[i]) && IsDigit(s[i + 1])
    ensures i >= 2 && CountryInCapitals(Swapped(s, i))
  {
  }

  lemma NumberLength(s: string)
    requires Readable(s)
    ensures 2 <= |Rearranged(s)| <= 255
  {
    CountryFirst(s);
  }

  // ---------- examples ----------

  function Zeros(n: nat): (z: string)
    ensures |z| == n && AllDigits(z) && Value(z) == 0
  {
    if n == 0 then "" else
      var z := Zeros(n - 1) + ['0'];
      assert z[..n - 1] == Zeros(n - 1);
      z
  }

  lemma FixedDigits(e: string)
    requires e == "131400"
    ensures AllDigits(e) && Value(e) == 131400
  {
    TwoDigits("13");
    TwoDigits("14");
    TwoDigits("00");
    ValueConcat("13", "14");
    ValueConcat("13" + "14", "00");
    ShiftOneTwo(13);
    ShiftOneTwo(1314);
    assert e == "13" + "14" + "00";
  }

  lemma LongValue(zeros: string, bban: string, n: nat)
    requires AllDigits(zeros) && Value(zeros) == 0 && bban == "5" + zeros && n == |zeros| + 6
    ensures AllDigits(bban) && Expand(bban) == bban && AllDigits(bban + "131400")
    ensures Value(bban + "131400") == Shift(5, n) + 131400
  {
    var e, five := "131400", "5";
    ExpandDigits(bban);
    FixedDigits(e);
    ValueConcat(zeros, e);
    ShiftProduct(0, |e|);
    assert bban + e == five + (zeros + e);
    ValueConcat(five, zeros + e);
    assert five[..0] == [] && Value(five) == 5;
  }

  lemma LongRemainder(zeros: string, bban: string)
    requires AllDigits(zeros) && Value(zeros) == 0 && bban == "5" + zeros && |zeros| == 90
    ensures AllDigits(bban) && Expand(bban) == bban && OpenRemainder(bban) == 67
  {
    LongValue(zeros, bban, |zeros| + 6);
    ShiftPeriod(5, |zeros| + 6);
    LongSum(Shift(5, |zeros| + 6));
  }

  lemma LongSum(n: int)
    requires n % 97 == 5
    ensures (n + 131400) % 97 == 67
  {
  }

  /** There is a valid IBAN, with a number of 97 digits, whose last check digit 1 and first account digit 5
      change places unnoticed. */
  lemma HiddenBoundaryExample(s: string)
    requires s == Assemble("31", "5" + Zeros(90))
    ensures CheckResult(s) == 0 && |s| == 95 && Swapped(s, 3) != s && CheckResult(Swapped(s, 3)) == 0
  {
    hide Value, Zeros;
    var zeros := Zeros(90);
    var bban := "5" + zeros;
    LongRemainder(zeros, bban);
    TwoDigits("31");
    AcceptedCheckDigits("31", bban);
    assert s[3] == "31"[1] && s[4] == bban[0] && Swapped(s, 3)[3] == '5';
    ExpandHead("31");
    SwappedDigits(s, 3);
  }

  /** So wherever 1 and B stand side by side in the number, they can change places without being found. */
  lemma HiddenSwap(s: string, i: nat)
    requires CheckResult(s) == 0 && 4 <= i && i + 2 <= |s| && s[i] == '1' && s[i + 1] == 'B'
    ensures Swapped(s, i) != s && CheckResult(Swapped(s, i)) == 0
  {
    assert Readable(s) && CountryInCapitals(Swapped(s, i));
    assert Swapped(s, i)[i] == 'B';
    SwapDecides(s, i);
  }

  lemma MadeFrom(bankCode: string, accountNumber: string, iban: string)
    requires |bankCode| == 2 && iban == MadeIban(bankCode, accountNumber)
    ensures |iban| >= 12 && iban[10] == bankCode[0] && iban[11] == bankCode[1]
  {
    assert iban[4..] == Bban(bankCode, accountNumber);
    assert iban[10] == iban[4..][6] && iban[11] == iban[4..][7];
  }

  lemma ShortFits(a: char, b: char)
    requires IsAlnum(a) && IsAlnum(b)
    ensures Fits([a, b], 31) && Fits([b], 31)
  {
    FlatMapCons(ExpandChar, a, [b]);
    FlatMapOne(ExpandChar, a);
    FlatMapOne(ExpandChar, b);
    assert [a, b] == [a] + [b] && [a, b][..1] == [a] && [b][..0] == [];
  }

  /** There is such a valid IBAN: the one made from bank code 1B and account number 0. */
  lemma HiddenSwapExample(iban: string)
    requires iban == MadeIban("1B", "0")
    ensures CheckResult(iban) == 0 && |iban| >= 12
    ensures Swapped(iban, 10) != iban && CheckResult(Swapped(iban, 10)) == 0
  {
    ShortFits('1', 'B');
    ShortFits('0', '0');
    MadeIbanIsValid("1B", "0");
    MadeFrom("1B", "0", iban);
    HiddenSwap(iban, 10);
  }
}
