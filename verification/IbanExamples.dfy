/** IBANs whose check digits were computed elsewhere. */
module IbanExamples {
  import opened Decimal
  import opened GermanIban
  import opened Iban
  import opened Mod97
  import opened Seqs

  lemma PairValue(v: int, w: int, r: int, d: int)
    requires w == 100 * v + d && v % 97 == r
    ensures w % 97 == (100 * r + d) % 97
  {
    CongruentMod(w, 100 * r + d);
    Multiple(w - (100 * r + d), 100 * (v / 97));
  }

  lemma PairAppended(a: string, d: string)
    requires AllDigits(a) && AllDigits(d) && |d| == 2
    ensures AllDigits(a + d) && Value(a + d) == 100 * Value(a) + Value(d)
  {
    ValueConcat(a, d);
    assert Shift(Value(a), 2) == 10 * Shift(Value(a), 1) && Shift(Value(a), 1) == 10 * Value(a);
  }

  ghost predicate Leaves(s: string, r: nat) {
    AllDigits(s) && Value(s) % 97 == r
  }

  /** Two more digits: how the remainder goes on. */
  lemma TwoMore(a: string, x: char, y: char, ad: string, r: nat, r': nat)
    requires Leaves(a, r) && IsDigit(x) && IsDigit(y) && ad == a + [x, y]
    requires r' == (100 * r + (10 * DigitValue(x) + DigitValue(y))) % 97
    ensures Leaves(ad, r')
  {
    hide Value;
    TwoDigits([x, y]);
    PairAppended(a, [x, y]);
    PairValue(Value(a), Value(ad), r, 10 * DigitValue(x) + DigitValue(y));
  }

  lemma BritishDigits1()
    ensures Leaves("3214282912", 23)
  {
    TwoMore("", '3', '2', "32", 0, 32);
    hide Leaves;
    TwoMore("32", '1', '4', "3214", 32, 13);
    TwoMore("3214", '2', '8', "321428", 13, 67);
    TwoMore("321428", '2', '9', "32142829", 67, 36);
    TwoMore("32142829", '1', '2', "3214282912", 36, 23);
  }

  lemma BritishDigits2()
    ensures Leaves("32142829123456987654", 58)
  {
    hide Leaves;
    BritishDigits1();
    TwoMore("3214282912", '3', '4', "321428291234", 23, 6);
    TwoMore("321428291234", '5', '6', "32142829123456", 6, 74);
    TwoMore("32142829123456", '9', '8', "3214282912345698", 74, 29);
    TwoMore("3214282912345698", '7', '6', "321428291234569876", 29, 66);
    TwoMore("321428291234569876", '5', '4', "32142829123456987654", 66, 58);
  }

  lemma BritishDigits()
    ensures Leaves("3214282912345698765432161182", 1)
  {
    hide Leaves;
    BritishDigits2();
    TwoMore("32142829123456987654", '3', '2', "3214282912345698765432", 58, 12);
    TwoMore("3214282912345698765432", '1', '6', "321428291234569876543216", 12, 52);
    TwoMore("321428291234569876543216", '1', '1', "32142829123456987654321611", 52, 70);
    TwoMore("32142829123456987654321611", '8', '2', "3214282912345698765432161182", 70, 1);
  }

  lemma LetterPair(c: char, d: char, x: string, y: string)
    requires 'A' <= c <= 'Z' && 'A' <= d <= 'Z'
    requires x == TwoOf(10 + (c - 'A') as int) && y == TwoOf(10 + (d - 'A') as int)
    ensures Clean([c, d]) && Expand([c, d]) == x + y
  {
    hide Expand;
    LetterDigits((c - 'A') as int, c, ((c as int) + 32) as char);
    LetterDigits((d - 'A') as int, d, ((d as int) + 32) as char);
    ExpandJoined([c], [d]);
    assert [c] + [d] == [c, d];
  }

  lemma LettersAndDigits(a: string, x: string, d: string, s: string)
    requires Clean(a) && Expand(a) == x && AllDigits(d) && s == a + d
    ensures Clean(s) && Expand(s) == x + d
  {
    ExpandDigits(d);
    ExpandJoined(a, d);
  }

  lemma BritishExpanded()
    ensures Clean("WEST12345698765432") && Expand("WEST12345698765432") == "3214282912345698765432"
    ensures Clean("GB82") && Expand("GB82") == "161182"
  {
    hide Expand, Clean;
    LetterPair('W', 'E', "32", "14");
    LetterPair('S', 'T', "28", "29");
    LetterPair('G', 'B', "16", "11");
    ExpandJoined(['W', 'E'], ['S', 'T']);
    assert "32" + "14" == "3214" && "28" + "29" == "2829" && "16" + "11" == "1611";
    assert "3214" + "2829" == "32142829";
    LettersAndDigits(['W', 'E'] + ['S', 'T'], "32142829", "12345698765432", "WEST12345698765432");
    LettersAndDigits(['G', 'B'], "1611", "82", "GB82");
  }

  lemma FitsEasily(s: string, maxLen: nat)
    requires Clean(s) && |Expand(s)| < maxLen
    ensures Fits(s, maxLen)
  {
    if s != [] {
      FlatMapPrefix(ExpandChar, s, |s| - 1);
    }
  }

  /** The example for Britain is valid. */
  lemma BritishIban(s: string)
    requires s == "GB82WEST12345698765432"
    ensures CheckResult(s) == 0
  {
    hide Expand, Clean, Fits, Value;
    BritishDigits();
    BritishExpanded();
    assert s[4..] == "WEST12345698765432" && s[..4] == "GB82";
    FitsEasily(s[4..], 255);
    FitsEasily(s[..4], 255 - |Expand(s[4..])|);
    assert "3214282912345698765432" + "161182" == "3214282912345698765432161182";
  }

  lemma GermanDigits1()
    ensures Leaves("370400440532", 58)
  {
    TwoMore("", '3', '7', "37", 0, 37);
    hide Leaves;
    TwoMore("37", '0', '4', "3704", 37, 18);
    TwoMore("3704", '0', '0', "370400", 18, 54);
    TwoMore("370400", '4', '4', "37040044", 54, 12);
    TwoMore("37040044", '0', '5', "3704004405", 12, 41);
    TwoMore("3704004405", '3', '2', "370400440532", 41, 58);
  }

  lemma GermanDigits()
    ensures Leaves("370400440532013000131400", 9)
  {
    hide Leaves;
    GermanDigits1();
    TwoMore("370400440532", '0', '1', "37040044053201", 58, 78);
    TwoMore("37040044053201", '3', '0', "3704004405320130", 78, 70);
    TwoMore("3704004405320130", '0', '0', "370400440532013000", 70, 16);
    TwoMore("370400440532013000", '1', '3', "37040044053201300013", 16, 61);
    TwoMore("37040044053201300013", '1', '4', "3704004405320130001314", 61, 3);
    TwoMore("3704004405320130001314", '0', '0', "370400440532013000131400", 3, 9);
  }

  /** The example for Germany is what the generator makes. */
  lemma GermanExample()
    ensures MadeIban("37040044", "0532013000") == "DE89370400440532013000"
  {
    hide Value, Expand;
    var bban := "370400440532013000";
    GermanDigits();
    assert Bban("37040044", "0532013000") == bban;
    ExpandDigits(bban);
    assert bban + "131400" == "370400440532013000131400";
    TwoDigits("89");
    SameDigits(Print2(89), "89");
    assert "DE" + "89" + bban == "DE89370400440532013000";
  }
}
