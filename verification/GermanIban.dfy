/** Making an IBAN from a German bank code and account number, and why it always checks out. */
module GermanIban {
  import opened CStrings
  import opened Decimal
  import opened Iban
  import opened Mod97
  import opened Seqs

  function Pad(s: string, width: nat): (r: string)
    ensures |r| >= width && |r| >= |s|
  {
    if |s| < width then seq(width - |s|, _ => '0') + s else s
  }

  function Bban(bankCode: string, accountNumber: string): string {
    Pad(bankCode, 8) + Pad(accountNumber, 10)
  }

  /** The remainder of the number with 00 in place of the check digits. */
  function OpenRemainder(bban: string): (j: nat)
    ensures j < 97
  {
    Value(Expand(bban) + "131400") % 97
  }

  function Assemble(chk: string, bban: string): (iban: string)
    requires |chk| == 2
    ensures |iban| == 4 + |bban| && iban[2..4] == chk
    ensures iban[..4] == "DE" + chk && iban[4..] == bban
  {
    "DE" + chk + bban
  }

  function MadeIban(bankCode: string, accountNumber: string): string {
    var bban := Bban(bankCode, accountNumber);
    Assemble(Print2(98 - OpenRemainder(bban)), bban)
  }

  // ---------- what is written where ----------

  /** The field is the part with zeros in front, as many as it takes to fill `width`. */
  ghost predicate Filled(field: string, part: string, width: nat) {
    && |field| == (if |part| < width then width else |part|)
    && field[|field| - |part|..] == part
    && forall i :: 0 <= i < |field| - |part| ==> field[i] == '0'
  }

  /** A German IBAN as it is meant: country, two check digits, the bank code in eight places and the account
      number in ten. */
  ghost predicate Spells(iban: string, bankCode: string, accountNumber: string) {
    var n := if |bankCode| < 8 then 8 else |bankCode|;
    && |iban| >= 4 + n && iban[..2] == "DE" && IsDigit(iban[2]) && IsDigit(iban[3])
    && Filled(iban[4..4 + n], bankCode, 8) && Filled(iban[4 + n..], accountNumber, 10)
  }

  lemma PadFills(part: string, width: nat)
    ensures Filled(Pad(part, width), part, width)
  {
  }

  lemma MadeIbanSpells(bankCode: string, accountNumber: string)
    ensures Spells(MadeIban(bankCode, accountNumber), bankCode, accountNumber)
  {
    hide Value, Expand, Pad, OpenRemainder, Print2;
    var a, b := Pad(bankCode, 8), Pad(accountNumber, 10);
    PadFills(bankCode, 8);
    PadFills(accountNumber, 10);
    FieldsOf(MadeIban(bankCode, accountNumber), Print2(98 - OpenRemainder(a + b)), a, b);
  }

  lemma FieldsOf(iban: string, chk: string, a: string, b: string)
    requires |chk| == 2 && AllDigits(chk) && iban == Assemble(chk, a + b)
    ensures |iban| == 4 + |a| + |b| && iban[..2] == "DE" && IsDigit(iban[2]) && IsDigit(iban[3])
    ensures iban[4..4 + |a|] == a && iban[4 + |a|..] == b
  {
    assert iban[2] == iban[2..4][0] && iban[3] == iban[2..4][1];
    assert iban[4..][..|a|] == a && iban[4..][|a|..] == b;
  }

  lemma TwoDrops(s: string, i: nat, j: nat)
    requires i + j <= |s|
    ensures s[i..] == s[i..i + j] + s[i + j..]
  {
  }

  lemma FilledOnce(field: string, part: string, part': string, width: nat)
    requires Filled(field, part, width) && Filled(field, part', width) && |part| <= |part'|
    ensures part' == part'[..|part'| - |part|] + part
    ensures forall i :: 0 <= i < |part'| - |part| ==> part'[i] == '0'
  {
    var n, m := |field| - |part'|, |part'| - |part|;
    assert part' == field[n..] && part == field[n + m..];
    hide Filled;
    TwoDrops(field, n, m);
    assert part'[..m] == field[n..n + m];
  }

  /** One number with zeros in front is the other. */
  ghost predicate SameNumber(part: string, part': string) {
    if |part| <= |part'| then
      part' == part'[..|part'| - |part|] + part && forall i :: 0 <= i < |part'| - |part| ==> part'[i] == '0'
    else
      part == part[..|part| - |part'|] + part' && forall i :: 0 <= i < |part| - |part'| ==> part[i] == '0'
  }

  /** Parts of the usual lengths can be told from what is written, but for zeros in front. */
  lemma SpelledOnce(iban: string, bankCode: string, accountNumber: string, bankCode': string, accountNumber': string)
    requires Spells(iban, bankCode, accountNumber) && Spells(iban, bankCode', accountNumber')
    requires |bankCode| <= 8 && |bankCode'| <= 8
    ensures SameNumber(bankCode, bankCode') && SameNumber(accountNumber, accountNumber')
  {
    var a, b := iban[4..12], iban[12..];
    if |bankCode| <= |bankCode'| {
      FilledOnce(a, bankCode, bankCode', 8);
    } else {
      FilledOnce(a, bankCode', bankCode, 8);
    }
    if |accountNumber| <= |accountNumber'| {
      FilledOnce(b, accountNumber, accountNumber', 10);
    } else {
      FilledOnce(b, accountNumber', accountNumber, 10);
    }
  }

  // ---------- the code ----------

  method MakeGermanIban(bankCode: string, accountNumber: string, ibanBuf: TextBuffer) returns (rv: int)
    modifies ibanBuf
    ensures rv == 0 || rv == -1
    ensures rv == 0 <==> Fits(bankCode, 31) && Fits(accountNumber, 31)
    ensures ibanBuf.text == old(ibanBuf.text) + if rv == 0 then MadeIban(bankCode, accountNumber) else ""
    ensures rv == 0 ==>
              && old(ibanBuf.text) <= ibanBuf.text
              && Spells(ibanBuf.text[|old(ibanBuf.text)|..], bankCode, accountNumber)
              && CheckResult(ibanBuf.text[|old(ibanBuf.text)|..]) == 0
  {
    hide Value, Expand, Pad, Spells, Fits, CheckResult;
    var tbuf := new TextBuffer();
    var numbuf := new char[32];
    rv := Append(bankCode, 8, numbuf, tbuf);
    if rv < 0 {
      return rv;
    }
    rv := Append(accountNumber, 10, numbuf, tbuf);
    if rv < 0 {
      return rv;
    }
    BbanExpands(bankCode, accountNumber);
    tbuf.AppendString("131400");
    var j;
    rv, j := Remainder(tbuf.text);
    if rv != 0 {
      return rv;
    }
    assert j == OpenRemainder(Bban(bankCode, accountNumber));
    var tmp := Print2(98 - j);
    ibanBuf.AppendString("DE");
    ibanBuf.AppendString(tmp);
    AppendPadded(bankCode, 8, ibanBuf);
    AppendPadded(accountNumber, 10, ibanBuf);
    AssembleConcat(old(ibanBuf.text), tmp, Pad(bankCode, 8), Pad(accountNumber, 10));
    MadeAppended(old(ibanBuf.text), bankCode, accountNumber, ibanBuf.text);
    return 0;
  }

  lemma BbanExpands(bankCode: string, accountNumber: string)
    ensures "" + Expand(Pad(bankCode, 8)) + Expand(Pad(accountNumber, 10)) == Expand(Bban(bankCode, accountNumber))
  {
    FlatMapConcat(ExpandChar, Pad(bankCode, 8), Pad(accountNumber, 10));
  }

  lemma AssembleConcat(start: string, chk: string, a: string, b: string)
    requires |chk| == 2
    ensures start + "DE" + chk + a + b == start + Assemble(chk, a + b)
  {
    assert start + "DE" + chk + a + b == start + ("DE" + chk + (a + b));
  }

  /** Filling up with zeros and appending the digits of one part of the number. */
  method Append(part: string, width: nat, numbuf: array<char>, tbuf: TextBuffer) returns (rv: int)
    requires numbuf.Length == 32
    modifies numbuf, tbuf
    ensures rv == 0 || rv == -1
    ensures rv == 0 <==> Fits(part, 31)
    ensures rv == 0 ==> tbuf.text == old(tbuf.text) + Expand(Pad(part, width))
  {
    var i := |part|;
    if i < width {
      tbuf.FillWithBytes('0', width - i);
    }
    ghost var zeros := if i < width then seq(width - i, _ => '0') else "";
    assert tbuf.text == old(tbuf.text) + zeros;
    rv := TransformIban(part, |part|, numbuf, 0, 31);
    assert part[..|part|] == part;
    if rv < 0 {
      return;
    }
    var n := StrLen(numbuf, 0, Expand(part));
    tbuf.AppendString(numbuf[0..n]);
    PadExpands(part, width, zeros);
  }

  lemma PadExpands(part: string, width: nat, zeros: string)
    requires zeros == if |part| < width then seq(width - |part|, _ => '0') else ""
    ensures Expand(Pad(part, width)) == zeros + Expand(part)
  {
    ExpandDigits(zeros);
    FlatMapConcat(ExpandChar, zeros, part);
    assert Pad(part, width) == zeros + part;
  }

  method AppendPadded(part: string, width: nat, buf: TextBuffer)
    modifies buf
    ensures buf.text == old(buf.text) + Pad(part, width)
  {
    var i := |part|;
    if i < width {
      buf.FillWithBytes('0', width - i);
    }
    buf.AppendString(part);
  }

  // ---------- generator and checker agree ----------

  lemma PadFits(part: string, width: nat)
    requires Fits(part, 31) && width <= 10
    ensures Clean(Pad(part, width)) && |Expand(Pad(part, width))| <= 41
  {
    var zeros := if |part| < width then seq(width - |part|, _ => '0') else "";
    PadExpands(part, width, zeros);
  }

  /** The generator refuses a part of 31 digits for a blank behind it. */
  lemma BlankRefused(part: string)
    requires AllDigits(part) && |part| == 31
    ensures Fits(part, 31) && !Fits(part + " ", 31)
  {
    ExpandDigits(part);
    ExpandDigits(part[..30]);
    BlankNeedsRoom(part, 31);
  }

  lemma BbanFits(bankCode: string, accountNumber: string)
    requires Fits(bankCode, 31) && Fits(accountNumber, 31)
    ensures Clean(Bban(bankCode, accountNumber)) && |Expand(Bban(bankCode, accountNumber))| <= 82
  {
    PadFits(bankCode, 8);
    PadFits(accountNumber, 10);
    BbanExpands(bankCode, accountNumber);
  }

  lemma ExpandHead(chk: string)
    requires |chk| == 2 && AllDigits(chk)
    ensures Expand("DE" + chk) == "1314" + chk
  {
    ExpandDigits(chk);
    FlatMapConcat(ExpandChar, "DE", chk);
    assert "DE" == ['D'] + ['E'];
    FlatMapConcat(ExpandChar, ['D'], ['E']);
    FlatMapOne(ExpandChar, 'D');
    FlatMapOne(ExpandChar, 'E');
    assert ExpandChar('D') == "13" && ExpandChar('E') == "14";
  }

  /** The number checked is the number with 00 as check digits, plus the check digits. */
  lemma CheckedNumber(chk: string, bban: string)
    requires |chk| == 2 && AllDigits(chk)
    ensures AllDigits(Expand(bban) + "131400")
    ensures Value(Rearranged(Assemble(chk, bban))) == Value(Expand(bban) + "131400") + Value(chk)
  {
    hide Value, Expand;
    ExpandHead(chk);
    var e := Expand(bban) + "1314";
    assert Expand(bban) + ("1314" + chk) == e + chk;
    assert Rearranged(Assemble(chk, bban)) == e + chk;
    assert "131400" == "1314" + "00";
    assert Expand(bban) + "131400" == e + "00";
    ZerosReplaced(e, chk);
  }

  lemma ZerosReplaced(e: string, chk: string)
    requires AllDigits(e) && |chk| == 2 && AllDigits(chk)
    ensures AllDigits(e + chk) && AllDigits(e + "00")
    ensures Value(e + chk) == Value(e + "00") + Value(chk)
  {
    ValueConcat(e, chk);
    ValueConcat(e, "00");
    TwoDigits("00");
  }

  /** The account numbers for which the number fits the work area of the checker. */
  predicate Checkable(bban: string) {
    bban != [] && Clean(bban) && |Expand(bban)| <= 249
  }

  lemma HeadFits(chk: string, head: string, room: nat)
    requires |chk| == 2 && AllDigits(chk) && head == "DE" + chk
    ensures |Expand(head)| == 6 && (Fits(head, room) <==> room >= 6)
  {
    ExpandHead(chk);
    assert head[..4] == head;
    FlatMapStep(ExpandChar, head, 3);
  }

  lemma ReadableGerman(chk: string, bban: string, iban: string)
    requires |chk| == 2 && AllDigits(chk) && iban == Assemble(chk, bban)
    ensures Readable(iban) <==> Checkable(bban)
  {
    if bban != [] {
      FlatMapPrefix(ExpandChar, bban, |bban| - 1);
    }
    if |Expand(bban)| <= 255 {
      HeadFits(chk, iban[..4], 255 - |Expand(bban)|);
    }
  }

  /** Which check digits a German account number accepts: those congruent to the one computed. */
  lemma AcceptedCheckDigits(chk: string, bban: string)
    requires |chk| == 2 && AllDigits(chk)
    ensures CheckResult(Assemble(chk, bban))
         == if !Checkable(bban) then -1 else if Congruent(Value(chk), 98 - OpenRemainder(bban)) then 0 else 1
  {
    hide CheckResult, Checkable, Congruent;
    CompletedResult(chk, bban, Assemble(chk, bban), OpenRemainder(bban));
  }

  lemma CompletedResult(chk: string, bban: string, iban: string, r: nat)
    requires |chk| == 2 && AllDigits(chk) && iban == Assemble(chk, bban) && r == OpenRemainder(bban)
    ensures CheckResult(iban) == if !Checkable(bban) then -1 else if Congruent(Value(chk), 98 - r) then 0 else 1
  {
    CheckedNumber(chk, bban);
    ReadableGerman(chk, bban, iban);
    RemainderCompletes(Value(Rearranged(iban)), Value(Expand(bban) + "131400"), Value(chk));
  }

  lemma RemainderCompletes(total: int, n: int, c: int)
    requires total == n + c
    ensures total % 97 == 1 <==> Congruent(c, 98 - n % 97)
  {
    var q, d := n / 97, c - (98 - n % 97);
    assert total == 97 * (q + 1) + 1 + d;
    if d % 97 == 0 {
      assert total == 97 * (q + 1 + d / 97) + 1;
    }
    if total % 97 == 1 {
      assert d == 97 * (total / 97 - q - 1);
    }
  }

  /** Whatever the generator makes the checker accepts, and its check digits are 02 to 98. */
  lemma MadeIbanIsValid(bankCode: string, accountNumber: string)
    requires Fits(bankCode, 31) && Fits(accountNumber, 31)
    ensures CheckResult(MadeIban(bankCode, accountNumber)) == 0
    ensures |MadeIban(bankCode, accountNumber)| >= 22
    ensures AllDigits(MadeIban(bankCode, accountNumber)[2..4])
    ensures 2 <= Value(MadeIban(bankCode, accountNumber)[2..4]) <= 98
  {
    BbanFits(bankCode, accountNumber);
    var bban := Bban(bankCode, accountNumber);
    AcceptedCheckDigits(Print2(98 - OpenRemainder(bban)), bban);
  }

  lemma MadeAppended(start: string, bankCode: string, accountNumber: string, text: string)
    requires Fits(bankCode, 31) && Fits(accountNumber, 31) && text == start + MadeIban(bankCode, accountNumber)
    ensures start <= text && text[|start|..] == MadeIban(bankCode, accountNumber)
    ensures Spells(text[|start|..], bankCode, accountNumber) && CheckResult(text[|start|..]) == 0
  {
    MadeIbanSpells(bankCode, accountNumber);
    MadeIbanIsValid(bankCode, accountNumber);
  }

  /** In the range the generator uses, no other check digits are accepted than the ones it computes. */
  lemma OnlyOneCheckInRange(chk: string, bban: string)
    requires |chk| == 2 && AllDigits(chk) && 2 <= Value(chk) <= 98
    requires CheckResult(Assemble(chk, bban)) == 0
    ensures chk == Print2(98 - OpenRemainder(bban))
  {
    AcceptedCheckDigits(chk, bban);
    InRange(Value(chk), 98 - OpenRemainder(bban));
    SameDigits(chk, Print2(98 - OpenRemainder(bban)));
  }

  lemma InRange(a: int, b: int)
    requires 2 <= a <= 98 && 2 <= b <= 98 && Congruent(a, b)
    ensures a == b
  {
  }

  lemma SameDigits(s: string, t: string)
    requires |s| == |t| == 2 && AllDigits(s) && AllDigits(t)
    requires Value(s) == Value(t)
    ensures s == t
  {
    TwoDigits(s);
    TwoDigits(t);
    assert s[0] == t[0] && s[1] == t[1];
  }

  lemma TwoDigits(s: string)
    requires |s| == 2 && AllDigits(s)
    ensures Value(s) == 10 * DigitValue(s[0]) + DigitValue(s[1])
  {
    assert s[..1] == [s[0]] && s[..1][..0] == [];
    assert Value(s[..1]) == DigitValue(s[0]);
  }
}
