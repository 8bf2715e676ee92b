/** Checking and making IBANs (ISO 13616-1 with the MOD 97-10 system of ISO/IEC 7064). */
module Iban {
  import opened Ascii
  import opened CStrings
  import opened Decimal
  import opened Mod97
  import opened Seqs

  // ---------- specification ----------

  /** `toupper` in the C locale */
  function Upper(c: char): char {
    if 'a' <= c <= 'z' then (c as int - 32) as char else c
  }

  predicate IsLetter(c: char) {
    'A' <= Upper(c) <= 'Z'
  }

  predicate IsAlnum(c: char) {
    IsLetter(c) || IsDigit(c)
  }

  predicate Clean(s: string) {
    forall i :: 0 <= i < |s| ==> IsAlnum(s[i]) || s[i] == ' '
  }

  /** The digits that stand for one character: letters count from 10, blanks vanish. */
  function ExpandChar(c: char): (e: string)
    ensures AllDigits(e) && |e| <= 2
  {
    if IsLetter(c) then
      var v := 10 + (Upper(c) as int - 'A' as int);
      [DigitChar(v / 10), DigitChar(v % 10)]
    else if IsDigit(c) then [c]
    else []
  }

  function Expand(s: string): (e: string)
    ensures AllDigits(e)
  {
    FlatMapAll(ExpandChar, s, IsDigit);
    FlatMap(ExpandChar, s)
  }

  /** The text can be expanded into `maxLen` digits. A last character must find at least one digit
      of room left, even when it is a blank that needs none. */
  predicate Fits(s: string, maxLen: nat) {
    && Clean(s)
    && |Expand(s)| <= maxLen
    && (s == [] || |Expand(s[..|s| - 1])| < maxLen)
  }

  /** The number a check is computed over: country code and check digits moved to the end. */
  function Rearranged(iban: string): (e: string)
    requires |iban| >= 4
    ensures AllDigits(e)
  {
    Expand(iban[4..]) + Expand(iban[..4])
  }

  /** The country code is in upper case and the text fits the 255 digits of the work area. */
  predicate Readable(iban: string) {
    && |iban| >= 5
    && 'A' <= iban[0] <= 'Z' && 'A' <= iban[1] <= 'Z'
    && Fits(iban[4..], 255)
    && Fits(iban[..4], 255 - |Expand(iban[4..])|)
  }

  /** 0 for a valid IBAN, 1 for a wrong checksum, -1 for text that is no IBAN at all. */
  function CheckResult(iban: string): int {
    if !Readable(iban) then -1
    else if Value(Rearranged(iban)) % 97 == 1 then 0
    else 1
  }

  lemma {:induction false} ExpandDigits(s: string)
    requires AllDigits(s)
    ensures Expand(s) == s && Clean(s)
  {
    if s != [] {
      ExpandDigits(s[..|s| - 1]);
      assert s == s[..|s| - 1] + [s[|s| - 1]];
    }
  }

  /** Text whose expansion fills all the room, or more, before its end does not fit. */
  lemma Overfull(t: string, j: nat, maxLen: nat)
    requires j <= |t|
    requires if j < |t| then |Expand(t[..j])| >= maxLen else |Expand(t)| > maxLen
    ensures !Fits(t, maxLen)
  {
    if j < |t| {
      FlatMapPrefix(ExpandChar, t[..|t| - 1], j);
      assert t[..|t| - 1][..j] == t[..j];
    }
  }

  lemma BlankAppended(t: string)
    ensures Expand(t + " ") == Expand(t) && (Clean(t + " ") <==> Clean(t))
  {
    FlatMapSnoc(ExpandChar, t, ' ');
    assert forall i :: 0 <= i < |t| ==> (t + " ")[i] == t[i];
  }

  /** Text that fits fits with a blank behind it only if it leaves room for a digit more. */
  lemma BlankNeedsRoom(t: string, maxLen: nat)
    requires Fits(t, maxLen)
    ensures Fits(t + " ", maxLen) <==> |Expand(t)| < maxLen
  {
    BlankAppended(t);
    assert (t + " ")[..|t|] == t;
  }

  lemma CountryFirst(s: string)
    requires |s| >= 4 && IsLetter(s[0])
    ensures |Expand(s[..4])| >= 2
  {
    var head := s[..4];
    FlatMapPrefix(ExpandChar, head, 1);
    assert head[..1] == [s[0]];
    FlatMapOne(ExpandChar, s[0]);
  }

  /** For the checker it makes no difference whether a blank follows. */
  lemma BlankIgnored(s: string)
    requires |s| >= 5
    ensures CheckResult(s + " ") == CheckResult(s)
  {
    var t := s[4..];
    assert (s + " ")[4..] == t + " " && (s + " ")[..4] == s[..4];
    BlankAppended(t);
    assert (t + " ")[..|t|] == t;
    FlatMapPrefix(ExpandChar, t, |t| - 1);
    if IsLetter(s[0]) {
      CountryFirst(s);
    }
  }

  // ---------- which digits stand for which character ----------

  /** The two digits of a number below 100 */
  function TwoOf(n: nat): string
    requires n < 100
  {
    [('0' as int + n / 10) as char, ('0' as int + n % 10) as char]
  }

  /** Letter number `i` of the alphabet, counted from 0, stands for 10 + i whether it is a capital or not. */
  lemma LetterDigits(i: nat, capital: char, small: char)
    requires i < 26 && capital as int == 'A' as int + i && small as int == 'a' as int + i
    ensures Expand([capital]) == Expand([small]) == TwoOf(10 + i)
    ensures Clean([capital]) && Clean([small])
  {
    FlatMapOne(ExpandChar, capital);
    FlatMapOne(ExpandChar, small);
    assert Upper(small) == capital;
  }

  /** A digit stands for itself, a blank for nothing, and no other character is taken. */
  lemma OtherDigits(c: char)
    requires !('A' <= c <= 'Z') && !('a' <= c <= 'z')
    ensures Clean([c]) <==> '0' <= c <= '9' || c == ' '
    ensures Expand([c]) == if '0' <= c <= '9' then [c] else ""
  {
    FlatMapOne(ExpandChar, c);
  }

  /** The digits of a text are those of its characters, one after the other. */
  lemma ExpandJoined(a: string, b: string)
    ensures Expand(a + b) == Expand(a) + Expand(b) && (Clean(a + b) <==> Clean(a) && Clean(b))
  {
    FlatMapConcat(ExpandChar, a, b);
    assert forall k :: 0 <= k < |a| ==> (a + b)[k] == a[k];
    assert forall k :: 0 <= k < |b| ==> (a + b)[|a| + k] == b[k];
  }

  lemma CaseDigits(c: char, d: char)
    requires OtherCase(c, d)
    ensures Expand([d]) == Expand([c]) && Clean([d]) && Clean([c])
  {
    FlatMapOne(ExpandChar, c);
    FlatMapOne(ExpandChar, d);
    assert Upper(d) == Upper(c);
  }

  lemma SameExpansion(s: string, i: nat, c: char, t: string)
    requires i < |s| && OtherCase(s[i], c) && t == s[i := c]
    ensures Expand(t) == Expand(s) && (Clean(t) <==> Clean(s))
  {
    hide Expand, Clean, OtherCase;
    var a, b := s[..i], s[i + 1..];
    assert s == a + ([s[i]] + b) && t == a + ([c] + b);
    ExpandJoined(a, [s[i]] + b);
    ExpandJoined([s[i]], b);
    ExpandJoined(a, [c] + b);
    ExpandJoined([c], b);
    CaseDigits(s[i], c);
  }

  lemma SameFit(s: string, i: nat, c: char, t: string, maxLen: nat)
    requires i < |s| && OtherCase(s[i], c) && t == s[i := c]
    ensures Expand(t) == Expand(s) && (Fits(t, maxLen) <==> Fits(s, maxLen))
  {
    SameExpansion(s, i, c, t);
    var n := |s| - 1;
    if i < n {
      SameExpansion(s[..n], i, c, t[..n]);
    } else {
      assert t[..n] == s[..n];
    }
  }

  lemma FitWithoutBlanks(s: string, maxLen: nat)
    requires ' ' !in s
    ensures Fits(s, maxLen) <==> Clean(s) && |Expand(s)| <= maxLen
  {
    if s != [] && Clean(s) {
      var n := |s| - 1;
      assert s == s[..n] + [s[n]] && s[n] in s;
      ExpandJoined(s[..n], [s[n]]);
      FlatMapOne(ExpandChar, s[n]);
    }
  }

  /** Text without blanks is refused exactly if it is too short, does not start with two capitals, has a character
      that is no letter and no digit, or takes more than 255 digits. */
  lemma RefusedExactly(iban: string)
    requires ' ' !in iban
    ensures CheckResult(iban) == -1
       <==> || |iban| < 5 || !('A' <= iban[0] <= 'Z') || !('A' <= iban[1] <= 'Z')
            || (exists c <- iban :: !('A' <= c <= 'Z') && !('a' <= c <= 'z') && !('0' <= c <= '9'))
            || |Expand(iban)| > 255
  {
    if |iban| >= 5 {
      var head, tail := iban[..4], iban[4..];
      assert iban == head + tail;
      ExpandJoined(head, tail);
      FitWithoutBlanks(head, if |Expand(tail)| <= 255 then 255 - |Expand(tail)| else 0);
      FitWithoutBlanks(tail, 255);
      CleanExactly(iban);
    }
  }

  lemma CleanExactly(s: string)
    requires ' ' !in s
    ensures !Clean(s) <==> exists c <- s :: !('A' <= c <= 'Z') && !('a' <= c <= 'z') && !('0' <= c <= '9')
  {
    if c :| c in s && !('A' <= c <= 'Z') && !('a' <= c <= 'z') && !('0' <= c <= '9') {
      var i :| 0 <= i < |s| && s[i] == c;
      assert !IsAlnum(s[i]);
    }
    if i :| 0 <= i < |s| && !(IsAlnum(s[i]) || s[i] == ' ') {
      assert s[i] in s;
      AlnumExactly(s[i]);
    }
  }

  lemma AlnumExactly(c: char)
    ensures IsAlnum(c) <==> 'A' <= c <= 'Z' || 'a' <= c <= 'z' || '0' <= c <= '9'
  {
  }

  /** Behind the country code it makes no difference whether letters are capitals. */
  lemma CaseIgnored(s: string, i: nat, c: char)
    requires 2 <= i < |s| && OtherCase(s[i], c)
    ensures CheckResult(s[i := c]) == CheckResult(s)
  {
    var t := s[i := c];
    if |s| >= 5 {
      if i < 4 {
        assert t[4..] == s[4..] && t[..4] == s[..4][i := c];
        if |Expand(s[4..])| <= 255 {
          SameFit(s[..4], i, c, t[..4], 255 - |Expand(s[4..])|);
        }
        SameExpansion(s[..4], i, c, t[..4]);
      } else {
        assert t[..4] == s[..4] && t[4..] == s[4..][i - 4 := c];
        SameFit(s[4..], i - 4, c, t[4..], 255);
      }
    }
  }

  // ---------- the code ----------

  /** `done` is what the first `j` characters expand to, and there was room before each of them. */
  ghost predicate Done(t: string, j: nat, maxLen: nat, done: string) {
    && j <= |t| && Clean(t[..j]) && done == Expand(t[..j]) && |done| <= maxLen
    && (j > 0 ==> |Expand(t[..j - 1])| < maxLen)
  }

  lemma OneMoreDone(t: string, j: nat, maxLen: nat, done: string, j': nat, done': string)
    requires Done(t, j, maxLen, done) && j < |t| && |done| < maxLen && (IsAlnum(t[j]) || t[j] == ' ')
    requires j' == j + 1 && done' == done + ExpandChar(t[j]) && |done'| <= maxLen
    ensures Done(t, j', maxLen, done')
  {
    FlatMapStep(ExpandChar, t, j);
  }

  /** One turn of the loop: refused are characters that no IBAN has, and a letter whose second digit
      finds no room. */
  method TransformChar(c0: char, newIban: array<char>, off: nat, i0: nat, maxLen: nat) returns (ok: bool, i: nat)
    requires i0 < maxLen && off + maxLen < newIban.Length
    modifies newIban
    ensures ok <==> (IsAlnum(c0) || c0 == ' ') && i0 + |ExpandChar(c0)| <= maxLen
    ensures ok ==> i == i0 + |ExpandChar(c0)|
    ensures ok ==> newIban[off..off + i] == old(newIban[off..off + i0]) + ExpandChar(c0)
    ensures newIban[..off] == old(newIban[..off])
  {
    i := i0;
    var c := Upper(c0);
    if c != ' ' {
      if 'A' <= c <= 'Z' {
        var v := 10 + (c as int - 'A' as int);
        Put(newIban, off, off + i, DigitChar(v / 10));
        i := i + 1;
        if i >= maxLen {
          return false, i;
        }
        Put(newIban, off, off + i, DigitChar(v % 10));
        i := i + 1;
      } else if IsDigit(c) {
        Put(newIban, off, off + i, c);
        i := i + 1;
      } else {
        return false, i;
      }
    }
    return true, i;
  }

  method TransformIban(iban: string, len: nat, newIban: array<char>, off: nat, maxLen: nat) returns (rv: int)
    requires len <= |iban|
    requires off + maxLen < newIban.Length
    modifies newIban
    ensures rv == 0 || rv == -1
    ensures rv == 0 <==> Fits(iban[..len], maxLen)
    ensures rv == 0 ==> Holds(newIban, off, Expand(iban[..len]))
    ensures newIban[..off] == old(newIban[..off])
  {
    var i, j := 0, 0;
    ghost var t, done := iban[..len], "";
    assert t[..0] == [];
    while j < len && i < maxLen
      invariant |done| == i && Done(t, j, maxLen, done) && newIban[off..off + i] == done
      invariant newIban[..off] == old(newIban[..off])
    {
      ghost var k, before := j, done;
      var ok;
      ok, i := TransformChar(iban[j], newIban, off, i, maxLen);
      if !ok {
        Refused(t, j, maxLen, done);
        return -1;
      }
      done := done + ExpandChar(t[j]);
      j := j + 1;
      OneMoreDone(t, k, maxLen, before, j, done);
    }
    assert t[..len] == t;
    if j < len {
      Overfull(t, j, maxLen);
      return -1;
    }
    newIban[off + i] := '\0';
    assert newIban[off..off + i] == done;
    return 0;
  }

  lemma Refused(t: string, j: nat, maxLen: nat, done: string)
    requires Done(t, j, maxLen, done) && j < |t|
    requires !(IsAlnum(t[j]) || t[j] == ' ') || |done| + |ExpandChar(t[j])| > maxLen
    ensures !Fits(t, maxLen)
  {
    if IsAlnum(t[j]) || t[j] == ' ' {
      FlatMapStep(ExpandChar, t, j);
      assert t[..|t|] == t;
      Overfull(t, j + 1, maxLen);
    }
  }

  /** Fills `tmp` up to nine characters from `num`, as far as that goes. */
  method FillChunk(tmp: array<char>, i0: nat, num: string, p0: nat) returns (i: nat, p: nat)
    requires tmp.Length == 10 && i0 <= 2 && p0 < |num|
    modifies tmp
    ensures i <= 9 && p0 < p <= |num|
    ensures tmp[..i] == old(tmp[..i0]) + num[p0..p] && tmp[i] == '\0'
  {
    i, p := i0, p0;
    while i < 9
      invariant i0 <= i <= 9 && i - i0 == p - p0 && p <= |num|
      invariant tmp[..i] == old(tmp[..i0]) + num[p0..p]
      invariant i == i0 ==> p < |num|
    {
      if p == |num| {
        break;
      }
      tmp[i] := num[p];
      assert num[p0..p + 1] == num[p0..p] + [num[p]];
      i, p := i + 1, p + 1;
    }
    tmp[i] := '\0';
  }

  /** Reading the carried remainder together with the next chunk leaves, modulo 97, what reading
      everything consumed so far would leave; at most nine digits never overflow 32 bits. */
  lemma ChunkRemainder(num: string, start: nat, p: nat, carried: string, j: nat)
    requires AllDigits(num) && AllDigits(carried) && start <= p <= |num|
    requires |carried| + p - start <= 9
    requires Value(carried) == j && Congruent(j, Value(num[..start]))
    ensures AllDigits(carried + num[start..p])
    ensures Value(carried + num[start..p]) < 1_000_000_000
    ensures Congruent(Value(carried + num[start..p]) % 97, Value(num[..p]))
  {
    SuffixNeutral(carried, num[..start], num[start..p]);
    assert num[..start] + num[start..p] == num[..p];
    var chunk := carried + num[start..p];
    CongruentReduce(Value(chunk), Value(num[..p]));
    ValueBound(chunk);
    ShiftAtMostNine(|chunk|);
  }

  /** `p` characters are read, and the text `carried` of their remainder `j` stands before the others. */
  ghost predicate Reduced(num: string, p: nat, j: int, carried: string)
    requires AllDigits(num)
  {
    && p <= |num| && 0 <= j < 97 && Congruent(j, Value(num[..p]))
    && AllDigits(carried) && |carried| <= 2 && Value(carried) == j
  }

  lemma NothingRead(num: string)
    requires AllDigits(num)
    ensures Reduced(num, 0, 0, "")
  {
    assert num[..0] == [];
  }

  lemma AllRead(num: string, j: int, carried: string)
    requires AllDigits(num) && Reduced(num, |num|, j, carried)
    ensures j == Value(num) % 97
  {
    assert num[..|num|] == num;
    CongruentMod(j, Value(num));
  }

  /** One turn of the loop below. */
  method ReduceChunk(num: string, p0: nat, tmp: array<char>, j0: int, ghost carried: string)
    returns (ok: bool, p: nat, j: int, ghost carried': string)
    requires AllDigits(num) && p0 < |num| && Reduced(num, p0, j0, carried)
    requires tmp.Length == 10 && Holds(tmp, 0, carried)
    modifies tmp
    ensures ok && p0 < p <= |num| && Reduced(num, p, j, carried') && Holds(tmp, 0, carried')
  {
    hide Value, Congruent;
    j := j0;
    var i := StrLen(tmp, 0, carried);
    assert tmp[..i] == tmp[0..i];
    i, p := FillChunk(tmp, i, num, p0);
    var chunk := tmp[..i];
    ChunkRemainder(num, p0, p, carried, j);
    match Scan(chunk) {
      case None =>
        return false, p, j, carried;
      case Some(v) =>
        j := v % 97;
    }
    carried' := Print(j);
    var printed := Print(j);
    StrCopy(tmp, 0, printed);
    ok := true;
  }

  /** The loop that both callers use to reduce a digit string modulo 97, nine characters at a time. */
  method Remainder(num: string) returns (rv: int, j: int)
    requires AllDigits(num)
    ensures rv == 0 && j == Value(num) % 97
  {
    hide Value, Reduced;
    var tmp := new char[10];
    tmp[0] := '\0';
    var p := 0;
    j := 0;
    ghost var carried := "";
    NothingRead(num);
    while p < |num|
      invariant p <= |num| && Reduced(num, p, j, carried) && Holds(tmp, 0, carried)
    {
      var ok;
      ok, p, j, carried := ReduceChunk(num, p, tmp, j, carried);
      if !ok {
        return -1, j;
      }
    }
    AllRead(num, j, carried);
    rv := 0;
  }

  /** Writes the number that the check is computed over. */
  method Rearrange(iban: string, newIban: array<char>) returns (r: int, n: nat)
    requires |iban| >= 5 && newIban.Length == 256
    modifies newIban
    ensures r == 0 <==> Fits(iban[4..], 255) && Fits(iban[..4], 255 - |Expand(iban[4..])|)
    ensures r == 0 ==> n <= 255 && newIban[..n] == Rearranged(iban)
  {
    n := 0;
    var p := iban[4..];
    r := TransformIban(p, |p|, newIban, 0, 255);
    assert p[..|p|] == p;
    if r != 0 {
      return;
    }
    ghost var tail, head := Expand(p), Expand(iban[..4]);
    var s := StrLen(newIban, 0, tail);
    assert newIban[..s] == newIban[0..s] == tail;
    r := TransformIban(iban, 4, newIban, s, 256 - s - 1);
    if r != 0 {
      return;
    }
    JoinedNumber(newIban, s, tail, head);
    n := StrLen(newIban, 0, tail + head);
  }

  lemma JoinedNumber(a: array<char>, s: nat, tail: string, head: string)
    requires s < a.Length && a[..s] == tail && Holds(a, s, head) && '\0' !in tail
    ensures Holds(a, 0, tail + head) && a[..s + |head|] == tail + head
  {
    assert a[..s + |head|] == a[..s] + a[s..s + |head|];
    assert a[0..s + |head|] == a[..s + |head|];
  }

  method CheckIban(iban: string) returns (rv: int)
    ensures rv == CheckResult(iban)
  {
    if |iban| < 5 {
      return -1;
    }
    if !('A' <= iban[0] <= 'Z' && 'A' <= iban[1] <= 'Z') {
      return -1;
    }
    var newIban := new char[256];
    var r, n := Rearrange(iban, newIban);
    if r != 0 {
      return -1;
    }
    var j;
    r, j := Remainder(newIban[..n]);
    if r != 0 {
      return -1;
    }
    if j != 1 {
      return 1;
    }
    return 0;
  }
}
