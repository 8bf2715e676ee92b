/** Text in the alphabet of DTA messages. */
module Dta {
  import opened MsgBuffer
  import opened Utf8

  const BLANK: Byte := 0x20

  /** `toupper` in the C locale */
  function Upper(c: Byte): Byte {
    if 0x61 <= c <= 0x7a then c - 0x20 else c
  }

  /** " .,&-+*%/$" */
  const PUNCTUATION: set<Byte> := {0x20, 0x2e, 0x2c, 0x26, 0x2d, 0x2b, 0x2a, 0x25, 0x2f, 0x24}

  predicate PlainDta(c: Byte) {
    0x30 <= c <= 0x39 || 0x41 <= c <= 0x5a || c in PUNCTUATION
  }

  /** The DTA alphabet: plain characters, and four codes for German letters. */
  predicate InAlphabet(c: Byte) {
    PlainDta(c) || c in {0x5b, 0x5c, 0x5d, 0x7e}
  }

  function PlainToDta(c: Byte): Byte {
    if PlainDta(Upper(c)) then Upper(c) else BLANK
  }

  /** What a character of two bytes becomes, judged by the second one only. */
  function SecondToDta(c: Byte): Byte {
    if c == 0x84 || c == 0xa4 then 0x5b
    else if c == 0x96 || c == 0xb6 then 0x5c
    else if c == 0x9c || c == 0xbc then 0x5d
    else if c == 0x9f then 0x7e
    else BLANK
  }

  /** Where the continuation bytes that start at `i` end. */
  function Skip(w: seq<Byte>, i: nat): (j: nat)
    requires i <= |w|
    ensures i <= j <= |w| && (j < |w| ==> !Follows(w[j]))
    decreases |w| - i
  {
    if i < |w| && Follows(w[i]) then Skip(w, i + 1) else i
  }

  /** One character of the text: its code in DTA, and where the next one starts. */
  function Step(w: seq<Byte>, i: nat): (r: (Byte, nat))
    requires i < |w|
    ensures i < r.1 <= |w| && InAlphabet(r.0)
  {
    if w[i] >= 0xc0 then
      if i + 1 == |w| then (BLANK, i + 1)
      else if !Follows(w[i + 1]) then (BLANK, i + 2)
      else if i + 2 < |w| && Follows(w[i + 2]) then (BLANK, Skip(w, i + 2))
      else (SecondToDta(w[i + 1]), i + 2)
    else if w[i] >= 0x80 then (BLANK, Skip(w, i + 1))
    else (PlainToDta(w[i]), i + 1)
  }

  /** The DTA form of the text from place `i` on. */
  function ToDta(w: seq<Byte>, i: nat): seq<Byte>
    requires i <= |w|
    decreases |w| - i
  {
    if i == |w| then [] else [Step(w, i).0] + ToDta(w, Step(w, i).1)
  }

  // ---------- the code ----------

  /** How much of the string is looked at: all of it, or `size` bytes. */
  function Window(p: seq<Byte>, size: int): (w: seq<Byte>)
    requires size >= -1
    ensures |w| <= |p| && w == p[..|w|]
  {
    if size == -1 || size > |p| then p else p[..size]
  }

  /** The string ends inside a character, right after its first byte. */
  predicate CutOff(p: seq<Byte>) {
    p != [] && p[|p| - 1] >= 0xc0
  }

  /** Unless `size` ends the text first, it must not end right after the first byte of a character: the
      code then reads behind the end of the string. */
  method Utf8ToDta(p: seq<Byte>, size0: int, buf: Buffer)
    requires NoNul(p) && size0 >= -1 && buf.Valid()
    requires size0 == -1 || size0 > |p| ==> !CutOff(p)
    modifies buf`bytes
    ensures buf.Valid() && buf.bytes == old(buf.bytes) + ToDta(Window(p, size0), 0)
  {
    ghost var w := Window(p, size0);
    var i: nat, size := 0, size0;
    ghost var b := buf.bytes;
    while CharAt(p, i) != 0 && size != 0
      invariant i <= |w| && size == (if size0 == -1 then -1 else size0 - i)
      invariant buf.Valid() && b + ToDta(w, 0) == buf.bytes + ToDta(w, i)
      decreases |p| - i
    {
      i, size := Utf8Char(p, w, size0, i, size, buf);
    }
  }

  /** One turn of the loop in `AB_ImExporter_Utf8ToDta` */
  method Utf8Char(p: seq<Byte>, ghost w: seq<Byte>, ghost size0: int, i0: nat, size1: int, buf: Buffer)
    returns (i: nat, size: int)
    requires NoNul(p) && size0 >= -1 && buf.Valid() && w == Window(p, size0)
    requires size0 == -1 || size0 > |p| ==> !CutOff(p)
    requires i0 < |w| && size1 == if size0 == -1 then -1 else size0 - i0
    modifies buf`bytes
    ensures buf.Valid() && buf.bytes == old(buf.bytes) + [Step(w, i0).0]
    ensures i == Step(w, i0).1 && size == if size0 == -1 then -1 else size0 - i
  {
    i, size := i0, size1;
    var c := CharAt(p, i);
    i := i + 1;
    if size != -1 {
      size := size - 1;
    }
    var nextUtf8 := false;
    if c >= 0xc0 {
      if size == 0 {
        c := BLANK;
      } else {
        c := CharAt(p, i);
        i := i + 1;
        if size != -1 {
          size := size - 1;
        }
        if !Follows(c) {
          c := BLANK;
        } else if size != 0 && Follows(CharAt(p, i)) {
          nextUtf8 := true;
        } else {
          match c {
            case 0x84 => c := 0x5b;
            case 0xa4 => c := 0x5b;
            case 0x96 => c := 0x5c;
            case 0xb6 => c := 0x5c;
            case 0x9c => c := 0x5d;
            case 0xbc => c := 0x5d;
            case 0x9f => c := 0x7e;
            case _ => c := BLANK;
          }
        }
      }
    } else if c >= 0x80 {
      nextUtf8 := true;
    } else {
      c := Upper(c);
      if !PlainDta(c) {
        c := BLANK;
      }
    }
    if nextUtf8 {
      c := BLANK;
      ghost var from := i;
      while size != 0 && Follows(CharAt(p, i))
        invariant from <= i <= |w| && Skip(w, i) == Skip(w, from)
        invariant size == if size0 == -1 then -1 else size0 - i
        decreases |p| - i
      {
        i := i + 1;
        if size != -1 {
          size := size - 1;
        }
      }
    }
    buf.AppendByte(c);
  }

  /** The code point of a DTA character; bytes that are none become blanks. */
  function PointOf(c: Byte): Scalar
    requires c != 0
  {
    match c
    case 0x5b => 0xc4
    case 0x5c => 0xd6
    case 0x5d => 0xdc
    case 0x7e => 0xdf
    case _ => if c >= 0x80 then 0x20 else c
  }

  function Points(s: seq<Byte>): seq<Scalar>
    requires NoNul(s)
  {
    if s == [] then [] else [PointOf(s[0])] + Points(s[1..])
  }

  lemma OneMorePoint(all: seq<Byte>, w: seq<Byte>, i: nat, done: seq<Byte>, i': nat, done': seq<Byte>)
    requires NoNul(w) && i < |w| && i' == i + 1
    requires all == done + EncodeAll(Points(w[i..])) && done' == done + Encode(PointOf(w[i]))
    ensures all == done' + EncodeAll(Points(w[i'..]))
  {
    assert w[i..][1..] == w[i'..];
    EncodeCons(PointOf(w[i]), Points(w[i'..]));
  }

  /** Whatever the bytes, the result is well-formed UTF-8. */
  method DtaToUtf8(p: seq<Byte>, size0: int, buf: Buffer)
    requires NoNul(p) && size0 >= -1 && buf.Valid()
    modifies buf`bytes
    ensures buf.Valid() && buf.bytes == old(buf.bytes) + EncodeAll(Points(Window(p, size0)))
  {
    ghost var w := Window(p, size0);
    var i: nat, size := 0, size0;
    ghost var b := buf.bytes;
    while CharAt(p, i) != 0 && size != 0
      invariant i <= |w| && size == (if size0 == -1 then -1 else size0 - i)
      invariant buf.Valid() && b + EncodeAll(Points(w)) == buf.bytes + EncodeAll(Points(w[i..]))
      decreases |p| - i
    {
      ghost var was, k := buf.bytes, i;
      var c := CharAt(p, i);
      i := i + 1;
      DtaChar(c, buf);
      OneMorePoint(b + EncodeAll(Points(w)), w, k, was, i, buf.bytes);
      if size != -1 {
        size := size - 1;
      }
    }
  }

  /** The `switch` in `AB_ImExporter_DtaToUtf8` */
  method DtaChar(c0: Byte, buf: Buffer)
    requires c0 != 0 && buf.Valid()
    modifies buf`bytes
    ensures buf.Valid() && buf.bytes == old(buf.bytes) + Encode(PointOf(c0))
  {
    var c, b := c0, buf.bytes;
    match c {
      case 0x5b =>
        buf.AppendByte(0xc3);
        buf.AppendByte(0x84);
        assert buf.bytes == b + [0xc3, 0x84];
      case 0x5c =>
        buf.AppendByte(0xc3);
        buf.AppendByte(0x96);
        assert buf.bytes == b + [0xc3, 0x96];
      case 0x5d =>
        buf.AppendByte(0xc3);
        buf.AppendByte(0x9c);
        assert buf.bytes == b + [0xc3, 0x9c];
      case 0x7e =>
        buf.AppendByte(0xc3);
        buf.AppendByte(0x9f);
        assert buf.bytes == b + [0xc3, 0x9f];
      case _ =>
        if c >= 0x80 {
          c := BLANK;
        }
        buf.AppendByte(c);
    }
  }

  // ---------- what it means ----------

  /** What becomes of a character. */
  function DtaOf(cp: Scalar): Byte {
    if cp < 0x80 then PlainToDta(cp) else if cp < 0x800 then SecondToDta(0x80 + cp % 64) else BLANK
  }

  function DtasOf(cps: seq<Scalar>): (s: seq<Byte>)
    ensures |s| == |cps|
  {
    if cps == [] then [] else [DtaOf(cps[0])] + DtasOf(cps[1..])
  }

  lemma {:induction false} SkipTo(w: seq<Byte>, i: nat, j: nat)
    requires i <= j <= |w| && (j < |w| ==> !Follows(w[j]))
    requires forall k :: i <= k < j ==> Follows(w[k])
    ensures Skip(w, i) == j
    decreases j - i
  {
    if i < j {
      SkipTo(w, i + 1, j);
    }
  }

  lemma StepsOneChar(w: seq<Byte>, i: nat, cp: Scalar, enc: seq<Byte>, j: nat)
    requires enc == Encode(cp) && j == i + |enc| <= |w| && w[i..j] == enc
    requires j < |w| ==> !Follows(w[j])
    ensures Step(w, i) == (DtaOf(cp), j)
  {
    assert forall k :: i <= k < j ==> w[k] == enc[k - i];
    if cp >= 0x800 {
      assert Follows(w[i + 1]) && Follows(w[i + 2]);
      SkipTo(w, i + 2, j);
    }
  }

  /** Well-formed text gives one byte per character. */
  lemma {:induction false} TextToDta(w: seq<Byte>, i: nat, cps: seq<Scalar>)
    requires i <= |w| && w[i..] == EncodeAll(cps)
    ensures ToDta(w, i) == DtasOf(cps)
    decreases |cps|
  {
    if cps != [] {
      var enc := Encode(cps[0]);
      var j := i + |enc|;
      assert w[i..j] == w[i..][..|enc|] == enc;
      assert w[j..] == w[i..][|enc|..] == EncodeAll(cps[1..]);
      EncodedStart(cps[1..]);
      assert j < |w| ==> w[j] == EncodeAll(cps[1..])[0];
      StepsOneChar(w, i, cps[0], enc, j);
      TextToDta(w, j, cps[1..]);
    }
  }

  /** Whatever the bytes, the result is in the alphabet. */
  lemma {:induction false} ToDtaInAlphabet(w: seq<Byte>, i: nat)
    requires i <= |w|
    ensures forall k :: 0 <= k < |ToDta(w, i)| ==> InAlphabet(ToDta(w, i)[k])
    decreases |w| - i
  {
    if i < |w| {
      ToDtaInAlphabet(w, Step(w, i).1);
    }
  }

  lemma BackAndForth(c: Byte)
    requires c != 0
    ensures DtaOf(PointOf(c)) == c <==> InAlphabet(c)
  {
  }

  lemma {:induction false} DtasBack(s: seq<Byte>)
    requires NoNul(s)
    ensures DtasOf(Points(s)) == s <==> forall i :: 0 <= i < |s| ==> InAlphabet(s[i])
  {
    if s != [] {
      BackAndForth(s[0]);
      DtasBack(s[1..]);
      assert Points(s)[1..] == Points(s[1..]);
      assert DtasOf(Points(s)) == [DtaOf(PointOf(s[0]))] + DtasOf(Points(s[1..]));
      assert s == [s[0]] + s[1..];
    }
  }

  /** Translated to UTF-8 and back, a string is the same exactly when it was one of the DTA alphabet. */
  lemma DtaRoundTrip(s: seq<Byte>)
    requires NoNul(s)
    ensures ToDta(EncodeAll(Points(s)), 0) == s <==> forall i :: 0 <= i < |s| ==> InAlphabet(s[i])
  {
    TextToDta(EncodeAll(Points(s)), 0, Points(s));
    DtasBack(s);
  }

  // ---------- which characters come out right ----------

  /** What a character should become: the umlauts of a, o and u, in small letters too, and sharp s have
      codes of their own. */
  function Intended(cp: Scalar): Byte {
    if cp < 0x80 then PlainToDta(cp)
    else match cp
      case 0xc4 => 0x5b
      case 0xe4 => 0x5b
      case 0xd6 => 0x5c
      case 0xf6 => 0x5c
      case 0xdc => 0x5d
      case 0xfc => 0x5d
      case 0xdf => 0x7e
      case _ => BLANK
  }

  /** The last six bits of the seven German letters. */
  predicate GermanEnd(cp: Scalar) {
    cp % 64 in {4, 36, 22, 54, 28, 60, 31}
  }

  /** Exactly these characters get one of the four German codes. */
  lemma GermanCodes(cp: Scalar)
    ensures DtaOf(cp) in {0x5b, 0x5c, 0x5d, 0x7e} <==> 0x80 <= cp < 0x800 && GermanEnd(cp)
  {
    if 0x80 <= cp < 0x800 {
      assert 0x80 + cp % 64 < 0xc0;
    }
  }

  /** Of them only the German letters should. */
  predicate Confused(cp: Scalar) {
    0x80 <= cp < 0x800 && GermanEnd(cp) && cp / 64 != 3
  }

  lemma RightUnlessConfused(cp: Scalar)
    ensures DtaOf(cp) == Intended(cp) <==> !Confused(cp)
  {
    GermanCodes(cp);
    if cp / 64 == 3 {
      assert cp == 192 + cp % 64;
    }
  }

  function IntendedText(cps: seq<Scalar>): (s: seq<Byte>)
    ensures |s| == |cps|
  {
    if cps == [] then [] else [Intended(cps[0])] + IntendedText(cps[1..])
  }

  lemma {:induction false} TextRight(cps: seq<Scalar>)
    ensures DtasOf(cps) == IntendedText(cps) <==> forall i :: 0 <= i < |cps| ==> !Confused(cps[i])
  {
    if cps != [] {
      var rest := cps[1..];
      RightUnlessConfused(cps[0]);
      TextRight(rest);
      assert DtasOf(cps)[1..] == DtasOf(rest) && IntendedText(cps)[1..] == IntendedText(rest);
      if forall i :: 0 <= i < |rest| ==> !Confused(rest[i]) {
        assert forall i :: 1 <= i < |cps| ==> cps[i] == rest[i - 1];
      }
    }
  }

  /** A text comes out as it should exactly if it holds no foreign letter that ends like a German one. */
  lemma RightExactly(cps: seq<Scalar>)
    ensures ToDta(EncodeAll(cps), 0) == IntendedText(cps) <==> forall i :: 0 <= i < |cps| ==> !Confused(cps[i])
  {
    TextToDta(EncodeAll(cps), 0, cps);
    TextRight(cps);
  }

  /** For example U+0104, a Polish letter, comes out as U+00C4, a German one. */
  lemma ForeignLetter(cp: Scalar)
    requires cp == 0x104
    ensures ToDta(EncodeAll([cp]), 0) == [0x5b] && IntendedText([cp]) == [BLANK]
  {
    TextToDta(EncodeAll([cp]), 0, [cp]);
    assert [cp][1..] == [];
  }

  /** What the characters of one byte become: digits and capitals stay, small letters become capitals, nine signs and
      the blank stay, and everything else becomes a blank. */
  lemma PlainCharacters(c: char)
    requires 0 < c as int < 128
    ensures DtaOf(c as int)
         == if '0' <= c <= '9' || 'A' <= c <= 'Z' || c in " .,&-+*%/$" then c as int
            else if 'a' <= c <= 'z' then c as int - 32
            else ' ' as int
  {
    var cp := c as int;
    assert c in " .,&-+*%/$" <==> cp in PUNCTUATION by {
      var t := " .,&-+*%/$";
      assert t[0] == ' ' && t[1] == '.' && t[2] == ',' && t[3] == '&' && t[4] == '-' && t[5] == '+';
      assert t[6] == '*' && t[7] == '%' && t[8] == '/' && t[9] == '$' && |t| == 10;
    }
  }

  /** What the bytes of a DTA text become in UTF-8. */
  lemma DtaBytes(c: Byte)
    requires c != 0
    ensures Encode(PointOf(c))
         == if c == 0x5b then [0xc3, 0x84] else if c == 0x5c then [0xc3, 0x96] else if c == 0x5d then [0xc3, 0x9c]
            else if c == 0x7e then [0xc3, 0x9f] else if c < 0x80 then [c] else [0x20]
  {
  }
}
