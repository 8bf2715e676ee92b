/** The characters allowed in SEPA transfers. */
module Sepa {
  import opened MsgBuffer
  import opened Utf8

  const ERROR_BAD_DATA := -1

  /** "'&*$%:?,-(+.)/ " */
  const PUNCTUATION: seq<Byte> := [0x27, 0x26, 0x2a, 0x24, 0x25, 0x3a, 0x3f, 0x2c,
                                  0x2d, 0x28, 0x2b, 0x2e, 0x29, 0x2f, 0x20]

  const RESTRICTED_CHARS_OFFSET := 3

  function Punctuation(restricted: bool): seq<Byte> {
    if restricted then PUNCTUATION[RESTRICTED_CHARS_OFFSET..] else PUNCTUATION
  }

  predicate AsciiAllowed(c: nat, restricted: bool) {
    0x41 <= c <= 0x5a || 0x61 <= c <= 0x7a || 0x30 <= c <= 0x39 || (c < 256 && c in Punctuation(restricted))
  }

  /** The characters allowed: besides those of ASCII the German umlauts and the sharp s, unless the
      charset is restricted. */
  predicate PointAllowed(cp: Scalar, restricted: bool) {
    AsciiAllowed(cp, restricted) || (!restricted && cp in {0xc4, 0xe4, 0xd6, 0xf6, 0xdc, 0xfc, 0xdf})
  }

  ghost predicate AllAllowed(cps: seq<Scalar>, restricted: bool) {
    forall i :: 0 <= i < |cps| ==> PointAllowed(cps[i], restricted)
  }

  /** The allowed text from place `i` on, if it is allowed. */
  predicate AllowedFrom(s: seq<Byte>, i: nat, restricted: bool)
    requires i <= |s|
    decreases |s| - i
  {
    if i == |s| then true
    else if AsciiAllowed(s[i], restricted) then AllowedFrom(s, i + 1, restricted)
    else
      && !restricted && i + 1 < |s| && s[i] == 0xc3 && s[i + 1] in {0x84, 0xa4, 0x96, 0xb6, 0x9c, 0xbc, 0x9f}
      && !(i + 2 < |s| && Follows(s[i + 2]))
      && AllowedFrom(s, i + 2, restricted)
  }

  /** `strchr(ascii, c)!=NULL` */
  method InPunctuation(c: Byte, restricted: bool) returns (found: bool)
    requires c != 0
    ensures found <==> c in Punctuation(restricted)
  {
    var ascii := Punctuation(restricted);
    var k := 0;
    found := false;
    while k < |ascii| && !found
      invariant k <= |ascii| && (found <==> c in ascii[..k])
    {
      found := ascii[k] == c;
      k := k + 1;
    }
  }

  /** The error branch: a buffer of seven bytes is filled with the offending bytes. */
  method Offending(s: seq<Byte>, i0: nat, c0: Byte, n0: nat, errchr: array<Byte>) returns (wellFormed: bool)
    requires NoNul(s) && i0 <= |s| && errchr.Length == 7 && 1 <= n0 <= 2
    modifies errchr
  {
    var i, n := i0, n0;
    while Follows(CharAt(s, i))
      invariant i <= |s| && n >= 1
      decreases |s| - i
    {
      if n < 6 {
        errchr[n] := CharAt(s, i);
        n := n + 1;
        i := i + 1;
      } else {
        n := n + 1;
        i := i + 1;
      }
    }
    wellFormed := n < 7 && (n > 1 || c0 < 0x80);
    if wellFormed {
      errchr[n] := 0;
    }
  }

  method CheckStringForSepaCharset(s: seq<Byte>, restricted: bool) returns (rv: int)
    requires NoNul(s)
    ensures rv == if AllowedFrom(s, 0, restricted) then 0 else ERROR_BAD_DATA
  {
    var i: nat := 0;
    while CharAt(s, i) != 0
      invariant i <= |s| && (AllowedFrom(s, 0, restricted) <==> AllowedFrom(s, i, restricted))
      decreases |s| - i
    {
      var c: Byte := CharAt(s, i);
      i := i + 1;
      var plain := InPunctuation(c, restricted);
      if !(0x41 <= c <= 0x5a || 0x61 <= c <= 0x7a || 0x30 <= c <= 0x39 || plain) {
        var errchr := new Byte[7];
        var n := 0;
        if c == 0xc3 && !restricted {
          c := CharAt(s, i);
          i := i + 1;
          if c in {0x84, 0xa4, 0x96, 0xb6, 0x9c, 0xbc, 0x9f} && !Follows(CharAt(s, i)) {
          } else {
            errchr[n] := 0xc3;
            n := n + 1;
            if Follows(c) {
              errchr[n] := c;
              n := n + 1;
            } else {
              i := i - 1;
            }
          }
        } else {
          errchr[n] := c;
          n := n + 1;
        }
        if n > 0 {
          var wellFormed := Offending(s, i, c, n, errchr);
          return ERROR_BAD_DATA;
        }
      }
    }
    return 0;
  }

  // ---------- what it means ----------

  lemma TextCons(s: seq<Byte>, i: nat, cp: Scalar, j: nat, rest: seq<Scalar>)
    requires i <= j <= |s| && s[i..j] == Encode(cp) && s[j..] == EncodeAll(rest)
    ensures EncodeAll([cp] + rest) == s[i..]
  {
    EncodeCons(cp, rest);
    assert s[i..] == s[i..j] + s[j..];
  }

  lemma Umlaut(b: Byte, cp: Scalar)
    requires b in {0x84, 0xa4, 0x96, 0xb6, 0x9c, 0xbc, 0x9f} && cp == b + 0x40
    ensures Encode(cp) == [0xc3, b] && PointAllowed(cp, false)
  {
  }

  lemma UmlautAt(s: seq<Byte>, i: nat, restricted: bool) returns (cp: Scalar)
    requires i < |s| && AllowedFrom(s, i, restricted) && !AsciiAllowed(s[i], restricted)
    ensures i + 2 <= |s| && AllowedFrom(s, i + 2, restricted)
    ensures PointAllowed(cp, restricted) && s[i..i + 2] == Encode(cp)
  {
    var b: nat := s[i + 1];
    cp := b + 0x40;
    Umlaut(b, cp);
    assert s[i..i + 2] == [0xc3, b];
  }

  lemma {:induction false} AllowedText(s: seq<Byte>, i: nat, restricted: bool) returns (cps: seq<Scalar>)
    requires NoNul(s) && i <= |s| && AllowedFrom(s, i, restricted)
    ensures AllAllowed(cps, restricted) && EncodeAll(cps) == s[i..]
    decreases |s| - i
  {
    if i == |s| {
      cps := [];
    } else if AsciiAllowed(s[i], restricted) {
      var rest := AllowedText(s, i + 1, restricted);
      cps := [s[i]] + rest;
      assert s[i..i + 1] == [s[i]];
      TextCons(s, i, s[i], i + 1, rest);
    } else {
      var cp := UmlautAt(s, i, restricted);
      var rest := AllowedText(s, i + 2, restricted);
      cps := [cp] + rest;
      TextCons(s, i, cp, i + 2, rest);
    }
  }

  lemma OneAllowed(s: seq<Byte>, i: nat, cp: Scalar, j: nat, restricted: bool)
    requires PointAllowed(cp, restricted) && j == i + |Encode(cp)| <= |s| && s[i..j] == Encode(cp)
    requires (j < |s| ==> !Follows(s[j])) && AllowedFrom(s, j, restricted)
    ensures AllowedFrom(s, i, restricted)
  {
    assert s[i] == s[i..j][0];
    if !AsciiAllowed(cp, restricted) {
      Umlaut(cp - 0x40, cp);
      assert s[i + 1] == s[i..j][1];
    }
  }

  lemma {:induction false} TextAllowed(s: seq<Byte>, i: nat, restricted: bool, cps: seq<Scalar>)
    requires i <= |s| && AllAllowed(cps, restricted) && EncodeAll(cps) == s[i..]
    ensures AllowedFrom(s, i, restricted)
    decreases |cps|
  {
    if cps != [] {
      var enc := Encode(cps[0]);
      var j := i + |enc|;
      assert s[i..j] == s[i..][..|enc|] == enc;
      assert s[j..] == s[i..][|enc|..] == EncodeAll(cps[1..]);
      EncodedStart(cps[1..]);
      assert j < |s| ==> s[j] == EncodeAll(cps[1..])[0];
      TextAllowed(s, j, restricted, cps[1..]);
      OneAllowed(s, i, cps[0], j, restricted);
    }
  }

  /** Accepted are exactly the UTF-8 texts made of allowed characters; what is accepted under the
      restriction is accepted without it. */
  lemma AcceptedText(s: seq<Byte>, restricted: bool)
    requires NoNul(s)
    ensures AllowedFrom(s, 0, restricted) <==> exists cps :: AllAllowed(cps, restricted) && EncodeAll(cps) == s
    ensures AllowedFrom(s, 0, true) ==> AllowedFrom(s, 0, false)
  {
    assert s[0..] == s;
    if AllowedFrom(s, 0, restricted) {
      var cps := AllowedText(s, 0, restricted);
    }
    if cps :| AllAllowed(cps, restricted) && EncodeAll(cps) == s {
      TextAllowed(s, 0, restricted, cps);
    }
    if AllowedFrom(s, 0, true) {
      var cps := AllowedText(s, 0, true);
      assert forall i :: 0 <= i < |cps| && PointAllowed(cps[i], true) ==> PointAllowed(cps[i], false);
      TextAllowed(s, 0, false, cps);
    }
  }

  /** The allowed characters of one byte, one by one. */
  lemma AllowedCharacters(c: char, restricted: bool)
    requires 0 < c as int < 128
    ensures PointAllowed(c as int, restricted)
       <==> '0' <= c <= '9' || 'A' <= c <= 'Z' || 'a' <= c <= 'z' || c in "$%:?,-(+.)/ "
            || (!restricted && c in {'\'', '&', '*'})
  {
    var cp := c as int;
    var t := "$%:?,-(+.)/ ";
    assert t[0] == '$' && t[1] == '%' && t[2] == ':' && t[3] == '?' && t[4] == ',' && t[5] == '-' && |t| == 12;
    assert t[6] == '(' && t[7] == '+' && t[8] == '.' && t[9] == ')' && t[10] == '/' && t[11] == ' ';
    assert PUNCTUATION[3..] == [0x24, 0x25, 0x3a, 0x3f, 0x2c, 0x2d, 0x28, 0x2b, 0x2e, 0x29, 0x2f, 0x20];
  }
}
