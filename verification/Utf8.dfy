/** UTF-8 (sections 3 and 4 of RFC 3629). Text contains no NUL character. */
module Utf8 {
  import opened MsgBuffer

  type Scalar = cp: nat | 0 < cp < 0x11_0000 && !(0xd800 <= cp < 0xe000) witness 1

  function Encode(cp: Scalar): (bs: seq<Byte>)
    ensures 1 <= |bs| <= 4
  {
    if cp < 0x80 then [cp]
    else if cp < 0x800 then [0xc0 + cp / 64, 0x80 + cp % 64]
    else if cp < 0x1_0000 then [0xe0 + cp / 4096, 0x80 + cp / 64 % 64, 0x80 + cp % 64]
    else [0xf0 + cp / 0x4_0000, 0x80 + cp / 4096 % 64, 0x80 + cp / 64 % 64, 0x80 + cp % 64]
  }

  function EncodeAll(cps: seq<Scalar>): seq<Byte> {
    if cps == [] then [] else Encode(cps[0]) + EncodeAll(cps[1..])
  }

  /** A continuation byte */
  predicate Follows(b: nat) {
    0x80 <= b < 0xc0
  }

  /** No continuation byte comes first. */
  lemma EncodedStart(cps: seq<Scalar>)
    ensures EncodeAll(cps) != [] ==> !Follows(EncodeAll(cps)[0])
    ensures EncodeAll(cps) == [] <==> cps == []
  {
    if cps != [] {
      assert EncodeAll(cps)[0] == Encode(cps[0])[0];
    }
  }

  lemma EncodeCons(cp: Scalar, cps: seq<Scalar>)
    ensures EncodeAll([cp] + cps) == Encode(cp) + EncodeAll(cps)
  {
    assert ([cp] + cps)[1..] == cps;
  }

  /** One byte of a NUL-terminated string. */
  function CharAt(p: seq<Byte>, i: nat): nat
    requires i <= |p|
  {
    if i < |p| then p[i] else 0
  }

  ghost predicate NoNul(p: seq<Byte>) {
    forall i :: 0 <= i < |p| ==> p[i] != 0
  }

  lemma {:induction false} EncodedNoNul(cps: seq<Scalar>)
    ensures NoNul(EncodeAll(cps))
  {
    if cps != [] {
      EncodedNoNul(cps[1..]);
    }
  }

  /** The six bits of a continuation byte */
  function Six(b: Byte): int {
    b as int - 0x80
  }

  /** How the bytes of a character are read, as section 3 of RFC 3629 has it: the first byte tells how many there are
      and gives the upper bits, each other one six more. */
  lemma Decoded(cp: Scalar)
    ensures var bs := Encode(cp);
            match |bs|
            case 1 => bs[0] < 0x80 && cp == bs[0]
            case 2 => 0xc2 <= bs[0] < 0xe0 && Follows(bs[1]) && cp == (bs[0] as int - 0xc0) * 0x40 + Six(bs[1])
            case 3 =>
              && 0xe0 <= bs[0] < 0xf0 && Follows(bs[1]) && Follows(bs[2]) && cp >= 0x800
              && cp == (bs[0] as int - 0xe0) * 0x1000 + Six(bs[1]) * 0x40 + Six(bs[2])
            case _ =>
              && |bs| == 4 && 0xf0 <= bs[0] < 0xf5 && Follows(bs[1]) && Follows(bs[2]) && Follows(bs[3])
              && cp >= 0x1_0000
              && cp == (bs[0] as int - 0xf0) * 0x4_0000 + Six(bs[1]) * 0x1000 + Six(bs[2]) * 0x40 + Six(bs[3])
  {
    if 0x800 <= cp {
      SixBits(cp, cp / 64);
      if cp >= 0x1_0000 {
        SixBits(cp / 64, cp / 4096);
        SixBits(cp / 4096, cp / 0x4_0000);
      } else {
        SixBits(cp / 64, cp / 4096);
      }
    }
  }

  lemma SixBits(n: nat, m: nat)
    requires m == n / 64
    ensures n == m * 64 + n % 64
  {
  }
}
