/** ISO 8859-1 to UTF-8, in the version of the importers and in the one of the library core, which lets
    pairs of bytes pass that already are UTF-8. */
module Latin1 {
  import opened Dta
  import opened MsgBuffer
  import opened Utf8

  /** Control characters become blanks. */
  function Clean(c: Byte): Scalar
    requires c != 0
  {
    if c < 32 || c == 127 then 32 else c
  }

  function CleanAll(w: seq<Byte>): seq<Scalar>
    requires NoNul(w)
  {
    if w == [] then [] else [Clean(w[0])] + CleanAll(w[1..])
  }

  lemma OneMoreClean(all: seq<Byte>, w: seq<Byte>, i: nat, done: seq<Byte>, i': nat, done': seq<Byte>)
    requires NoNul(w) && i < |w| && i' == i + 1
    requires all == done + EncodeAll(CleanAll(w[i..])) && done' == done + Encode(Clean(w[i]))
    ensures all == done' + EncodeAll(CleanAll(w[i'..]))
  {
    assert w[i..][1..] == w[i'..];
    EncodeCons(Clean(w[i]), CleanAll(w[i'..]));
  }

  /** The rest of a turn in both loops: one byte, as UTF-8. */
  method AppendLatin(c0: Byte, buf: Buffer)
    requires c0 >= 32 && buf.Valid()
    modifies buf`bytes
    ensures buf.Valid() && buf.bytes == old(buf.bytes) + Encode(c0)
  {
    var c: nat, b := c0, buf.bytes;
    if c >= 0x80 {
      buf.AppendByte(0xc0 + c / 64);
      c := 0x80 + c % 64;
    }
    buf.AppendByte(c);
    assert buf.bytes == b + Encode(c0);
  }

  /** `AB_ImExporter_Iso8859_1ToUtf8` */
  method ImExporterToUtf8(p: seq<Byte>, size0: int, buf: Buffer)
    requires NoNul(p) && size0 >= -1 && buf.Valid()
    modifies buf`bytes
    ensures buf.Valid() && buf.bytes == old(buf.bytes) + EncodeAll(CleanAll(Window(p, size0)))
  {
    ghost var w := Window(p, size0);
    var i: nat, size := 0, size0;
    ghost var b := buf.bytes;
    while CharAt(p, i) != 0 && size != 0
      invariant i <= |w| && size == (if size0 == -1 then -1 else size0 - i)
      invariant buf.Valid() && b + EncodeAll(CleanAll(w)) == buf.bytes + EncodeAll(CleanAll(w[i..]))
      decreases |p| - i
    {
      ghost var was, k := buf.bytes, i;
      var c := CharAt(p, i);
      i := i + 1;
      if c < 32 || c == 127 {
        c := 32;
      }
      AppendLatin(c, buf);
      OneMoreClean(b + EncodeAll(CleanAll(w)), w, k, was, i, buf.bytes);
      if size != -1 {
        size := size - 1;
      }
    }
  }

  // ---------- the version of the core ----------

  /** Two bytes that are the UTF-8 form of a character from U+0080 to U+00FF. */
  predicate Pair(p: seq<Byte>, i: nat)
    requires i <= |p|
  {
    i + 1 < |p| && p[i] in {0xc2, 0xc3} && Follows(p[i + 1])
  }

  /** The character at place `i`, and where the next one starts. */
  function PointAt(p: seq<Byte>, i: nat): (r: (Scalar, nat))
    requires NoNul(p) && i < |p|
    ensures i < r.1 <= |p|
  {
    if Pair(p, i) then ((p[i] - 0xc0) * 64 + (p[i + 1] - 0x80), i + 2)
    else (if p[i] == 10 then 10 else Clean(p[i]), i + 1)
  }

  /** The characters from place `i` on. A size counts characters here, not bytes. */
  function PointsFrom(p: seq<Byte>, i: nat, size: int): seq<Scalar>
    requires NoNul(p) && i <= |p| && size >= -1
    decreases |p| - i
  {
    if i == |p| || size == 0 then []
    else [PointAt(p, i).0] + PointsFrom(p, PointAt(p, i).1, if size == -1 then -1 else size - 1)
  }

  lemma OneMoreFrom(all: seq<Byte>, p: seq<Byte>, i: nat, size: int, done: seq<Byte>, i': nat, size': int,
                    done': seq<Byte>)
    requires NoNul(p) && i < |p| && size >= -1 && size != 0
    requires i' == PointAt(p, i).1 && size' == if size == -1 then -1 else size - 1
    requires all == done + EncodeAll(PointsFrom(p, i, size)) && done' == done + Encode(PointAt(p, i).0)
    ensures all == done' + EncodeAll(PointsFrom(p, i', size'))
  {
    EncodeCons(PointAt(p, i).0, PointsFrom(p, i', size'));
  }

  /** One turn of the loop in `AB_Banking_Iso8859_1ToUtf8` */
  method BankingChar(p: seq<Byte>, i0: nat, buf: Buffer) returns (i: nat)
    requires NoNul(p) && i0 < |p| && buf.Valid()
    modifies buf`bytes
    ensures buf.Valid() && i == PointAt(p, i0).1 && buf.bytes == old(buf.bytes) + Encode(PointAt(p, i0).0)
  {
    i := i0;
    ghost var b := buf.bytes;
    var c := CharAt(p, i);
    i := i + 1;
    if c != 10 {
      if c < 32 || c == 127 {
        c := 32;
      } else {
        var c2 := CharAt(p, i);
        if (c == 0xc2 || c == 0xc3) && Follows(c2) {
          buf.AppendByte(c);
          c := CharAt(p, i);
          i := i + 1;
        } else if c >= 0x80 {
          buf.AppendByte(0xc0 + c / 64);
          c := 0x80 + c % 64;
        }
      }
    }
    buf.AppendByte(c);
    assert buf.bytes == b + Encode(PointAt(p, i0).0);
  }

  /** `AB_Banking_Iso8859_1ToUtf8` */
  method BankingToUtf8(p: seq<Byte>, size0: int, buf: Buffer)
    requires NoNul(p) && size0 >= -1 && buf.Valid()
    modifies buf`bytes
    ensures buf.Valid() && buf.bytes == old(buf.bytes) + EncodeAll(PointsFrom(p, 0, size0))
  {
    var i: nat, size := 0, size0;
    ghost var b := buf.bytes;
    while CharAt(p, i) != 0 && size != 0
      invariant i <= |p| && size >= -1
      invariant buf.Valid() && b + EncodeAll(PointsFrom(p, 0, size0)) == buf.bytes + EncodeAll(PointsFrom(p, i, size))
      decreases |p| - i
    {
      ghost var was, k, n := buf.bytes, i, size;
      i := BankingChar(p, i, buf);
      if size != -1 {
        size := size - 1;
      }
      OneMoreFrom(b + EncodeAll(PointsFrom(p, 0, size0)), p, k, n, was, i, size, buf.bytes);
    }
  }

  // ---------- what they do ----------

  /** Characters that the core's version produces: Latin-1 without controls, but with line feeds. */
  predicate Kept(cp: Scalar) {
    cp == 10 || 32 <= cp < 127 || 128 <= cp < 256
  }

  lemma {:induction false} PointsKept(p: seq<Byte>, i: nat)
    requires NoNul(p) && i <= |p|
    ensures forall k :: 0 <= k < |PointsFrom(p, i, -1)| ==> Kept(PointsFrom(p, i, -1)[k])
    decreases |p| - i
  {
    if i < |p| {
      PointsKept(p, PointAt(p, i).1);
    }
  }

  /** A character that is read from its own UTF-8 form. */
  lemma PointBack(w: seq<Byte>, i: nat, cp: Scalar, enc: seq<Byte>, j: nat)
    requires NoNul(w) && Kept(cp) && enc == Encode(cp)
    requires j == i + |enc| <= |w| && w[i..j] == enc && (j < |w| ==> !Follows(w[j]))
    ensures PointAt(w, i) == (cp, j)
  {
    assert w[i] == enc[0];
    if cp >= 128 {
      assert w[i + 1] == enc[1];
    }
  }

  lemma {:induction false} PointsBack(w: seq<Byte>, i: nat, cps: seq<Scalar>)
    requires NoNul(w) && i <= |w| && w[i..] == EncodeAll(cps)
    requires forall k :: 0 <= k < |cps| ==> Kept(cps[k])
    ensures PointsFrom(w, i, -1) == cps
    decreases |cps|
  {
    if cps != [] {
      var enc := Encode(cps[0]);
      var j := i + |enc|;
      assert w[i..j] == w[i..][..|enc|] == enc;
      assert w[j..] == w[i..][|enc|..] == EncodeAll(cps[1..]);
      EncodedStart(cps[1..]);
      assert j < |w| ==> w[j] == EncodeAll(cps[1..])[0];
      PointBack(w, i, cps[0], enc, j);
      PointsBack(w, j, cps[1..]);
    }
  }

  /** Translating twice is translating once. */
  lemma CoreIdempotent(p: seq<Byte>)
    requires NoNul(p)
    ensures var w := EncodeAll(PointsFrom(p, 0, -1));
            NoNul(w) && EncodeAll(PointsFrom(w, 0, -1)) == w
  {
    var cps := PointsFrom(p, 0, -1);
    EncodedNoNul(cps);
    PointsKept(p, 0);
    PointsBack(EncodeAll(cps), 0, cps);
  }

  /** No line feed, and nothing that already looks like UTF-8. */
  ghost predicate Plain(p: seq<Byte>, i: nat) {
    forall k :: i <= k < |p| ==> p[k] != 10 && !Pair(p, k)
  }

  lemma CompareStep(p: seq<Byte>, i: nat, a: seq<Byte>, b: seq<Byte>, x: seq<Byte>, y: seq<Byte>)
    requires NoNul(p) && i < |p| && !Pair(p, i)
    requires a == Encode(PointAt(p, i).0) + x && b == Encode(Clean(p[i])) + y
    requires |x| <= |y| && (x == y <==> Plain(p, i + 1))
    ensures |a| <= |b| && (a == b <==> Plain(p, i))
  {
    if p[i] == 10 {
      assert a[0] == 10 && b[0] == 32;
    } else {
      var n := |Encode(Clean(p[i]))|;
      assert a[n..] == x && b[n..] == y;
    }
  }

  /** The two versions agree exactly on text without line feeds and without pairs that already look like
      UTF-8. */
  lemma {:induction false} Compare(p: seq<Byte>, i: nat)
    requires NoNul(p) && i <= |p|
    ensures var a, b := EncodeAll(PointsFrom(p, i, -1)), EncodeAll(CleanAll(p[i..]));
            |a| <= |b| && (a == b <==> Plain(p, i))
    decreases |p| - i
  {
    if i < |p| {
      var (cp, j) := PointAt(p, i);
      Compare(p, j);
      EncodeCons(cp, PointsFrom(p, j, -1));
      assert p[i..][1..] == p[i + 1..];
      EncodeCons(Clean(p[i]), CleanAll(p[i + 1..]));
      if Pair(p, i) {
        assert p[i + 1..][1..] == p[j..];
        EncodeCons(Clean(p[i + 1]), CleanAll(p[j..]));
      } else {
        CompareStep(p, i, EncodeAll(PointsFrom(p, i, -1)), EncodeAll(CleanAll(p[i..])), EncodeAll(PointsFrom(p, j, -1)),
                    EncodeAll(CleanAll(p[j..])));
      }
    }
  }

  /** Of the characters of a text only the controls are changed, into blanks. */
  lemma {:induction false} CleanAt(w: seq<Byte>, i: nat)
    requires NoNul(w) && i < |w|
    ensures |CleanAll(w)| == |w| && CleanAll(w)[i] == if w[i] < 0x20 || w[i] == 0x7f then 0x20 else w[i]
  {
    if |w| == 1 {
      assert CleanAll(w[1..]) == [];
    } else if i > 0 {
      CleanAt(w[1..], i - 1);
    } else {
      CleanAt(w[1..], 0);
    }
  }

  /** In the core's version a size is a number of characters: it gives the first ones of all. */
  lemma {:induction false} SizeCounts(p: seq<Byte>, i: nat, size: nat)
    requires NoNul(p) && i <= |p|
    ensures var all := PointsFrom(p, i, -1);
            PointsFrom(p, i, size) == all[..if size < |all| then size else |all|]
    decreases |p| - i
  {
    if i < |p| && size > 0 {
      SizeCounts(p, PointAt(p, i).1, size - 1);
    }
  }
}
