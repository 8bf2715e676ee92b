/** Bytes, words and double words in binary messages, plain or packed. Numbers are given and taken as
    such; their decimal text is not modelled. */
module MsgNumbers {
  import opened Bcd
  import opened MsgBuffer
  import opened Wrappers

  datatype Width = ByteWide | WordWide | DwordWide

  function SizeOf(width: Width): nat {
    match width
    case ByteWide => 1
    case WordWide => 2
    case DwordWide => 4
  }

  /** `%d` of an unsigned number */
  function Signed(value: nat): int
    requires value < 0x1_0000_0000
  {
    if value < 0x8000_0000 then value else value - 0x1_0000_0000
  }

  /** The numbers that can be written in the given width. */
  predicate InRange(width: Width, value: int) {
    match width
    case ByteWide => 0 <= value <= 255
    case WordWide => 0 <= value <= 0xffff
    case DwordWide => -0x8000_0000 <= value < 0x8000_0000
  }

  // ---------- meaning ----------

  /** The number that some bytes make up, the first one counting most. */
  function BigEndianValue(bs: seq<Byte>): nat {
    if bs == [] then 0 else BigEndianValue(bs[..|bs| - 1]) * 256 + bs[|bs| - 1]
  }

  /** What reading finds. With the first byte counting least, the upper bytes are lost. */
  function ReadValue(bs: seq<Byte>, bigEndian: bool): nat
    requires bs != []
  {
    if bigEndian then BigEndianValue(bs) else bs[0]
  }

  /** The lowest `n` bytes of a number, the highest of them first. */
  function BigEndianBytes(value: nat, n: nat): (bs: seq<Byte>)
    ensures |bs| == n
  {
    if n == 0 then [] else BigEndianBytes(value / 256, n - 1) + [value % 256]
  }

  function LittleEndianBytes(value: nat, n: nat): (bs: seq<Byte>)
    ensures |bs| == n
  {
    if n == 0 then [] else [value % 256] + LittleEndianBytes(value / 256, n - 1)
  }

  function WrittenBytes(value: nat, n: nat, bigEndian: bool): (bs: seq<Byte>)
    ensures |bs| == n
  {
    if bigEndian then BigEndianBytes(value, n) else LittleEndianBytes(value, n)
  }

  lemma BigEndianOne(b0: nat)
    requires b0 < 256
    ensures BigEndianValue([b0]) == b0
  {
    assert [b0][..0] == [];
  }

  lemma BigEndianTwo(b0: nat, b1: nat)
    requires b0 < 256 && b1 < 256
    ensures BigEndianValue([b0, b1]) == b0 * 0x100 + b1
  {
    assert [b0, b1][..1] == [b0];
    BigEndianOne(b0);
  }

  lemma BigEndianFour(b0: nat, b1: nat, b2: nat, b3: nat)
    requires b0 < 256 && b1 < 256 && b2 < 256 && b3 < 256
    ensures BigEndianValue([b0, b1, b2, b3]) == b0 * 0x100_0000 + b1 * 0x1_0000 + b2 * 0x100 + b3
  {
    assert [b0, b1, b2, b3][..3] == [b0, b1, b2] && [b0, b1, b2][..2] == [b0, b1];
    BigEndianTwo(b0, b1);
  }

  lemma {:induction false} UnpackBound(w: nat, n: nat)
    requires w < 16 * Pow16(n)
    ensures 3 * Unpack(w, n) + 5 <= 50 * Pow10(n)
  {
    if n > 0 {
      UnpackBound(w / 16, n - 1);
    }
  }

  lemma UnpackedSmall(w: nat)
    requires w < 0x1_0000_0000
    ensures Unpacked(w) < 0x8000_0000
  {
    assert Pow10(7) == 10000000 && Pow16(7) == 0x1000_0000;
    UnpackBound(w, 7);
  }

  /** The number that is found in some bytes. */
  function Found(bs: seq<Byte>, bigEndian: bool, isBCD: bool): int
    requires bs != [] && ReadValue(bs, bigEndian) < 0x1_0000_0000
  {
    if isBCD then Unpacked(ReadValue(bs, bigEndian)) else Signed(ReadValue(bs, bigEndian))
  }

  /** What reading a number of `n` bytes at `pos` gives: an error if some but not enough bytes are left. */
  ghost predicate ReadOutcome(bytes: seq<Byte>, pos: nat, n: nat, bigEndian: bool, isBCD: bool, rv: int, pos': nat,
                              number: Option<int>)
    requires pos <= |bytes| && n > 0
  {
    if pos == |bytes| then rv == 0 && pos' == pos && number == None
    else if pos + n > |bytes| then rv == -1 && pos' == |bytes| && number == None
    else
      var bs := bytes[pos..pos + n];
      && rv == 0 && pos' == pos + n && ReadValue(bs, bigEndian) < 0x1_0000_0000
      && number == Some(Found(bs, bigEndian, isBCD))
  }

  // ---------- the code ----------

  method TypeReadByte(msgbuf: Buffer, isBCD: bool) returns (rv: int, number: Option<int>)
    requires msgbuf.Valid()
    modifies msgbuf`pos
    ensures msgbuf.Valid() && ReadOutcome(msgbuf.bytes, old(msgbuf.pos), 1, true, isBCD, rv, msgbuf.pos, number)
  {
    if msgbuf.BytesLeft() == 0 {
      return 0, None;
    }
    var c := msgbuf.ReadByte();
    if c == -1 {
      return -1, None;
    }
    var value: nat := c;
    BigEndianOne(value);
    assert msgbuf.bytes[old(msgbuf.pos)..old(msgbuf.pos) + 1] == [value];
    if isBCD {
      UnpackedSmall(value);
      value := FromBCD(value);
    }
    return 0, Some(Signed(value));
  }

  method ReadWord(msgbuf: Buffer, bigEndian: bool) returns (rv: int, value: nat)
    requires msgbuf.Valid() && msgbuf.BytesLeft() > 0
    modifies msgbuf`pos
    ensures msgbuf.Valid()
    ensures var p := old(msgbuf.pos);
            if p + 2 > |msgbuf.bytes| then rv == -1 && msgbuf.pos == |msgbuf.bytes|
            else rv == 0 && msgbuf.pos == p + 2 && value < 0x1_0000
                 && value == ReadValue(msgbuf.bytes[p..p + 2], bigEndian)
  {
    rv, value := -1, 0;
    ghost var p := msgbuf.pos;
    if bigEndian {
      var c := msgbuf.ReadByte();
      if c == -1 {
        return;
      }
      value := c * 0x100;
      c := msgbuf.ReadByte();
      if c == -1 {
        return;
      }
      value := value + c;
      assert msgbuf.bytes[p..p + 2] == [msgbuf.bytes[p], msgbuf.bytes[p + 1]];
      BigEndianTwo(msgbuf.bytes[p], msgbuf.bytes[p + 1]);
    } else {
      var c := msgbuf.ReadByte();
      if c == -1 {
        return;
      }
      value := c;
      c := msgbuf.ReadByte();
      if c == -1 {
        return;
      }
      value := value + c * 0x100 % 256;  // cast to unsigned char after the shift
    }
    rv := 0;
  }

  method TypeReadWord(msgbuf: Buffer, bigEndian: bool, isBCD: bool) returns (rv: int, number: Option<int>)
    requires msgbuf.Valid()
    modifies msgbuf`pos
    ensures msgbuf.Valid() && ReadOutcome(msgbuf.bytes, old(msgbuf.pos), 2, bigEndian, isBCD, rv, msgbuf.pos, number)
  {
    if msgbuf.BytesLeft() == 0 {
      return 0, None;
    }
    var value;
    rv, value := ReadWord(msgbuf, bigEndian);
    if rv < 0 {
      return -1, None;
    }
    if isBCD {
      UnpackedSmall(value);
      value := FromBCD(value);
    }
    return 0, Some(Signed(value));
  }

  method ReadDword(msgbuf: Buffer, bigEndian: bool) returns (rv: int, value: nat)
    requires msgbuf.Valid() && msgbuf.BytesLeft() > 0
    modifies msgbuf`pos
    ensures msgbuf.Valid()
    ensures var p := old(msgbuf.pos);
            if p + 4 > |msgbuf.bytes| then rv == -1 && msgbuf.pos == |msgbuf.bytes|
            else rv == 0 && msgbuf.pos == p + 4 && value < 0x1_0000_0000
                 && value == ReadValue(msgbuf.bytes[p..p + 4], bigEndian)
  {
    rv, value := -1, 0;
    ghost var p, bs := msgbuf.pos, msgbuf.bytes;
    if bigEndian {
      var c := msgbuf.ReadByte();
      if c == -1 {
        return;
      }
      value := c * 0x100_0000;
      c := msgbuf.ReadByte();
      if c == -1 {
        return;
      }
      value := value + c * 0x1_0000;
      c := msgbuf.ReadByte();
      if c == -1 {
        return;
      }
      value := value + c * 0x100;
      c := msgbuf.ReadByte();
      if c == -1 {
        return;
      }
      value := value + c;
      assert bs[p..p + 4] == [bs[p], bs[p + 1], bs[p + 2], bs[p + 3]];
      BigEndianFour(bs[p], bs[p + 1], bs[p + 2], bs[p + 3]);
    } else {
      var c := msgbuf.ReadByte();
      if c == -1 {
        return;
      }
      value := c;
      c := msgbuf.ReadByte();
      if c == -1 {
        return;
      }
      value := value + c * 0x100 % 256;  // casts to unsigned char after the shifts
      c := msgbuf.ReadByte();
      if c == -1 {
        return;
      }
      value := value + c * 0x1_0000 % 256;
      c := msgbuf.ReadByte();
      if c == -1 {
        return;
      }
      value := value + c * 0x100_0000 % 256;
    }
    rv := 0;
  }

  method TypeReadDword(msgbuf: Buffer, bigEndian: bool, isBCD: bool) returns (rv: int, number: Option<int>)
    requires msgbuf.Valid()
    modifies msgbuf`pos
    ensures msgbuf.Valid() && ReadOutcome(msgbuf.bytes, old(msgbuf.pos), 4, bigEndian, isBCD, rv, msgbuf.pos, number)
  {
    if msgbuf.BytesLeft() == 0 {
      return 0, None;
    }
    var value;
    rv, value := ReadDword(msgbuf, bigEndian);
    if rv < 0 {
      return -1, None;
    }
    if isBCD {
      UnpackedSmall(value);
      value := FromBCD(value);
    }
    return 0, Some(Signed(value));
  }

  /** The unsigned number whose bytes are written. */
  function Stored(n: int, isBCD: bool): nat {
    if isBCD then Packed(U32(n)) else U32(n)
  }

  /** What writing gives: `number` is missing when the text is not a number. */
  ghost predicate WriteOutcome(width: Width, number: Option<int>, bigEndian: bool, isBCD: bool, rv: int,
                               bytes: seq<Byte>, bytes': seq<Byte>)
  {
    if number.Some? && InRange(width, number.value) then
      rv == 0 && bytes' == bytes + WrittenBytes(Stored(number.value, isBCD), SizeOf(width), bigEndian)
    else rv == -1 && bytes' == bytes
  }

  lemma WrittenOne(v: nat)
    ensures WrittenBytes(v, 1, true) == [v % 256]
  {
  }

  lemma WrittenTwo(v: nat)
    ensures WrittenBytes(v, 2, true) == [v / 0x100 % 256, v % 256]
    ensures WrittenBytes(v, 2, false) == [v % 256, v / 0x100 % 256]
  {
    assert BigEndianBytes(v / 256, 1) == BigEndianBytes(v / 256 / 256, 0) + [v / 256 % 256];
    assert LittleEndianBytes(v / 256, 1) == [v / 256 % 256] + LittleEndianBytes(v / 256 / 256, 0);
  }

  lemma WrittenFour(v: nat)
    ensures WrittenBytes(v, 4, true) == [v / 0x100_0000 % 256, v / 0x1_0000 % 256, v / 0x100 % 256, v % 256]
    ensures WrittenBytes(v, 4, false) == [v % 256, v / 0x100 % 256, v / 0x1_0000 % 256, v / 0x100_0000 % 256]
  {
    var h := v / 256 / 256;
    assert h == v / 0x1_0000 && h / 256 == v / 0x100_0000;
    WrittenTwo(h);
    assert BigEndianBytes(v, 4) == BigEndianBytes(v / 256, 3) + [v % 256];
    assert BigEndianBytes(v / 256, 3) == BigEndianBytes(h, 2) + [v / 256 % 256];
    assert LittleEndianBytes(v, 4) == [v % 256] + LittleEndianBytes(v / 256, 3);
    assert LittleEndianBytes(v / 256, 3) == [v / 256 % 256] + LittleEndianBytes(h, 2);
  }

  method TypeWriteByte(gbuf: Buffer, number: Option<int>, isBCD: bool) returns (rv: int)
    requires gbuf.Valid()
    modifies gbuf`bytes
    ensures gbuf.Valid() && WriteOutcome(ByteWide, number, true, isBCD, rv, old(gbuf.bytes), gbuf.bytes)
  {
    if number == None {
      return -1;
    }
    if number.value > 255 || number.value < 0 {
      return -1;
    }
    var value: nat := number.value;
    if isBCD {
      value := ToBCD(value);
    }
    WrittenOne(value);
    gbuf.AppendByte(value % 256);
    return 0;
  }

  method TypeWriteWord(gbuf: Buffer, number: Option<int>, bigEndian: bool, isBCD: bool) returns (rv: int)
    requires gbuf.Valid()
    modifies gbuf`bytes
    ensures gbuf.Valid() && WriteOutcome(WordWide, number, bigEndian, isBCD, rv, old(gbuf.bytes), gbuf.bytes)
  {
    if number == None {
      return -1;
    }
    if number.value > 0xffff || number.value < 0 {
      return -1;
    }
    var value: nat := number.value;
    if isBCD {
      value := ToBCD(value);
    }
    WrittenTwo(value);
    ghost var b := gbuf.bytes;
    var hi, lo := value / 0x100 % 256, value % 256;
    if bigEndian {
      gbuf.AppendByte(hi);
      gbuf.AppendByte(lo);
      assert gbuf.bytes == b + [hi, lo];
    } else {
      gbuf.AppendByte(lo);
      gbuf.AppendByte(hi);
      assert gbuf.bytes == b + [lo, hi];
    }
    return 0;
  }

  /** `number` is what `sscanf` reads into an `int`. */
  method TypeWriteDword(gbuf: Buffer, number: Option<int>, bigEndian: bool, isBCD: bool) returns (rv: int)
    requires gbuf.Valid() && (number.Some? ==> InRange(DwordWide, number.value))
    modifies gbuf`bytes
    ensures gbuf.Valid() && WriteOutcome(DwordWide, number, bigEndian, isBCD, rv, old(gbuf.bytes), gbuf.bytes)
  {
    if number == None {
      return -1;
    }
    var value: nat := U32(number.value);
    if isBCD {
      value := ToBCD(value);
    }
    WrittenFour(value);
    ghost var b := gbuf.bytes;
    var b3, b2, b1, b0 := value / 0x100_0000 % 256, value / 0x1_0000 % 256, value / 0x100 % 256, value % 256;
    if bigEndian {
      gbuf.AppendByte(b3);
      gbuf.AppendByte(b2);
      gbuf.AppendByte(b1);
      gbuf.AppendByte(b0);
      assert gbuf.bytes == b + [b3, b2, b1, b0];
    } else {
      gbuf.AppendByte(b0);
      gbuf.AppendByte(b1);
      gbuf.AppendByte(b2);
      gbuf.AppendByte(b3);
      assert gbuf.bytes == b + [b0, b1, b2, b3];
    }
    return 0;
  }

  // ---------- round trips ----------

  function Pow256(n: nat): (p: nat)
    ensures p > 0
  {
    if n == 0 then 1 else 256 * Pow256(n - 1)
  }

  lemma {:induction false} BigEndianBack(v: nat, n: nat)
    ensures BigEndianValue(BigEndianBytes(v, n)) == v % Pow256(n)
  {
    if n > 0 {
      var bs, upper := BigEndianBytes(v, n), BigEndianBytes(v / 256, n - 1);
      assert bs == upper + [v % 256] && bs[..n - 1] == upper;
      BigEndianBack(v / 256, n - 1);
      ModTimes(v / 256, Pow256(n - 1), 256, v % 256);
    }
  }

  /** How many of the packed numbers survive in the bytes that are read. */
  function DecimalsRead(width: Width, bigEndian: bool): nat {
    if !bigEndian then 100
    else
      match width
      case ByteWide => 100
      case WordWide => 10000
      case DwordWide => CAPACITY
  }

  /** The first `2 * size` packed digits, cut off from above. */
  lemma CutPacked(v: nat, size: nat, r: nat)
    requires size in {1, 2} && r == Packed(v) % Pow256(size)
    ensures r < 0x1_0000_0000 && Unpacked(r) == v % (if size == 1 then 100 else 10000)
  {
    assert Pow256(1) == 0x100 == Pow16(2) && Pow256(2) == 0x1_0000 == Pow16(4);
    assert Pow10(2) == 100 && Pow10(4) == 10000;
    CutTwice(Pack(v, 7), Pow256(size));
    UnpackLow(v, 7, 7, 2 * size, r);
  }

  lemma WholePacked(v: nat, r: nat)
    requires r == Packed(v) % Pow256(4)
    ensures r < 0x1_0000_0000 && Unpacked(r) == v % CAPACITY
  {
    assert Pow256(4) == 0x1_0000_0000;
    assert r == Packed(v);
    UnpackedPacked(v);
  }

  lemma PackedBack(width: Width, bigEndian: bool, v: nat, bs: seq<Byte>, r: nat)
    requires width == ByteWide ==> bigEndian
    requires bs == WrittenBytes(Packed(v), SizeOf(width), bigEndian) && r == ReadValue(bs, bigEndian)
    ensures r < 0x1_0000_0000 && Unpacked(r) == v % DecimalsRead(width, bigEndian)
  {
    BigEndianBack(Packed(v), SizeOf(width));
    if !bigEndian {
      CutPacked(v, 1, r);
    } else if width == DwordWide {
      WholePacked(v, r);
    } else {
      CutPacked(v, SizeOf(width), r);
    }
  }

  lemma CutTwice(x: nat, m: nat)
    requires m in {0x100, 0x1_0000}
    ensures x % 0x1_0000_0000 % m == x % m
  {
    var q, r, j := x / 0x1_0000_0000, x % 0x1_0000_0000, if m == 0x100 then 0x100_0000 else 0x1_0000;
    DivUnique(x, m, j * q + r / m, r % m);
  }

  /** What is read back from a written number. */
  lemma ReadBack(width: Width, n: int, bigEndian: bool, isBCD: bool, bs: seq<Byte>)
    requires InRange(width, n) && (width == ByteWide ==> bigEndian)
    requires bs == WrittenBytes(Stored(n, isBCD), SizeOf(width), bigEndian)
    ensures ReadValue(bs, bigEndian) < 0x1_0000_0000
    ensures Found(bs, bigEndian, isBCD)
         == if isBCD then U32(n) % DecimalsRead(width, bigEndian) else if bigEndian then n else U32(n) % 256
  {
    if isBCD {
      PackedBack(width, bigEndian, U32(n), bs, ReadValue(bs, bigEndian));
    } else {
      BigEndianBack(U32(n), SizeOf(width));
      PlainBack(width, n, bigEndian, ReadValue(bs, bigEndian));
    }
  }

  lemma PlainBack(width: Width, n: int, bigEndian: bool, r: nat)
    requires InRange(width, n) && r == U32(n) % (if bigEndian then Pow256(SizeOf(width)) else 256)
    ensures r < 0x1_0000_0000 && Signed(r) == if bigEndian then n else r
  {
    assert Pow256(1) == 0x100 && Pow256(2) == 0x1_0000 && Pow256(4) == 0x1_0000_0000;
  }

  lemma SameRemainder(n: int, m: nat)
    requires -0x8000_0000 <= n < 0x1_0000_0000 && m in {100, 256, 10000, CAPACITY}
    ensures U32(n) % m == n <==> 0 <= n < m
  {
    if m == 100 {
    } else if m == 256 {
    } else if m == 10000 {
    } else {
      assert m == CAPACITY;
    }
  }

  /** The number itself is read back exactly in these cases: always when it was written plain with the
      first byte counting most, and otherwise when it is small enough. */
  lemma ReadBackExact(width: Width, n: int, bigEndian: bool, isBCD: bool, bs: seq<Byte>)
    requires InRange(width, n) && (width == ByteWide ==> bigEndian)
    requires bs == WrittenBytes(Stored(n, isBCD), SizeOf(width), bigEndian)
    ensures ReadValue(bs, bigEndian) < 0x1_0000_0000
    ensures Found(bs, bigEndian, isBCD) == n
       <==> (if isBCD then 0 <= n < DecimalsRead(width, bigEndian) else bigEndian || 0 <= n < 256)
  {
    ReadBack(width, n, bigEndian, isBCD, bs);
    SameRemainder(n, if isBCD then DecimalsRead(width, bigEndian) else 256);
  }

  /** The bytes of words and double words, written out. */
  lemma BytesWritten(v: nat)
    ensures BigEndianBytes(v, 1) == [v % 256]
    ensures BigEndianBytes(v, 2) == [v / 0x100 % 256, v % 256]
    ensures BigEndianBytes(v, 4) == [v / 0x100_0000 % 256, v / 0x1_0000 % 256, v / 0x100 % 256, v % 256]
  {
    Twice(v);
    FourBytes(v, v / 0x100, v / 0x1_0000, v / 0x100_0000);
  }

  lemma Twice(v: nat)
    ensures v / 0x100 / 0x100 == v / 0x1_0000 && v / 0x1_0000 / 0x100 == v / 0x100_0000
  {
  }

  lemma FourBytes(v0: nat, v1: nat, v2: nat, v3: nat)
    requires v1 == v0 / 256 && v2 == v1 / 256 && v3 == v2 / 256
    ensures BigEndianBytes(v0, 1) == [v0 % 256]
    ensures BigEndianBytes(v0, 2) == [v1 % 256, v0 % 256]
    ensures BigEndianBytes(v0, 4) == [v3 % 256, v2 % 256, v1 % 256, v0 % 256]
  {
    OneByte(v3, [], 0);
    OneByte(v2, BigEndianBytes(v3, 1), 1);
    OneByte(v1, BigEndianBytes(v2, 2), 2);
    OneByte(v0, BigEndianBytes(v1, 3), 3);
    OneByte(v0, [], 0);
    OneByte(v1, [], 0);
    OneByte(v0, BigEndianBytes(v1, 1), 1);
  }

  lemma OneByte(v: nat, bs: seq<Byte>, n: nat)
    requires bs == BigEndianBytes(v / 256, n)
    ensures BigEndianBytes(v, n + 1) == bs + [v % 256]
  {
  }

  /** With the first byte counting least the bytes are those of the other order, turned around. */
  lemma {:induction false} BytesTurned(v: nat, n: nat, i: nat)
    requires i < n
    ensures LittleEndianBytes(v, n)[i] == BigEndianBytes(v, n)[n - 1 - i]
  {
    if i > 0 {
      BytesTurned(v / 256, n - 1, i - 1);
    }
  }
}
