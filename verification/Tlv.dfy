/** Tag-length-value elements: cutting them out of a message, and interpreting one. Basic encoding rules
    (sections 8.1.2 and 8.1.3 of X.690) with a tag of one octet or one more, and a simpler form. */
module Tlv {
  import opened MsgBuffer
  import opened Wrappers

  // ---------- elements and their encoding ----------

  datatype LengthForm = Direct | OneMore | TwoMore

  datatype Element = Element(tag: seq<Byte>, form: LengthForm, value: seq<Byte>)

  predicate ValidTag(ber: bool, tag: seq<Byte>) {
    if ber then (|tag| == 1 && tag[0] % 32 != 31) || (|tag| == 2 && tag[0] % 32 == 31) else |tag| == 1
  }

  predicate ValidLength(ber: bool, form: LengthForm, n: nat) {
    match form
    case Direct => n < if ber then 128 else 255
    case OneMore => ber && n < 256
    case TwoMore => n < 0x1_0000
  }

  predicate Valid(ber: bool, e: Element) {
    ValidTag(ber, e.tag) && ValidLength(ber, e.form, |e.value|)
  }

  function LengthBytes(ber: bool, form: LengthForm, n: nat): seq<Byte>
    requires ValidLength(ber, form, n)
  {
    match form
    case Direct => [n]
    case OneMore => [0x81, n]
    case TwoMore => [if ber then 0x82 else 0xff, n / 256, n % 256]
  }

  function Header(ber: bool, e: Element): seq<Byte>
    requires Valid(ber, e)
  {
    e.tag + LengthBytes(ber, e.form, |e.value|)
  }

  function Encode(ber: bool, e: Element): seq<Byte>
    requires Valid(ber, e)
  {
    Header(ber, e) + e.value
  }

  /** The tag as the engine looks it up: the number of a short tag, the last octet of a long one. */
  function TagType(ber: bool, tag: seq<Byte>): nat
    requires ValidTag(ber, tag)
  {
    if ber && |tag| == 1 then tag[0] % 32 else tag[|tag| - 1]
  }

  // ---------- parsing ----------

  /** How many octets the tag takes that starts some bytes. */
  function TagSize(ber: bool, w: seq<Byte>): nat
    requires |w| > 0
  {
    if ber && w[0] % 32 == 31 then 2 else 1
  }

  function TwoOctets(hi: nat, lo: nat): nat {
    hi * 256 + lo
  }

  /** The form and value of the length at place `p`, if it is complete. */
  function LengthAt(ber: bool, w: seq<Byte>, p: nat): Option<(LengthForm, nat)>
    requires p < |w|
  {
    if ber && w[p] == 0x81 then
      if p + 1 < |w| then Some((OneMore, w[p + 1])) else None
    else if w[p] == (if ber then 0x82 else 0xff) then
      if p + 2 < |w| then Some((TwoMore, TwoOctets(w[p + 1], w[p + 2]))) else None
    else if ber && w[p] >= 0x80 then None
    else Some((Direct, w[p]))
  }

  function FormSize(form: LengthForm): nat {
    match form
    case Direct => 1
    case OneMore => 2
    case TwoMore => 3
  }

  /** The element that some bytes start with. */
  function Parse(ber: bool, w: seq<Byte>): Option<Element> {
    if |w| < 2 || TagSize(ber, w) >= |w| then None
    else
      var p := TagSize(ber, w);
      match LengthAt(ber, w, p)
      case None => None
      case Some((form, n)) =>
        var q := p + FormSize(form);
        if q + n > |w| then None else Some(Element(w[..p], form, w[q..q + n]))
  }

  lemma SplitOctets(hi: Byte, lo: Byte)
    ensures TwoOctets(hi, lo) < 0x1_0000 && TwoOctets(hi, lo) / 256 == hi && TwoOctets(hi, lo) % 256 == lo
  {
  }

  lemma LengthSound(ber: bool, w: seq<Byte>, p: nat, form: LengthForm, n: nat)
    requires p < |w| && LengthAt(ber, w, p) == Some((form, n))
    ensures ValidLength(ber, form, n) && p + FormSize(form) <= |w|
    ensures LengthBytes(ber, form, n) == w[p..p + FormSize(form)]
  {
    if form == TwoMore {
      SplitOctets(w[p + 1], w[p + 2]);
    }
  }

  lemma JoinSlices(w: seq<Byte>, p: nat, q: nat, r: nat)
    requires p <= q <= r <= |w|
    ensures w[..p] + w[p..q] == w[..q] && w[..q] + w[q..r] == w[..r]
  {
  }

  /** What is parsed was encoded there. */
  lemma ParseSound(ber: bool, w: seq<Byte>)
    requires Parse(ber, w).Some?
    ensures var e := Parse(ber, w).value; Valid(ber, e) && Encode(ber, e) <= w
  {
    var e, p := Parse(ber, w).value, TagSize(ber, w);
    LengthSound(ber, w, p, e.form, |e.value|);
    var q := p + FormSize(e.form);
    JoinSlices(w, p, q, q + |e.value|);
  }

  lemma LengthComplete(ber: bool, w: seq<Byte>, p: nat, form: LengthForm, n: nat, ls: seq<Byte>)
    requires ValidLength(ber, form, n) && ls == LengthBytes(ber, form, n)
    requires p + |ls| <= |w| && w[p..p + |ls|] == ls
    ensures |ls| == FormSize(form) > 0 && LengthAt(ber, w, p) == Some((form, n))
  {
    assert forall i :: 0 <= i < |ls| ==> w[p + i] == ls[i];
    if form == TwoMore {
      assert TwoOctets(w[p + 1], w[p + 2]) == n;
    }
  }

  lemma SplitThree(a: seq<Byte>, b: seq<Byte>, c: seq<Byte>, abc: seq<Byte>, w: seq<Byte>)
    requires abc == a + b + c && abc <= w
    ensures w[..|a|] == a && w[|a|..|a| + |b|] == b && w[|a| + |b|..|abc|] == c
  {
    assert w == abc + w[|abc|..];
    assert w == a + (b + (c + w[|abc|..]));
  }

  /** What was encoded is parsed, whatever follows. */
  lemma ParseComplete(ber: bool, e: Element, w: seq<Byte>)
    requires Valid(ber, e) && Encode(ber, e) <= w
    ensures Parse(ber, w) == Some(e)
  {
    var enc, p, ls := Encode(ber, e), |e.tag|, LengthBytes(ber, e.form, |e.value|);
    var q := p + |ls|;
    SplitThree(e.tag, ls, e.value, enc, w);
    assert w[0] == w[..p][0] == e.tag[0];
    LengthComplete(ber, w, p, e.form, |e.value|, ls);
  }

  /** How many bytes the element takes that some bytes start with. */
  function Extent(ber: bool, w: seq<Byte>): (n: nat)
    ensures n <= |w| && (n == 0 <==> Parse(ber, w) == None)
  {
    match Parse(ber, w)
    case None => 0
    case Some(e) => TagSize(ber, w) + FormSize(e.form) + |e.value|
  }

  /** These bytes are exactly the encoding of the element. */
  lemma ExtentEncoded(ber: bool, w: seq<Byte>)
    requires Parse(ber, w).Some?
    ensures var e := Parse(ber, w).value; Valid(ber, e) && w[..Extent(ber, w)] == Encode(ber, e)
  {
    ParseSound(ber, w);
  }

  // ---------- the code ----------

  /** A byte of the buffer; the one behind the last is the terminating 0. */
  function At(p: seq<Byte>, i: nat): nat
    requires i <= |p|
  {
    if i < |p| then p[i] else 0
  }

  /** The first part of the branch for "tlv" in `AB_MsgEngine_TypeRead`: how far an element goes. */
  method ElementSize(p: seq<Byte>, isBerTlv: bool) returns (rv: int, pos: nat)
    ensures if Extent(isBerTlv, p) > 0 then rv == 0 && pos == Extent(isBerTlv, p) else rv == -1
  {
    rv, pos := -1, 0;
    var size := |p|;
    if size < 2 {
      return;
    }
    var j := At(p, pos);
    if isBerTlv {
      if j % 32 == 31 {
        pos := pos + 1;
        if pos >= size {
          return;
        }
        j := At(p, pos);
      } else {
        j := j % 32;
      }
    }
    pos := pos + 1;
    if pos >= size {
      return;
    }
    j := At(p, pos);
    if isBerTlv {
      if j >= 0x80 {
        if j == 0x81 {
          pos := pos + 1;
          if pos >= size {
            return;
          }
          j := At(p, pos);
        } else if j == 0x82 {
          if pos + 1 >= size {
            return;
          }
          pos := pos + 1;
          j := At(p, pos) * 256;
          pos := pos + 1;
          j := j + At(p, pos);
        } else {
          return;
        }
      }
    } else {
      if j == 255 {
        if pos + 2 >= size {
          return;
        }
        pos := pos + 1;
        j := At(p, pos) * 256;
        pos := pos + 1;
        j := j + At(p, pos);
      }
    }
    pos := pos + 1;
    pos := pos + j;
    if pos > size {
      return;
    }
    rv := 0;
  }

  /** The branch for "tlv" in `AB_MsgEngine_TypeRead`: cuts one element out of the message. */
  method TypeReadTlv(msgbuf: Buffer, isBerTlv: bool, vbuf: Buffer) returns (rv: int)
    requires msgbuf.Valid() && vbuf.Valid() && msgbuf != vbuf
    modifies msgbuf`pos, vbuf`bytes
    ensures msgbuf.Valid() && vbuf.Valid()
    ensures var w := msgbuf.bytes[old(msgbuf.pos)..];
            match Parse(isBerTlv, w)
            case Some(e) =>
              Valid(isBerTlv, e) && rv == 0 && vbuf.bytes == old(vbuf.bytes) + Encode(isBerTlv, e)
              && msgbuf.pos == old(msgbuf.pos) + |Encode(isBerTlv, e)|
            case None =>
              rv == (if w == [] then 0 else -1) && vbuf.bytes == old(vbuf.bytes) && msgbuf.pos == old(msgbuf.pos)
  {
    if msgbuf.BytesLeft() == 0 {
      return 0;
    }
    var p := msgbuf.bytes[msgbuf.pos..];
    var pos;
    rv, pos := ElementSize(p, isBerTlv);
    if rv < 0 {
      return;
    }
    ExtentEncoded(isBerTlv, p);
    vbuf.AppendBytes(p[..pos]);
    msgbuf.IncrementPos(pos);
    return 0;
  }

  /** The header parser of `AB_MsgEngine_BinTypeRead`: leaves the buffer at the value of the element. */
  method BinTypeRead(vbuf: Buffer, isBerTlv: bool) returns (rv: int, tagType: nat, tagLength: nat)
    modifies vbuf`pos
    ensures var w := vbuf.bytes;
            match Parse(isBerTlv, w)
            case Some(e) =>
              ValidTag(isBerTlv, e.tag) && rv == 0 && tagType == TagType(isBerTlv, e.tag) && tagLength == |e.value|
              && vbuf.Valid() && vbuf.pos == TagSize(isBerTlv, w) + FormSize(e.form)
              && |w| >= 2 && tagType == if !isBerTlv then w[0] else if w[0] % 32 == 31 then w[1] else w[0] % 32
            case None => rv == if w == [] then 0 else -1
  {
    rv, tagType, tagLength := -1, 0, 0;
    vbuf.Rewind();
    if vbuf.BytesLeft() == 0 {
      return 0, 0, 0;
    }
    var pos;
    rv, pos, tagType, tagLength := ReadHeader(vbuf.bytes, isBerTlv);
    if rv < 0 {
      return;
    }
    vbuf.SetPos(pos);
  }

  method ReadHeader(p: seq<Byte>, isBerTlv: bool) returns (rv: int, pos: nat, tagType: nat, tagLength: nat)
    ensures match Parse(isBerTlv, p)
            case Some(e) =>
              rv == 0 && pos == TagSize(isBerTlv, p) + FormSize(e.form) <= |p| && tagLength == |e.value|
              && ValidTag(isBerTlv, e.tag) && tagType == TagType(isBerTlv, e.tag)
            case None => rv == -1
  {
    rv, pos, tagType, tagLength := -1, 0, 0, 0;
    var size := |p|;
    if size < 2 {
      return;
    }
    var j := At(p, pos);
    if isBerTlv {
      if j % 32 == 31 {
        pos := pos + 1;
        if pos >= size {
          return;
        }
        j := At(p, pos);
      } else {
        j := j % 32;
      }
    }
    tagType := j;
    pos := pos + 1;
    if pos >= size {
      return;
    }
    j := At(p, pos);
    if isBerTlv {
      if j >= 0x80 {
        if j == 0x81 {
          pos := pos + 1;
          if pos >= size {
            return;
          }
          j := At(p, pos);
        } else if j == 0x82 {
          if pos + 1 >= size {
            return;
          }
          pos := pos + 1;
          j := At(p, pos) * 256;
          pos := pos + 1;
          j := j + At(p, pos);
        } else {
          return;
        }
      }
    } else {
      if j == 255 {
        if pos + 2 >= size {
          return;
        }
        pos := pos + 1;
        j := At(p, pos) * 256;
        pos := pos + 1;
        j := j + At(p, pos);
      }
    }
    pos := pos + 1;
    tagLength := j;
    if pos + j > size {
      return;
    }
    rv := 0;
  }

  // ---------- messages of several elements ----------

  /** The encodings of some elements, one after the other. */
  function Message(ber: bool, es: seq<Element>): seq<Byte>
    requires forall i :: 0 <= i < |es| ==> Valid(ber, es[i])
  {
    if es == [] then [] else Encode(ber, es[0]) + Message(ber, es[1..])
  }

  /** What repeated reading makes of some bytes, none if it fails somewhere. */
  function ReadAll(ber: bool, w: seq<Byte>): Option<seq<Element>>
    decreases |w|
  {
    if w == [] then Some([])
    else
      match Parse(ber, w)
      case None => None
      case Some(e) =>
        match ReadAll(ber, w[Extent(ber, w)..])
        case None => None
        case Some(es) => Some([e] + es)
  }

  ghost predicate AllValid(ber: bool, es: seq<Element>) {
    forall i :: 0 <= i < |es| ==> Valid(ber, es[i])
  }

  lemma FirstOf(ber: bool, e: Element, rest: seq<Byte>, w: seq<Byte>)
    requires Valid(ber, e) && w == Encode(ber, e) + rest
    ensures w != [] && Parse(ber, w) == Some(e) && Extent(ber, w) == |Encode(ber, e)| && w[Extent(ber, w)..] == rest
  {
    ParseComplete(ber, e, w);
    ExtentEncoded(ber, w);
  }

  /** Repeated reading returns exactly the elements of a message, in order. */
  lemma {:induction false} ReadsBack(ber: bool, es: seq<Element>)
    requires AllValid(ber, es)
    ensures ReadAll(ber, Message(ber, es)) == Some(es)
  {
    if es != [] {
      ReadsBack(ber, es[1..]);
      FirstOf(ber, es[0], Message(ber, es[1..]), Message(ber, es));
      assert [es[0]] + es[1..] == es;
    }
  }

  lemma MessageCons(ber: bool, e: Element, es: seq<Element>, w: seq<Byte>, n: nat, all: seq<Element>)
    requires Valid(ber, e) && AllValid(ber, es) && all == [e] + es
    requires n <= |w| && w[..n] == Encode(ber, e) && w[n..] == Message(ber, es)
    ensures AllValid(ber, all) && Message(ber, all) == w
  {
    assert all[1..] == es;
  }

  /** Bytes that can be read to the end are the message of what was read. */
  lemma {:induction false} ReadSound(ber: bool, w: seq<Byte>)
    requires ReadAll(ber, w).Some?
    ensures AllValid(ber, ReadAll(ber, w).value) && Message(ber, ReadAll(ber, w).value) == w
    decreases |w|
  {
    if w != [] {
      var n := Extent(ber, w);
      ReadSound(ber, w[n..]);
      ExtentEncoded(ber, w);
      var e, es := Parse(ber, w).value, ReadAll(ber, w[n..]).value;
      MessageCons(ber, e, es, w, n, ReadAll(ber, w).value);
    }
  }

  /** No two lists of elements have the same bytes. */
  lemma MessagesDiffer(ber: bool, es: seq<Element>, es': seq<Element>)
    requires AllValid(ber, es) && AllValid(ber, es') && Message(ber, es) == Message(ber, es')
    ensures es == es'
  {
    ReadsBack(ber, es);
    ReadsBack(ber, es');
  }

  /** Of a tag of one octet only the lower five bits count; class and form, the upper three, make no difference.
      Five bits all set announce a second octet, which is the tag. */
  lemma TagOfOctets(e: Element, w: seq<Byte>, c: nat, n: nat)
    requires Valid(true, e) && Encode(true, e) <= w && c < 8 && n < 32 && w[0] == 32 * c + n
    ensures |w| >= 2 && TagType(true, e.tag) == if n < 31 then n else w[1]
  {
    var enc := Encode(true, e);
    assert w[0] == enc[0] == e.tag[0] && w[1] == enc[1];
    assert w[0] % 32 == n;
    if n == 31 {
      assert enc[1] == e.tag[1];
    }
  }

  /** In the simple form the whole octet is the tag. */
  lemma TagOfOctet(e: Element, w: seq<Byte>)
    requires Valid(false, e) && Encode(false, e) <= w
    ensures TagType(false, e.tag) == w[0]
  {
    assert w[0] == Encode(false, e)[0];
  }

  /** The octets of an element, written out: below 128 bytes the length is one octet in the basic encoding
      rules, otherwise 0x81 or 0x82 and one octet or two; in the simple form it is one octet below 255, or
      0xff and two. */
  lemma Octets(ber: bool, e: Element, n: nat)
    requires Valid(ber, e) && n == |e.value|
    ensures e.form == Direct ==> n < (if ber then 128 else 255) && Encode(ber, e) == e.tag + [n] + e.value
    ensures e.form == OneMore ==> ber && n < 256 && Encode(ber, e) == e.tag + [0x81, n] + e.value
    ensures e.form == TwoMore ==>
              n < 0x1_0000 && Encode(ber, e) == e.tag + [if ber then 0x82 else 0xff, n / 256, n % 256] + e.value
  {
  }

  /** An element that was cut out of a message is interpreted as what it is: the rest of it, behind the
      header, is its value. */
  lemma SliceInterpreted(ber: bool, e: Element)
    requires Valid(ber, e)
    ensures var w := Encode(ber, e);
            && Parse(ber, w) == Some(e)
            && TagSize(ber, w) + FormSize(e.form) <= |w| && w[TagSize(ber, w) + FormSize(e.form)..] == e.value
  {
    ParseComplete(ber, e, Encode(ber, e));
  }

  // ---------- reading a message to its end ----------

  /** Tags and values of some elements. */
  function Contents(ber: bool, es: seq<Element>): seq<(nat, seq<Byte>)>
    requires AllValid(ber, es)
  {
    if es == [] then [] else [(TagType(ber, es[0].tag), es[0].value)] + Contents(ber, es[1..])
  }

  /** What was read so far and what is still to be read in `w` make up `all`, or reading fails. */
  ghost predicate ReadSoFar(ber: bool, all: seq<Byte>, read: seq<(nat, seq<Byte>)>, w: seq<Byte>) {
    match ReadAll(ber, w)
    case None => ReadAll(ber, all) == None
    case Some(es) =>
      && AllValid(ber, es)
      && match ReadAll(ber, all)
         case None => false
         case Some(es0) => AllValid(ber, es0) && Contents(ber, es0) == read + Contents(ber, es)
  }

  lemma NothingRead(ber: bool, all: seq<Byte>)
    ensures ReadSoFar(ber, all, [], all)
  {
    if ReadAll(ber, all).Some? {
      ReadSound(ber, all);
      assert [] + Contents(ber, ReadAll(ber, all).value) == Contents(ber, ReadAll(ber, all).value);
    }
  }

  lemma ContentsCons(ber: bool, e: Element, es: seq<Element>, all: seq<Element>)
    requires Valid(ber, e) && AllValid(ber, es) && all == [e] + es
    ensures AllValid(ber, all) && Contents(ber, all) == [(TagType(ber, e.tag), e.value)] + Contents(ber, es)
  {
    assert all[1..] == es;
  }

  lemma ReadAllCons(ber: bool, w: seq<Byte>, e: Element, w': seq<Byte>)
    requires w != [] && Parse(ber, w) == Some(e) && w' == w[Extent(ber, w)..]
    ensures ReadAll(ber, w)
         == match ReadAll(ber, w') case None => None case Some(es) => Some([e] + es)
  {
  }

  lemma OneMoreRead(ber: bool, all: seq<Byte>, read: seq<(nat, seq<Byte>)>, w: seq<Byte>, e: Element, w': seq<Byte>,
                    read': seq<(nat, seq<Byte>)>)
    requires ReadSoFar(ber, all, read, w) && w != [] && Parse(ber, w) == Some(e) && Valid(ber, e)
    requires w' == w[Extent(ber, w)..] && read' == read + [(TagType(ber, e.tag), e.value)]
    ensures ReadSoFar(ber, all, read', w')
  {
    hide ReadAll, Parse, Contents, TagType, Message;
    ReadAllCons(ber, w, e, w');
    if ReadAll(ber, w').Some? {
      ReadSound(ber, w');
      var es := ReadAll(ber, w').value;
      ContentsCons(ber, e, es, [e] + es);
      assert read + ([(TagType(ber, e.tag), e.value)] + Contents(ber, es)) == read' + Contents(ber, es);
    }
  }

  lemma AllRead(ber: bool, all: seq<Byte>, read: seq<(nat, seq<Byte>)>, w: seq<Byte>)
    requires ReadSoFar(ber, all, read, w) && w == []
    ensures ReadAll(ber, all).Some? && AllValid(ber, ReadAll(ber, all).value)
    ensures read == Contents(ber, ReadAll(ber, all).value)
  {
    assert read + [] == read;
  }

  lemma NoneRead(ber: bool, all: seq<Byte>, read: seq<(nat, seq<Byte>)>, w: seq<Byte>)
    requires ReadSoFar(ber, all, read, w) && w != [] && Parse(ber, w) == None
    ensures ReadAll(ber, all) == None
  {
  }

  /** One element: it is cut out of the message, and tag and value are taken from the slice. */
  method ReadElement(msgbuf: Buffer, isBerTlv: bool) returns (rv: int, tagType: nat, value: seq<Byte>)
    requires msgbuf.Valid() && msgbuf.BytesLeft() > 0
    modifies msgbuf`pos
    ensures msgbuf.Valid()
    ensures var w := msgbuf.bytes[old(msgbuf.pos)..];
            match Parse(isBerTlv, w)
            case None => rv < 0
            case Some(e) =>
              && rv == 0 && Valid(isBerTlv, e) && tagType == TagType(isBerTlv, e.tag) && value == e.value
              && Extent(isBerTlv, w) > 0 && msgbuf.bytes[msgbuf.pos..] == w[Extent(isBerTlv, w)..]
  {
    ghost var w := msgbuf.bytes[msgbuf.pos..];
    var vbuf := new Buffer([]);
    rv := TypeReadTlv(msgbuf, isBerTlv, vbuf);
    tagType, value := 0, [];
    if rv < 0 {
      return;
    }
    SliceHeld(isBerTlv, w, vbuf.bytes);
    var tagLength;
    rv, tagType, tagLength := BinTypeRead(vbuf, isBerTlv);
    value := vbuf.bytes[vbuf.pos..];
  }

  lemma SliceHeld(ber: bool, w: seq<Byte>, slice: seq<Byte>)
    requires Parse(ber, w).Some? && Valid(ber, Parse(ber, w).value) && slice == [] + Encode(ber, Parse(ber, w).value)
    ensures var e := Parse(ber, w).value;
            && Parse(ber, slice) == Some(e) && Extent(ber, w) == |Encode(ber, e)|
            && TagSize(ber, slice) + FormSize(e.form) <= |slice|
            && slice[TagSize(ber, slice) + FormSize(e.form)..] == e.value
  {
    var e := Parse(ber, w).value;
    assert slice == Encode(ber, e);
    SliceInterpreted(ber, e);
    ExtentEncoded(ber, w);
  }

  /** How a caller reads a message: element after element, until nothing is left. */
  method ReadMessage(msgbuf: Buffer, isBerTlv: bool) returns (rv: int, read: seq<(nat, seq<Byte>)>)
    requires msgbuf.Valid()
    modifies msgbuf`pos
    ensures match ReadAll(isBerTlv, msgbuf.bytes[old(msgbuf.pos)..])
            case None => rv < 0
            case Some(es) => rv == 0 && AllValid(isBerTlv, es) && read == Contents(isBerTlv, es)
  {
    hide ReadSoFar, ReadAll, Parse, Valid, Contents, Encode, TagType, Extent;
    ghost var all := msgbuf.bytes[msgbuf.pos..];
    rv, read := 0, [];
    NothingRead(isBerTlv, all);
    while msgbuf.BytesLeft() > 0
      invariant msgbuf.Valid() && ReadSoFar(isBerTlv, all, read, msgbuf.bytes[msgbuf.pos..])
      decreases msgbuf.BytesLeft()
    {
      ghost var w, before := msgbuf.bytes[msgbuf.pos..], read;
      var tagType, value;
      rv, tagType, value := ReadElement(msgbuf, isBerTlv);
      if rv < 0 {
        NoneRead(isBerTlv, all, read, w);
        return;
      }
      read := read + [(tagType, value)];
      OneMoreRead(isBerTlv, all, before, w, Parse(isBerTlv, w).value, msgbuf.bytes[msgbuf.pos..], read);
    }
    AllRead(isBerTlv, all, read, msgbuf.bytes[msgbuf.pos..]);
    rv := 0;
  }
}
