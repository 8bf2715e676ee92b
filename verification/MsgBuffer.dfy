/** Byte buffers with a reading position (GWEN_BUFFER). */
module MsgBuffer {

  type Byte = b: nat | b < 256

  class Buffer {
    var bytes: seq<Byte>
    var pos: nat

    ghost predicate Valid()
      reads this
    {
      pos <= |bytes|
    }

    constructor (bytes: seq<Byte>)
      ensures Valid() && this.bytes == bytes && pos == 0
    {
      this.bytes, pos := bytes, 0;
    }

    function BytesLeft(): (n: nat)
      requires Valid()
      reads this
    {
      |bytes| - pos
    }

    /** -1 at the end of the buffer */
    method ReadByte() returns (c: int)
      requires Valid()
      modifies this`pos
      ensures Valid()
      ensures if old(pos) < |bytes| then c == bytes[old(pos)] && pos == old(pos) + 1 else c == -1 && pos == old(pos)
    {
      c := -1;
      if pos < |bytes| {
        c, pos := bytes[pos], pos + 1;
      }
    }

    method AppendByte(b: Byte)
      requires Valid()
      modifies this`bytes
      ensures Valid() && bytes == old(bytes) + [b]
    {
      bytes := bytes + [b];
    }

    method AppendBytes(more: seq<Byte>)
      requires Valid()
      modifies this`bytes
      ensures Valid() && bytes == old(bytes) + more
    {
      bytes := bytes + more;
    }

    method IncrementPos(n: nat)
      requires Valid() && n <= BytesLeft()
      modifies this`pos
      ensures Valid() && pos == old(pos) + n
    {
      pos := pos + n;
    }

    method Rewind()
      modifies this`pos
      ensures Valid() && pos == 0
    {
      pos := 0;
    }

    method SetPos(n: nat)
      requires n <= |bytes|
      modifies this`pos
      ensures Valid() && pos == n
    {
      pos := n;
    }
  }
}
