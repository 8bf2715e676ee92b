/** Character arrays that hold NUL-terminated text, and buffers that grow at the end. */
module CStrings {

  /** The text `t` stands in `a` from index `off` on and is followed by a NUL. */
  ghost predicate Holds(a: array<char>, off: nat, t: string)
    reads a
  {
    && off + |t| < a.Length
    && a[off..off + |t|] == t
    && a[off + |t|] == '\0'
    && '\0' !in t
  }

  /** `strlen(a + off)` */
  method StrLen(a: array<char>, off: nat, ghost t: string) returns (n: nat)
    requires Holds(a, off, t)
    ensures n == |t|
  {
    n := 0;
    while a[off + n] != '\0'
      invariant n <= |t|
      invariant n < |t| ==> a[off + n] == t[n]
      decreases |t| - n
    {
      n := n + 1;
    }
  }

  /** `*s = c` for the text that has grown from `off` up to `s`. */
  method Put(a: array<char>, off: nat, s: nat, c: char)
    requires off <= s < a.Length
    modifies a
    ensures a[off..s + 1] == old(a[off..s]) + [c]
    ensures a[..off] == old(a[..off])
  {
    a[s] := c;
  }

  /** `strcpy(a + off, t)`, the copying half of every `snprintf` modelled here. */
  method StrCopy(a: array<char>, off: nat, t: string)
    requires off + |t| < a.Length && '\0' !in t
    modifies a
    ensures Holds(a, off, t)
    ensures a[..off] == old(a[..off])
  {
    var i := 0;
    while i < |t|
      invariant i <= |t|
      invariant a[off..off + i] == t[..i]
      invariant a[..off] == old(a[..off])
    {
      a[off + i] := t[i];
      assert a[off..off + i + 1] == a[off..off + i] + [t[i]];
      i := i + 1;
    }
    a[off + |t|] := '\0';
    assert a[off..off + |t|] == t;
  }

  /** A growing text buffer (GWEN_BUFFER). */
  class TextBuffer {
    var text: string

    constructor ()
      ensures text == ""
    {
      text := "";
    }

    method AppendString(s: string)
      modifies this
      ensures text == old(text) + s
    {
      text := text + s;
    }

    method FillWithBytes(c: char, n: nat)
      modifies this
      ensures text == old(text) + seq(n, _ => c)
    {
      text := text + seq(n, _ => c);
    }
  }
}
