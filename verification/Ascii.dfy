/** Letters in the C locale. */
module Ascii {

  /** `tolower` */
  function Lower(c: char): char {
    if 'A' <= c <= 'Z' then (c as int + 32) as char else c
  }

  /** `strcasecmp(a, b) == 0` */
  predicate SameText(a: string, b: string) {
    |a| == |b| && forall i :: 0 <= i < |a| ==> Lower(a[i]) == Lower(b[i])
  }

  /** The same letter, once as a capital and once small. */
  predicate OtherCase(c: char, d: char) {
    ('A' <= c <= 'Z' && d as int == c as int + 32) || ('A' <= d <= 'Z' && c as int == d as int + 32)
  }

  /** Texts are the same when they differ in nothing but the case of letters. */
  lemma SameTextExactly(a: string, b: string)
    ensures SameText(a, b)
       <==> |a| == |b| && forall i :: 0 <= i < |a| ==> a[i] == b[i] || OtherCase(a[i], b[i])
  {
    forall i | 0 <= i < |a| && i < |b|
      ensures Lower(a[i]) == Lower(b[i]) <==> a[i] == b[i] || OtherCase(a[i], b[i])
    {
      SameLetter(a[i], b[i]);
    }
  }

  lemma SameLetter(c: char, d: char)
    ensures Lower(c) == Lower(d) <==> c == d || OtherCase(c, d)
  {
    var x, y := c as int, d as int;
    assert 'A' <= c <= 'Z' ==> Lower(c) as int == x + 32;
    assert 'A' <= d <= 'Z' ==> Lower(d) as int == y + 32;
  }
}
