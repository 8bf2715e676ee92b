/** Sequences put together piece by piece. */
module Seqs {

  /** The pieces `f` gives for the elements of `s`, one after the other. */
  function FlatMap<A, B>(f: A -> seq<B>, s: seq<A>): seq<B> {
    if s == [] then [] else FlatMap(f, s[..|s| - 1]) + f(s[|s| - 1])
  }

  lemma FlatMapSnoc<A, B>(f: A -> seq<B>, s: seq<A>, x: A)
    ensures FlatMap(f, s + [x]) == FlatMap(f, s) + f(x)
  {
    assert (s + [x])[..|s|] == s;
  }

  lemma FlatMapOne<A, B>(f: A -> seq<B>, x: A)
    ensures FlatMap(f, [x]) == f(x)
  {
    assert [x][..0] == [];
  }

  lemma FlatMapConcatStep<A, B>(f: A -> seq<B>, a: seq<A>, b': seq<A>, x: A, b: seq<A>, ab: seq<A>)
    requires FlatMap(f, a + b') == FlatMap(f, a) + FlatMap(f, b')
    requires b == b' + [x] && ab == (a + b') + [x]
    ensures FlatMap(f, ab) == FlatMap(f, a) + FlatMap(f, b)
  {
    hide FlatMap;
    FlatMapSnoc(f, a + b', x);
    FlatMapSnoc(f, b', x);
  }

  lemma {:induction false} FlatMapConcat<A, B>(f: A -> seq<B>, a: seq<A>, b: seq<A>)
    ensures FlatMap(f, a + b) == FlatMap(f, a) + FlatMap(f, b)
  {
    if b == [] {
      assert a + b == a;
    } else {
      var b', x := b[..|b| - 1], b[|b| - 1];
      FlatMapConcat(f, a, b');
      FlatMapConcatStep(f, a, b', x, b, a + b);
    }
  }

  lemma FlatMapCons<A, B>(f: A -> seq<B>, x: A, s: seq<A>)
    ensures FlatMap(f, [x] + s) == f(x) + FlatMap(f, s)
  {
    FlatMapConcat(f, [x], s);
    FlatMapOne(f, x);
  }

  lemma FlatMapStep<A, B>(f: A -> seq<B>, s: seq<A>, j: nat)
    requires j < |s|
    ensures FlatMap(f, s[..j + 1]) == FlatMap(f, s[..j]) + f(s[j])
  {
    assert s[..j + 1][..j] == s[..j];
  }

  lemma FlatMapPrefix<A, B>(f: A -> seq<B>, s: seq<A>, n: nat)
    requires n <= |s|
    ensures |FlatMap(f, s[..n])| <= |FlatMap(f, s)|
  {
    FlatMapConcat(f, s[..n], s[n..]);
    assert s[..n] + s[n..] == s;
  }

  /** A property of all elements of all pieces is one of all elements of the whole. */
  lemma {:induction false} FlatMapAll<A(!new), B>(f: A -> seq<B>, s: seq<A>, p: B -> bool)
    requires forall x: A, i :: 0 <= i < |f(x)| ==> p(f(x)[i])
    ensures forall i :: 0 <= i < |FlatMap(f, s)| ==> p(FlatMap(f, s)[i])
  {
    if s != [] {
      FlatMapAll(f, s[..|s| - 1], p);
    }
  }

  /** The chosen elements, in order. */
  function Kept<T>(s: seq<T>, chosen: seq<bool>): (r: seq<T>)
    requires |chosen| == |s|
    ensures |r| <= |s| && (|r| == |s| <==> false !in chosen)
  {
    if s == [] then []
    else
      var n := |s| - 1;
      assert chosen == chosen[..n] + [chosen[n]];
      Kept(s[..n], chosen[..n]) + if chosen[n] then [s[n]] else []
  }

  lemma KeptSnoc<T>(s: seq<T>, chosen: seq<bool>, x: T, c: bool)
    requires |chosen| == |s|
    ensures Kept(s + [x], chosen + [c]) == Kept(s, chosen) + if c then [x] else []
  {
    assert (s + [x])[..|s|] == s && (chosen + [c])[..|s|] == chosen;
  }

  lemma {:induction false} KeptAll<T>(s: seq<T>, chosen: seq<bool>)
    requires |chosen| == |s| && false !in chosen
    ensures Kept(s, chosen) == s
  {
    if s != [] {
      var n := |s| - 1;
      KeptAll(s[..n], chosen[..n]);
      assert s == s[..n] + [s[n]] && chosen[n] in chosen;
    }
  }
}
