/** Comparing bank names roughly: a score from 0 to 1024. */
module Fuzzy {
  import opened Ascii

  /** `1 << FUZZY_SHIFT` */
  const FULL := 1024
  /** `1 << (FUZZY_SHIFT-2)` */
  const QUARTER := 256

  type Text = s: string | forall i :: 0 <= i < |s| ==> s[i] != '\0'

  /** A character of a NUL-terminated string. */
  function At(s: Text, i: nat): char
    requires i <= |s|
  {
    if i < |s| then s[i] else '\0'
  }

  // ---------- two words ----------

  /** Score and length that come from the words `a` from place `i` and `b` from place `j` on. */
  function Similarity(a: Text, i: nat, b: Text, j: nat): (r: (nat, nat))
    requires i <= |a| && j <= |b|
    ensures r.0 <= FULL * r.1 && (i < |a| ==> r.1 > 0)
    decreases |a| - i
  {
    if i < |a| && j < |b| then
      if a[i] == b[j] then Add(FULL, 1, Similarity(a, i + 1, b, j + 1))
      else if a[i] == At(b, j + 1) then Add(QUARTER, 1, Similarity(a, i + 1, b, j + 2))
      else if At(a, i + 1) == b[j] then Add(QUARTER, 2, Similarity(a, i + 2, b, j + 1))
      else Add(0, 1, Similarity(a, i + 1, b, j + 1))
    else (0, |a| - i)
  }

  function Add(score: nat, l: nat, r: (nat, nat)): (nat, nat) {
    (score + r.0, l + r.1)
  }

  lemma AverageBound(x: nat, n: nat)
    requires n > 0 && x <= FULL * n
    ensures x / n <= FULL && (x / n == FULL <==> x == FULL * n)
  {
    var q := x / n;
    assert x == n * q + x % n;
    assert q > FULL ==> n * q >= n * (FULL + 1);
    assert q < FULL ==> n * q <= n * (FULL - 1);
  }

  function Average(x: nat, n: nat): (r: nat)
    requires n > 0 && x <= FULL * n
    ensures r <= FULL
  {
    AverageBound(x, n);
    x / n
  }

  lemma IsAverage(x: nat, n: nat)
    requires n > 0 && x <= FULL * n
    ensures x / n == Average(x, n)
  {
  }

  function Score(a: Text, b: Text): (r: nat)
    requires a != ""
    ensures r <= FULL
  {
    Average(Similarity(a, 0, b, 0).0, Similarity(a, 0, b, 0).1)
  }

  /** How far the loop has come. */
  ghost predicate Counted(a: Text, b: Text, i: nat, j: nat, score: nat, l: nat) {
    i <= |a| && j <= |b| && Similarity(a, 0, b, 0) == Add(score, l, Similarity(a, i, b, j))
  }

  lemma AddTwice(total: (nat, nat), score: nat, l: nat, r: (nat, nat), more: nat, len: nat, r': (nat, nat), score': nat,
                 l': nat)
    requires total == Add(score, l, r) && r == Add(more, len, r')
    requires score' == score + more && l' == l + len
    ensures total == Add(score', l', r')
  {
  }

  /** One turn of the loop in `_word_similarity` */
  method CompareAt(a: Text, b: Text, i0: nat, j0: nat, score0: nat, l0: nat)
    returns (i: nat, j: nat, score: nat, l: nat)
    requires i0 < |a| && j0 < |b|
    ensures i0 < i <= |a| && j <= |b| && score >= score0 && l >= l0
    ensures Similarity(a, i0, b, j0) == Add(score - score0, l - l0, Similarity(a, i, b, j))
  {
    i, j, score, l := i0, j0, score0, l0;
    if At(a, i) == At(b, j) {
      score := score + FULL;
    } else if At(a, i) == At(b, j + 1) {
      score := score + QUARTER;
      j := j + 1;
    } else if At(a, i + 1) == At(b, j) {
      score := score + QUARTER;
      i := i + 1;
      l := l + 1;
    }
    i := i + 1;
    j := j + 1;
    l := l + 1;
  }

  /** The loop of `_word_similarity` and what follows it, up to the division */
  method Tally(a: Text, b: Text) returns (score: nat, l: nat)
    ensures (score, l) == Similarity(a, 0, b, 0)
  {
    score, l := 0, 0;
    var i, j := 0, 0;
    while At(a, i) != '\0' && At(b, j) != '\0'
      invariant Counted(a, b, i, j, score, l)
      decreases |a| - i
    {
      ghost var i0, j0, score0, l0 := i, j, score, l;
      i, j, score, l := CompareAt(a, b, i, j, score, l);
      AddTwice(Similarity(a, 0, b, 0), score0, l0, Similarity(a, i0, b, j0), score - score0, l - l0,
               Similarity(a, i, b, j), score, l);
    }
    if At(a, i) != '\0' {
      l := l + (|a| - i);
    }
  }

  /** The first word must not be empty, or the division fails. */
  method WordSimilarity(a: Text, b: Text) returns (score: nat)
    requires a != ""
    ensures score == Score(a, b)
  {
    hide Average, Similarity;
    var l;
    score, l := Tally(a, b);
    IsAverage(score, l);
    score := score / l;
  }

  // ---------- lists of words ----------

  type Word = s: Text | s != "" witness "a"

  function Scores(s: Word, words: seq<Word>, k: nat): (r: nat)
    requires k <= |words|
    ensures r <= FULL * k
  {
    if k == 0 then 0
    else Scores(s, words, k - 1) + Score(s, words[k - 1])
  }

  function Compared(s: Word, words: seq<Word>): (r: nat)
    ensures r <= FULL
  {
    if s in words then FULL else if words == [] then 0 else Average(Scores(s, words, |words|), |words|)
  }

  lemma FoundItself(s: Word, words: seq<Word>, k: nat)
    requires k < |words| && words[k] == s
    ensures Compared(s, words) == FULL
  {
  }

  method CmpWordList(s: Word, words: seq<Word>) returns (score: nat)
    ensures score == Compared(s, words)
  {
    hide Score, Compared, Average;
    score := 0;
    var n := 0;
    while n < |words|
      invariant n <= |words| && s !in words[..n] && score == Scores(s, words, n)
    {
      var p := words[n];
      n := n + 1;
      if s == p {
        FoundItself(s, words, n - 1);
        return FULL;
      }
      var similarity := WordSimilarity(s, p);
      score := score + similarity;
    }
    assert words[..n] == words;
    ghost var total := score;
    score := if n > 0 then score / n else 0;
    Averaged(s, words, total, score);
  }

  lemma Averaged(s: Word, words: seq<Word>, total: nat, score: nat)
    requires s !in words && total == Scores(s, words, |words|)
    requires score == if |words| > 0 then total / |words| else 0
    ensures score == Compared(s, words)
  {
    hide Average;
    if words != [] {
      IsAverage(total, |words|);
    }
  }

  function Found(a: seq<Word>, b: seq<Word>, k: nat): (r: nat)
    requires k <= |a|
    ensures r <= FULL * k
  {
    if k == 0 then 0 else Found(a, b, k - 1) + Compared(a[k - 1], b)
  }

  function FoundScore(a: seq<Word>, b: seq<Word>): (r: nat)
    ensures r <= FULL
  {
    if a == [] then 0 else Average(Found(a, b, |a|), |a|)
  }

  method FindScore(a: seq<Word>, b: seq<Word>) returns (score: nat)
    ensures score == FoundScore(a, b)
  {
    score := 0;
    var n := 0;
    while n < |a|
      invariant n <= |a| && score == Found(a, b, n)
    {
      var p := a[n];
      n := n + 1;
      var found := CmpWordList(p, b);
      score := score + found;
    }
    score := if n > 0 then score / n else 0;
  }

  // ---------- names ----------

  /** Holds of every character: the comparisons are joined by "or". */
  predicate IsAsciiAlnum(c: char) {
    c >= 'A' || c <= 'Z' || c >= 'a' || c <= 'z' || c >= '0' || c <= '9' || c as int >= 128
  }

  function LowerAll(s: Text): (w: Text)
    ensures |w| == |s| && forall i :: 0 <= i < |s| ==> w[i] == Lower(s[i])
  {
    if s == "" then "" else LowerAll(s[..|s| - 1]) + [Lower(s[|s| - 1])]
  }

  /** The words that some abbreviations of one word stand for */
  function FullWord(w: Word): Word {
    if SameText(w, "1ST") then "FIRST"
    else if SameText(w, "TR") then "TRUST"
    else if SameText(w, "BK") then "BANK"
    else if SameText(w, "CO") then "COMPANY"
    else if SameText(w, "CORP") then "CORPORATION"
    else if SameText(w, "DEPT") then "DEPARTMENT"
    else if SameText(w, "NAT") || SameText(w, "NATL") then "NATIONAL"
    else w
  }

  const FCU: seq<Word> := ["FEDERAL", "CREDIT", "UNION"]

  /** Some abbreviations stand for one or more words. */
  function Expand(w: Word): seq<Word> {
    if SameText(w, "FCU") then FCU else [FullWord(w)]
  }

  function WordsOf(str: Text): seq<Word> {
    if str == "" then [] else Expand(LowerAll(str))
  }

  method LowerCopy(str: Text, p0: nat, size: nat) returns (wptr: Text)
    requires p0 + size <= |str|
    ensures wptr == LowerAll(str[p0..p0 + size])
  {
    wptr := "";
    var p, i := p0, 0;
    while i < size
      invariant i <= size && p == p0 + i && |wptr| == i
      invariant forall k :: 0 <= k < i ==> wptr[k] == Lower(str[p0 + k])
    {
      wptr := wptr + [Lower(str[p])];
      p := p + 1;
      i := i + 1;
    }
  }

  method MakeWordList(str: Text) returns (sl: seq<Word>)
    ensures sl == WordsOf(str)
  {
    sl := [];
    var i := 0;
    while At(str, i) != '\0'
      invariant if i == 0 then sl == [] else i == |str| && sl == WordsOf(str)
      decreases |str| - i
    {
      var p := i;  // the loop before this, which skips all other characters, never has anything to skip
      while At(str, i) != '\0' && IsAsciiAlnum(At(str, i))
        invariant i <= |str|
        decreases |str| - i
      {
        i := i + 1;
      }
      var size := i - p;
      if At(str, p) != '\0' {
        var wptr := LowerCopy(str, p, size);
        assert str[p..p + size] == str;
        sl := sl + Expand(wptr);
      }
    }
  }

  function Rating(str1: Text, str2: Text): nat {
    (FoundScore(WordsOf(str1), WordsOf(str2)) + FoundScore(WordsOf(str2), WordsOf(str1))) / 2
  }

  method FuzzyCompare(str1: Text, str2: Text) returns (score: nat)
    ensures score == Rating(str1, str2)
  {
    var a := MakeWordList(str1);
    var b := MakeWordList(str2);
    var ab := FindScore(a, b);
    var ba := FindScore(b, a);
    score := (ab + ba) / 2;
  }

  // ---------- what the score means ----------

  lemma {:induction false} PrefixScore(a: Text, i: nat, b: Text, j: nat)
    requires i <= |a| && j <= |b|
    ensures Similarity(a, i, b, j).0 == FULL * Similarity(a, i, b, j).1 <==> a[i..] <= b[j..]
    decreases |a| - i
  {
    if i < |a| && j < |b| && a[i] == b[j] {
      PrefixScore(a, i + 1, b, j + 1);
      assert a[i..] == [a[i]] + a[i + 1..] && b[j..] == [b[j]] + b[j + 1..];
    } else if i < |a| {
      assert a[i..][0] == a[i];
      assert j < |b| ==> b[j..][0] == b[j];
    }
  }

  /** One word scores in full against another exactly if it is how the other one begins. */
  lemma FullScore(a: Word, b: Word)
    ensures Score(a, b) == FULL <==> a <= b
  {
    PrefixScore(a, 0, b, 0);
    assert a[0..] == a && b[0..] == b;
    AverageBound(Similarity(a, 0, b, 0).0, Similarity(a, 0, b, 0).1);
  }

  lemma {:induction false} FullScores(s: Word, words: seq<Word>, k: nat)
    requires k <= |words|
    ensures Scores(s, words, k) == FULL * k <==> forall i :: 0 <= i < k ==> s <= words[i]
  {
    if k > 0 {
      FullScores(s, words, k - 1);
      FullScore(s, words[k - 1]);
    }
  }

  /** The word begins every word of the list, or is one of them. */
  predicate Fits(s: Word, words: seq<Word>) {
    s in words || (words != [] && forall i :: 0 <= i < |words| ==> s <= words[i])
  }

  lemma FullCompared(s: Word, words: seq<Word>)
    ensures Compared(s, words) == FULL <==> Fits(s, words)
  {
    if s !in words && words != [] {
      FullScores(s, words, |words|);
      AverageBound(Scores(s, words, |words|), |words|);
    }
  }

  lemma {:induction false} FullFound(a: seq<Word>, b: seq<Word>, k: nat)
    requires k <= |a|
    ensures Found(a, b, k) == FULL * k <==> forall i :: 0 <= i < k ==> Fits(a[i], b)
  {
    if k > 0 {
      FullFound(a, b, k - 1);
      FullCompared(a[k - 1], b);
    }
  }

  lemma FullFoundScore(a: seq<Word>, b: seq<Word>)
    ensures FoundScore(a, b) == FULL <==> a != [] && forall i :: 0 <= i < |a| ==> Fits(a[i], b)
  {
    if a != [] {
      FullFound(a, b, |a|);
      AverageBound(Found(a, b, |a|), |a|);
    }
  }

  lemma WordsCount(str: Text)
    requires str != ""
    ensures |WordsOf(str)| == 1 || WordsOf(str) == FCU
  {
  }

  lemma AllFit(a: seq<Word>, b: seq<Word>)
    requires (|a| == 1 || a == FCU) && (|b| == 1 || b == FCU)
    requires (forall i :: 0 <= i < |a| ==> Fits(a[i], b)) && (forall i :: 0 <= i < |b| ==> Fits(b[i], a))
    ensures a == b
  {
    if |a| == 1 && |b| == 1 {
      assert Fits(a[0], b) && Fits(b[0], a);
      assert a[0] <= b[0] && b[0] <= a[0];
      assert a[0] == b[0];
    } else if |b| == 1 {
      FcuFitsNone(a, b);
    } else if |a| == 1 {
      FcuFitsNone(b, a);
    }
  }

  lemma FcuFitsNone(a: seq<Word>, b: seq<Word>)
    requires a == FCU && |b| == 1
    ensures !(Fits(a[0], b) && Fits(a[1], b))
  {
    assert a[0][0] == 'F' && a[1][0] == 'C';
    if Fits(a[0], b) {
      assert a[0] <= b[0];
      assert b[0][0] == 'F';
    }
    if Fits(a[1], b) {
      assert a[1] <= b[0];
      assert b[0][0] == 'C';
    }
  }

  /** The score never exceeds 1024, and is 1024 exactly for names that are not empty and come down to the
      same words. */
  lemma FullRating(str1: Text, str2: Text)
    ensures Rating(str1, str2) <= FULL
    ensures Rating(str1, str2) == FULL <==> str1 != "" && str2 != "" && WordsOf(str1) == WordsOf(str2)
  {
    var a, b := WordsOf(str1), WordsOf(str2);
    FullFoundScore(a, b);
    FullFoundScore(b, a);
    if str1 != "" && str2 != "" {
      WordsCount(str1);
      WordsCount(str2);
      if Rating(str1, str2) == FULL {
        AllFit(a, b);
      }
    }
  }

  /** Names that differ only in case are the same. */
  lemma SameNames(str1: Text, str2: Text)
    requires SameText(str1, str2)
    ensures WordsOf(str1) == WordsOf(str2)
  {
    assert LowerAll(str1) == LowerAll(str2);
  }

  // ---------- abbreviations ----------

  predicate Capital(c: char) {
    'A' <= c <= 'Z'
  }

  predicate Capitals(w: Text) {
    forall i :: 0 <= i < |w| ==> Capital(w[i])
  }

  predicate NoCapitals(w: Text) {
    forall i :: 0 <= i < |w| ==> !Capital(w[i])
  }

  lemma {:induction false} NothingAlike(a: Text, i: nat, b: Text, j: nat)
    requires i <= |a| && j <= |b|
    requires (Capitals(a) && NoCapitals(b)) || (NoCapitals(a) && Capitals(b))
    ensures Similarity(a, i, b, j).0 == 0
    decreases |a| - i
  {
    if i < |a| && j < |b| {
      NothingAlike(a, i + 1, b, j + 1);
    }
  }

  ghost predicate AllOf(words: seq<Word>, capital: bool) {
    forall i :: 0 <= i < |words| ==> if capital then Capitals(words[i]) else NoCapitals(words[i])
  }

  lemma {:induction false} NothingScored(s: Word, words: seq<Word>, k: nat, capital: bool)
    requires (if capital then Capitals(s) else NoCapitals(s)) && AllOf(words, !capital) && k <= |words|
    ensures Scores(s, words, k) == 0
  {
    if k > 0 {
      NothingScored(s, words, k - 1, capital);
      NothingAlike(s, 0, words[k - 1], 0);
    }
  }

  lemma NothingCompared(s: Word, words: seq<Word>, capital: bool)
    requires (if capital then Capitals(s) else NoCapitals(s)) && AllOf(words, !capital)
    ensures Compared(s, words) == 0
  {
    assert Capital(s[0]) == capital;
    forall i | 0 <= i < |words| ensures words[i] != s {
      assert Capital(words[i][0]) == !capital;
    }
    NothingScored(s, words, |words|, capital);
  }

  lemma {:induction false} NothingFound(a: seq<Word>, b: seq<Word>, k: nat, capital: bool)
    requires AllOf(a, capital) && AllOf(b, !capital) && k <= |a|
    ensures Found(a, b, k) == 0
  {
    if k > 0 {
      NothingFound(a, b, k - 1, capital);
      NothingCompared(a[k - 1], b, capital);
    }
  }

  /** The name is one of the abbreviations. */
  predicate Abbreviation(str: Text) {
    str != "" && WordsOf(str) != [LowerAll(str)]
  }

  lemma FullCapitals(w: Word)
    requires FullWord(w) != w
    ensures Capitals(FullWord(w))
  {
    hide SameText;
  }

  lemma ExpandedCapitals(w: Word, ws: seq<Word>)
    requires ws == Expand(w) && ws != [w]
    ensures AllOf(ws, true)
  {
    if ws != FCU {
      FullCapitals(w);
    }
  }

  lemma CapitalWords(str: Text)
    requires str != ""
    ensures AllOf(WordsOf(str), Abbreviation(str))
  {
    var w := LowerAll(str);
    if Abbreviation(str) {
      ExpandedCapitals(w, WordsOf(str));
    } else {
      assert forall i :: 0 <= i < |w| ==> !Capital(w[i]);
    }
  }

  /** An abbreviation is expanded to capitals, while other names are put in small letters: so an
      abbreviation and a name that is none, not even the full form, have no likeness at all. */
  lemma AbbreviationsUnlike(str1: Text, str2: Text)
    requires str1 != "" && str2 != "" && Abbreviation(str1) != Abbreviation(str2)
    ensures Rating(str1, str2) == 0
  {
    CapitalWords(str1);
    CapitalWords(str2);
    NothingFound(WordsOf(str1), WordsOf(str2), |WordsOf(str1)|, Abbreviation(str1));
    NothingFound(WordsOf(str2), WordsOf(str1), |WordsOf(str2)|, Abbreviation(str2));
  }
}
