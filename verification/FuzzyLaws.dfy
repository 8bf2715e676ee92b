/** What the rough comparison of names comes to, said without its loops. */
module FuzzyLaws {
  import opened Ascii
  import opened Fuzzy

  // ---------- two words that differ in one place ----------

  lemma {:induction false} SameRest(a: Text, i: nat, b: Text, j: nat)
    requires i <= |a| && j <= |b| && a[i..] == b[j..]
    ensures Similarity(a, i, b, j) == (1024 * (|a| - i), |a| - i)
    decreases |a| - i
  {
    assert |a[i..]| == |b[j..]|;
    if i < |a| {
      assert a[i..][0] == b[j..][0] && a[i..][1..] == b[j..][1..];
      assert a[i + 1..] == a[i..][1..] && b[j + 1..] == b[j..][1..];
      SameRest(a, i + 1, b, j + 1);
    }
  }

  lemma {:induction false} SameStart(a: Text, b: Text, i: nat, k: nat)
    requires i <= k <= |a| && k <= |b| && a[..k] == b[..k]
    ensures Similarity(a, i, b, i) == Add(1024 * (k - i), k - i, Similarity(a, k, b, k))
    decreases k - i
  {
    if i < k {
      assert a[i] == a[..k][i] == b[i];
      SameStart(a, b, i + 1, k);
    }
  }

  /** A place past the end counts as a NUL character. */
  function First(s: Text): char {
    At(s, 0)
  }

  lemma Differs(a: Text, i: nat, b: Text, j: nat)
    requires i < |a| && j < |b| && a[i] != b[j] && a[i] != At(b, j + 1) && At(a, i + 1) != b[j]
    ensures Similarity(a, i, b, j) == Add(0, 1, Similarity(a, i + 1, b, j + 1))
  {
  }

  lemma Skips(a: Text, i: nat, b: Text, j: nat)
    requires i + 1 < |a| && j < |b| && a[i] != b[j] && a[i] != At(b, j + 1) && a[i + 1] == b[j]
    ensures Similarity(a, i, b, j) == Add(256, 2, Similarity(a, i + 2, b, j + 1))
  {
  }

  lemma SkippedIn(a: Text, i: nat, b: Text, j: nat)
    requires i < |a| && j + 1 < |b| && a[i] != b[j] && a[i] == b[j + 1]
    ensures Similarity(a, i, b, j) == Add(256, 1, Similarity(a, i + 1, b, j + 2))
  {
  }

  /** One wrong letter: all others count 1024, and the average is over the length. */
  lemma WrongLetter(p: Text, c: char, d: char, s: Text, a: Word, b: Word)
    requires a == p + [c] + s && b == p + [d] + s
    requires c != d && c != First(s) && d != First(s)
    ensures Score(a, b) == 1024 * (|a| - 1) / |a|
  {
    hide Similarity;
    var k := |p|;
    assert a[..k] == p == b[..k];
    SameStart(a, b, 0, k);
    assert a[k + 1..] == s == b[k + 1..];
    assert At(a, k + 1) == First(s) == At(b, k + 1);
    Differs(a, k, b, k);
    SameRest(a, k + 1, b, k + 1);
  }

  /** One letter that the second word has not: it counts 256 together with the next one. */
  lemma MissingLetter(p: Text, c: char, s: Word, a: Word, b: Word)
    requires a == p + [c] + s && b == p + s
    requires c != s[0] && c != At(s, 1)
    ensures Score(a, b) == (1024 * (|a| - 2) + 256) / |a|
  {
    hide Similarity;
    var k := |p|;
    assert a[..k] == p == b[..k];
    SameStart(a, b, 0, k);
    assert a[k] == c && b[k] == s[0] && At(b, k + 1) == At(s, 1) && a[k + 1] == s[0];
    Skips(a, k, b, k);
    assert a[k + 2..] == s[1..] == b[k + 1..];
    SameRest(a, k + 2, b, k + 1);
  }

  /** One letter that only the second word has: the next one counts 256. */
  lemma ExtraLetter(p: Text, d: char, s: Word, a: Word, b: Word)
    requires a == p + s && b == p + [d] + s && d != s[0]
    ensures Score(a, b) == (1024 * (|a| - 1) + 256) / |a|
  {
    hide Similarity;
    var k := |p|;
    assert a[..k] == p == b[..k];
    SameStart(a, b, 0, k);
    SkippedIn(a, k, b, k);
    assert a[k + 1..] == s[1..] == b[k + 2..];
    SameRest(a, k + 1, b, k + 2);
  }

  /** What the first word has beyond the second counts nothing, but it counts for the length. */
  lemma LongerWord(a: Word, b: Text)
    requires b <= a
    ensures Score(a, b) == 1024 * |b| / |a|
  {
    assert a[..|b|] == b == b[..|b|];
    SameStart(a, b, 0, |b|);
  }

  // ---------- two names ----------

  lemma Single(s: Word, w: Word, words: seq<Word>)
    requires words == [w]
    ensures Compared(s, words) == Score(s, w)
  {
    if s == w {
      FullScore(s, w);
    } else {
      assert Scores(s, words, 1) == Scores(s, words, 0) + Score(s, w);
      IsAverage(Scores(s, words, 1), 1);
    }
  }

  /** Two names of one word each are rated by the mean of both directions. */
  lemma RatingOfWords(str1: Text, str2: Text, w1: Word, w2: Word)
    requires WordsOf(str1) == [w1] && WordsOf(str2) == [w2]
    ensures Rating(str1, str2) == (Score(w1, w2) + Score(w2, w1)) / 2
  {
    Single(w1, w2, [w2]);
    Single(w2, w1, [w1]);
    FoundOne(w1, [w2]);
    FoundOne(w2, [w1]);
  }

  lemma FoundOne(w: Word, b: seq<Word>)
    ensures FoundScore([w], b) == Compared(w, b)
  {
    hide Compared;
    assert Found([w], b, 1) == Found([w], b, 0) + Compared(w, b);
    IsAverage(Found([w], b, 1), 1);
  }

  lemma FoundThree(a: seq<Word>, b: seq<Word>)
    requires |a| == 3
    ensures FoundScore(a, b) == (Compared(a[0], b) + Compared(a[1], b) + Compared(a[2], b)) / 3
  {
    hide Compared;
    assert Found(a, b, 1) == Found(a, b, 0) + Compared(a[0], b);
    assert Found(a, b, 2) == Found(a, b, 1) + Compared(a[1], b);
    assert Found(a, b, 3) == Found(a, b, 2) + Compared(a[2], b);
    IsAverage(Found(a, b, 3), 3);
  }

  lemma ComparedThree(s: Word, words: seq<Word>)
    requires |words| == 3 && s !in words
    ensures Compared(s, words) == (Score(s, words[0]) + Score(s, words[1]) + Score(s, words[2])) / 3
  {
    hide Score;
    assert Scores(s, words, 1) == Scores(s, words, 0) + Score(s, words[0]);
    assert Scores(s, words, 2) == Scores(s, words, 1) + Score(s, words[1]);
    assert Scores(s, words, 3) == Scores(s, words, 2) + Score(s, words[2]);
    IsAverage(Scores(s, words, 3), 3);
  }

  /** "FCU" stands for three words; both directions are averages over them. */
  lemma RatingOfUnion(str1: Text, str2: Text, w: Word)
    requires WordsOf(str1) == ["FEDERAL", "CREDIT", "UNION"] && WordsOf(str2) == [w]
    requires w !in WordsOf(str1)
    ensures var ab := (Score("FEDERAL", w) + Score("CREDIT", w) + Score("UNION", w)) / 3;
            var ba := (Score(w, "FEDERAL") + Score(w, "CREDIT") + Score(w, "UNION")) / 3;
            Rating(str1, str2) == (ab + ba) / 2 == Rating(str2, str1)
  {
    hide Score, Compared, FoundScore;
    var a, b := WordsOf(str1), WordsOf(str2);
    FoundThree(a, b);
    Single("FEDERAL", w, b);
    Single("CREDIT", w, b);
    Single("UNION", w, b);
    FoundOne(w, a);
    ComparedThree(w, a);
  }

  // ---------- abbreviations ----------

  lemma LowerTwice(c: char)
    ensures Lower(Lower(c)) == Lower(c)
  {
  }

  lemma SmallKey(str: Text, key: string)
    ensures SameText(LowerAll(str), key) == SameText(str, key)
    ensures SameText(str, key) ==> |str| == |key|
  {
    hide Lower;
    var w := LowerAll(str);
    forall i | 0 <= i < |str| ensures Lower(w[i]) == Lower(str[i]) {
      LowerTwice(str[i]);
    }
  }

  lemma OneKey(str: Text, a: string, b: string)
    requires 0 < |a| && 0 < |b| && Lower(a[0]) != Lower(b[0])
    ensures !SameText(str, a) || !SameText(str, b)
  {
  }

  /** What a name is compared as, whatever the case of its letters. */
  lemma Abbreviations(str: Text, w: Text)
    requires str != "" && w == LowerAll(str)
    ensures SameText(str, "FCU") ==> WordsOf(str) == ["FEDERAL", "CREDIT", "UNION"]
    ensures SameText(str, "1ST") ==> WordsOf(str) == ["FIRST"]
    ensures SameText(str, "TR") ==> WordsOf(str) == ["TRUST"]
    ensures SameText(str, "BK") ==> WordsOf(str) == ["BANK"]
    ensures SameText(str, "CO") ==> WordsOf(str) == ["COMPANY"]
    ensures SameText(str, "CORP") ==> WordsOf(str) == ["CORPORATION"]
    ensures SameText(str, "DEPT") ==> WordsOf(str) == ["DEPARTMENT"]
    ensures SameText(str, "NAT") || SameText(str, "NATL") ==> WordsOf(str) == ["NATIONAL"]
    ensures && !SameText(str, "FCU") && !SameText(str, "1ST") && !SameText(str, "TR") && !SameText(str, "BK")
            && !SameText(str, "CO") && !SameText(str, "CORP") && !SameText(str, "DEPT") && !SameText(str, "NAT")
            && !SameText(str, "NATL")
            ==> WordsOf(str) == [w]
  {
    hide SameText;
    SmallKey(str, "FCU");
    SmallKey(str, "1ST");
    SmallKey(str, "TR");
    SmallKey(str, "BK");
    SmallKey(str, "CO");
    SmallKey(str, "CORP");
    SmallKey(str, "DEPT");
    SmallKey(str, "NAT");
    SmallKey(str, "NATL");
    OneKey(str, "FCU", "1ST");
    OneKey(str, "FCU", "NAT");
    OneKey(str, "1ST", "NAT");
    OneKey(str, "TR", "BK");
    OneKey(str, "TR", "CO");
    OneKey(str, "BK", "CO");
    OneKey(str, "CORP", "DEPT");
    OneKey(str, "CORP", "NATL");
    OneKey(str, "DEPT", "NATL");
  }
}
