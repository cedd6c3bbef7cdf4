/** `analyzeText`: word, letter, digit and special-character counts of a text. */
module TextStats {
  import opened Chars
  import opened Strings

  /** The value `analyzeText` returns. */
  datatype Stats = Stats(words: nat, letters: nat, numbers: nat, special: nat)

  /** The length of `text.match(re)` for a one-character class `re`, with
      `|| []` turning "no match" into zero: how many characters satisfy `p`. */
  function CountMatching(s: string, p: char -> bool): (n: nat)
    ensures n <= |s|
    ensures n == 0 <==> forall i :: 0 <= i < |s| ==> !p(s[i])
    ensures n == |s| <==> forall i :: 0 <= i < |s| ==> p(s[i])
    decreases |s|
  {
    if s == [] then 0
    else
      var rest := CountMatching(s[1..], p);
      assert forall i :: 0 < i < |s| ==> s[i] == s[1..][i - 1];
      (if p(s[0]) then 1 else 0) + rest
  }

  /** Counting distributes over concatenation. With the contract above (a
      single character counts 1 exactly when it matches), this fixes the
      count of every text. */
  lemma {:induction false} CountAppend(a: string, b: string, p: char -> bool)
    ensures CountMatching(a + b, p) == CountMatching(a, p) + CountMatching(b, p)
    decreases |a|
  {
    if a == [] {
      assert a + b == b;
    } else {
      assert (a + b)[1..] == a[1..] + b;
      CountAppend(a[1..], b, p);
    }
  }

  /** The word count of `analyzeText`: 0 for a text that trims to nothing,
      otherwise the number of pieces the whitespace split gives for the trimmed text. */
  function WordCount(text: string): (n: nat)
    ensures n == 0 <==> AllWhitespace(text)
  {
    var t := Trim(text);
    if t == [] then 0 else |Split(t)|
  }

  /** `analyzeText`. There are no words exactly when the text is all
      whitespace, and then every count is zero. */
  function Analyze(text: string): (st: Stats)
    ensures st.words == 0 <==> AllWhitespace(text)
    ensures AllWhitespace(text) ==> st == Stats(0, 0, 0, 0)
  {
    Stats(WordCount(text),
          CountMatching(text, IsLetter),
          CountMatching(text, IsDigit),
          CountMatching(text, IsSpecial))
  }

  /* ---------- Character classes ---------- */

  /** Every character is counted by exactly one of the three classes or is
      whitespace, so the three counts and the whitespace count add up to the length. */
  lemma {:induction false} ClassesPartition(text: string)
    ensures CountMatching(text, IsLetter) + CountMatching(text, IsDigit)
          + CountMatching(text, IsSpecial) + CountMatching(text, IsWhitespace) == |text|
    decreases |text|
  {
    if text != [] {
      ClassesPartition(text[1..]);
    }
  }

  /** Whitespace counts as none of the three classes: the three counts add
      up to the length minus the whitespace, so they never exceed the length
      and reach it exactly when the text has no whitespace. */
  lemma ClassesCoverNonWhitespace(text: string)
    ensures Analyze(text).letters + Analyze(text).numbers + Analyze(text).special
            == |text| - CountMatching(text, IsWhitespace)
    ensures Analyze(text).letters + Analyze(text).numbers + Analyze(text).special <= |text|
    ensures Analyze(text).letters + Analyze(text).numbers + Analyze(text).special == |text|
            <==> NoWhitespace(text)
  {
    ClassesPartition(text);
  }

  /* ---------- Words as runs of non-whitespace ---------- */

  /** Reference count of words, independent of trim and split: scanning left
      to right, a word starts at every non-whitespace character that follows
      whitespace or the start of the text (`afterSpace` says which the scan
      has just seen). */
  function RunsFrom(s: string, afterSpace: bool): nat
    decreases |s|
  {
    if s == [] then 0
    else
      (if afterSpace && !IsWhitespace(s[0]) then 1 else 0)
      + RunsFrom(s[1..], IsWhitespace(s[0]))
  }

  /** The number of maximal runs of non-whitespace in `s`. */
  function Runs(s: string): nat {
    RunsFrom(s, true)
  }

  /** The scanner's `afterSpace` flag after reading `a`. */
  function AfterScan(a: string, afterSpace: bool): bool {
    if a == [] then afterSpace else IsWhitespace(a[|a| - 1])
  }

  /** Scanning a concatenation is scanning the parts one after the other. */
  lemma {:induction false} RunsAppend(a: string, b: string, afterSpace: bool)
    ensures RunsFrom(a + b, afterSpace) == RunsFrom(a, afterSpace) + RunsFrom(b, AfterScan(a, afterSpace))
    decreases |a|
  {
    if a != [] {
      assert (a + b)[1..] == a[1..] + b;
      RunsAppend(a[1..], b, IsWhitespace(a[0]));
      assert a[1..] != [] ==> a[1..][|a[1..]| - 1] == a[|a| - 1];
    } else {
      assert a + b == b;
    }
  }

  /** Whitespace starts no word. */
  lemma {:induction false} RunsOfWhitespace(s: string, afterSpace: bool)
    requires AllWhitespace(s)
    ensures RunsFrom(s, afterSpace) == 0
    decreases |s|
  {
    if s != [] {
      RunsOfWhitespace(s[1..], true);
    }
  }

  /** A run of whitespace, however long, leaves the scanner just after a space. */
  lemma RunsAfterWhitespace(w: string, b: string, afterSpace: bool)
    requires w != [] && AllWhitespace(w)
    ensures RunsFrom(w + b, afterSpace) == Runs(b)
  {
    RunsAppend(w, b, afterSpace);
    RunsOfWhitespace(w, afterSpace);
  }

  /** Trimming does not change the number of runs. */
  lemma RunsOfTrim(s: string)
    ensures Runs(Trim(s)) == Runs(s)
  {
    RunsOfTrimStart(s);
    RunsOfTrimEnd(TrimStart(s));
  }

  lemma RunsOfTrimStart(s: string)
    ensures Runs(TrimStart(s)) == Runs(s)
  {
    var t := TrimStart(s);
    var w := s[..|s| - |t|];
    assert s == w + t;
    RunsAppend(w, t, true);
    RunsOfWhitespace(w, true);
  }

  lemma RunsOfTrimEnd(t: string)
    ensures Runs(TrimEnd(t)) == Runs(t)
  {
    var r := TrimEnd(t);
    var w := t[|r|..];
    assert t == r + w;
    RunsAppend(r, w, true);
    RunsOfWhitespace(w, AfterScan(r, true));
  }

  /** The split of a text that ends in non-whitespace has one more piece than
      the text has runs, when the scan starts in the middle of a word. */
  lemma {:induction false} SplitCountsRuns(u: string)
    requires u == [] || !IsWhitespace(u[|u| - 1])
    ensures |Split(u)| == 1 + RunsFrom(u, false)
    decreases |u|
  {
    if u == [] {
    } else if !IsWhitespace(u[0]) {
      var rest := Split(u[1..]);
      assert Split(u) == [[u[0]] + rest[0]] + rest[1..];
      assert u[1..] == [] || u[1..][|u[1..]| - 1] == u[|u| - 1];
      SplitCountsRuns(u[1..]);
    } else {
      var v := TrimStart(u);
      assert Split(u) == [[]] + Split(v);
      assert v != [] && v[|v| - 1] == u[|u| - 1];
      SplitCountsRuns(v);
      RunsAfterWhitespace(u[..|u| - |v|], v, false);
      assert u == u[..|u| - |v|] + v;
      RunsStartingWord(v);
    }
  }

  /** At a non-whitespace character the scan counts one more word when it
      comes straight after whitespace than when it does not. */
  lemma RunsStartingWord(v: string)
    requires v != [] && !IsWhitespace(v[0])
    ensures RunsFrom(v, true) == 1 + RunsFrom(v, false)
  {
  }

  /** The word count of `analyzeText` is the number of maximal runs of
      non-whitespace characters. */
  lemma WordsAreRuns(text: string)
    ensures WordCount(text) == Runs(text)
  {
    var t := Trim(text);
    RunsOfTrim(text);
    if t == [] {
      RunsOfWhitespace(text, true);
    } else {
      SplitCountsRuns(t[1..]);
      assert t[1..] == [] || t[1..][|t[1..]| - 1] == t[|t| - 1];
    }
  }

  /** Leading and trailing whitespace do not change the word count. */
  lemma WordsIgnorePadding(lead: string, text: string, trail: string)
    requires AllWhitespace(lead) && AllWhitespace(trail)
    ensures WordCount(lead + text + trail) == WordCount(text)
  {
    WordsAreRuns(lead + text + trail);
    WordsAreRuns(text);
    RunsIgnorePadding(lead, text, trail);
  }

  lemma RunsIgnorePadding(lead: string, text: string, trail: string)
    requires AllWhitespace(lead) && AllWhitespace(trail)
    ensures Runs(lead + text + trail) == Runs(text)
  {
    RunsAppend(lead, text + trail, true);
    RunsOfWhitespace(lead, true);
    assert lead + text + trail == lead + (text + trail);
    RunsAppend(text, trail, true);
    RunsOfWhitespace(trail, AfterScan(text, true));
  }

  /** Any non-empty run of whitespace separates words like any other. */
  lemma WordsCollapseSpaces(a: string, w1: string, w2: string, b: string)
    requires w1 != [] && AllWhitespace(w1)
    requires w2 != [] && AllWhitespace(w2)
    ensures WordCount(a + w1 + b) == WordCount(a + w2 + b)
  {
    var s1, s2 := a + w1 + b, a + w2 + b;
    WordsAreRuns(s1);
    WordsAreRuns(s2);
    RunsAroundWhitespace(a, w1, b);
    RunsAroundWhitespace(a, w2, b);
  }

  /** The runs on both sides of a whitespace separator add up. */
  lemma RunsAroundWhitespace(a: string, w: string, b: string)
    requires w != [] && AllWhitespace(w)
    ensures Runs(a + w + b) == Runs(a) + Runs(b)
  {
    assert a + w + b == a + (w + b);
    RunsAppend(a, w + b, true);
    RunsAfterWhitespace(w, b, AfterScan(a, true));
  }

  /** Every word holds at least one non-whitespace character. */
  lemma {:induction false} RunsAtMostNonWhitespace(s: string, afterSpace: bool)
    ensures RunsFrom(s, afterSpace) <= |s| - CountMatching(s, IsWhitespace)
    decreases |s|
  {
    if s != [] {
      RunsAtMostNonWhitespace(s[1..], IsWhitespace(s[0]));
    }
  }

  /** There are no more words than non-whitespace characters, and there is a
      word exactly when some character is not whitespace. */
  lemma WordsBound(text: string)
    ensures WordCount(text) <= |text| - CountMatching(text, IsWhitespace)
    ensures WordCount(text) > 0 <==> exists i :: 0 <= i < |text| && !IsWhitespace(text[i])
  {
    WordsAreRuns(text);
    RunsAtMostNonWhitespace(text, true);
  }

  /* ---------- Worked examples ---------- */

  lemma AnalyzeEmpty()
    ensures Analyze("") == Stats(0, 0, 0, 0)
  {
  }

  lemma AnalyzeMixed()
    ensures Analyze("abc123!@#") == Stats(1, 3, 3, 3)
  {
    WordsOfMixed();
    ClassesOfMixed();
  }

  lemma WordsOfMixed()
    ensures WordCount("abc123!@#") == 1
  {
    assert NoWhitespace("abc123!@#");
    WordsOfUnspaced("abc123!@#");
  }

  /** A non-empty text without whitespace is one word. */
  lemma WordsOfUnspaced(t: string)
    requires t != [] && NoWhitespace(t)
    ensures WordCount(t) == 1
  {
    TrimPadded([], t, []);
    assert [] + t + [] == t;
    SplitPieces(t);
  }

  lemma ClassesOfMixed()
    ensures CountMatching("abc123!@#", IsLetter) == 3
    ensures CountMatching("abc123!@#", IsDigit) == 3
    ensures CountMatching("abc123!@#", IsSpecial) == 3
  {
    LettersOfMixed();
    DigitsOfMixed();
    SpecialsOfMixed();
  }

  lemma LettersOfMixed()
    ensures CountMatching("abc123!@#", IsLetter) == 3
  {
  }

  lemma DigitsOfMixed()
    ensures CountMatching("abc123!@#", IsDigit) == 3
  {
  }

  lemma SpecialsOfMixed()
    ensures CountMatching("abc123!@#", IsSpecial) == 3
  {
    assert !IsSpecial('a') && !IsSpecial('b') && !IsSpecial('c');
    assert !IsSpecial('1') && !IsSpecial('2') && !IsSpecial('3');
    assert IsSpecial('!') && IsSpecial('@') && IsSpecial('#');
  }

  lemma RunsOfTwoWords()
    ensures Runs("hello   world") == 2
  {
    assert Runs("hello") == 1 && Runs("world") == 1;
    assert "hello   world" == "hello" + "   " + "world";
    RunsAroundWhitespace("hello", "   ", "world");
  }

  lemma WordsOfTwoWords()
    ensures WordCount("hello   world") == 2
  {
    RunsOfTwoWords();
    WordsAreRuns("hello   world");
  }

  lemma WordsOfPaddedTwoWords()
    ensures WordCount("  hello   world  ") == WordCount("hello   world")
  {
    assert "  hello   world  " == "  " + "hello   world" + "  ";
    WordsIgnorePadding("  ", "hello   world", "  ");
  }

  lemma WordsOfPaddedText()
    ensures WordCount("  hello   world  ") == 2
  {
    WordsOfTwoWords();
    WordsOfPaddedTwoWords();
  }

  lemma ClassesOfSpacedLetters()
    ensures Analyze("a b c").letters + Analyze("a b c").numbers + Analyze("a b c").special == 3
  {
    ClassesCoverNonWhitespace("a b c");
    SpacesOfSpacedLetters();
  }

  lemma SpacesOfSpacedLetters()
    ensures CountMatching("a b c", IsWhitespace) == 2
  {
    assert !IsWhitespace('a') && !IsWhitespace('b') && !IsWhitespace('c') && IsWhitespace(' ');
  }
}
