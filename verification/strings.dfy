/** The two string built-ins the text statistics rely on:
    `String.prototype.trim` and `String.prototype.split(/\s+/)`, both over
    the whitespace of the `Chars` module. */
module Strings {
  import opened Chars

  predicate AllWhitespace(s: string) {
    forall i :: 0 <= i < |s| ==> IsWhitespace(s[i])
  }

  predicate NoWhitespace(s: string) {
    forall i :: 0 <= i < |s| ==> !IsWhitespace(s[i])
  }

  /** Removes leading whitespace: the result is the longest suffix of `s`
      that does not start with whitespace, and what it drops is all whitespace. */
  function TrimStart(s: string): (r: string)
    ensures |r| <= |s| && r == s[|s| - |r|..]
    ensures AllWhitespace(s[..|s| - |r|])
    ensures r == [] || !IsWhitespace(r[0])
    decreases |s|
  {
    if s != [] && IsWhitespace(s[0]) then
      var r := TrimStart(s[1..]);
      assert s[..|s| - |r|] == [s[0]] + s[1..][..|s| - 1 - |r|];
      r
    else
      s
  }

  /** Removes trailing whitespace: the result is the longest prefix of `s`
      that does not end with whitespace, and what it drops is all whitespace. */
  function TrimEnd(s: string): (r: string)
    ensures |r| <= |s| && r == s[..|r|]
    ensures AllWhitespace(s[|r|..])
    ensures r == [] || !IsWhitespace(r[|r| - 1])
    decreases |s|
  {
    if s != [] && IsWhitespace(s[|s| - 1]) then
      var r := TrimEnd(s[..|s| - 1]);
      assert s[|r|..] == s[..|s| - 1][|r|..] + [s[|s| - 1]];
      r
    else
      s
  }

  /** `String.prototype.trim`: the result is empty exactly when `s` is all
      whitespace, and otherwise neither starts nor ends with whitespace. */
  function Trim(s: string): (r: string)
    ensures |r| <= |s|
    ensures r == [] <==> AllWhitespace(s)
    ensures r != [] ==> !IsWhitespace(r[0]) && !IsWhitespace(r[|r| - 1])
  {
    TrimEnd(TrimStart(s))
  }

  /** Leading whitespace in front of a text that starts otherwise is exactly
      what `TrimStart` removes. */
  lemma {:induction false} TrimStartPadded(lead: string, t: string)
    requires AllWhitespace(lead)
    requires t == [] || !IsWhitespace(t[0])
    ensures TrimStart(lead + t) == t
    decreases |lead|
  {
    if lead == [] {
      assert lead + t == t;
    } else {
      assert (lead + t)[1..] == lead[1..] + t;
      TrimStartPadded(lead[1..], t);
    }
  }

  /** Trailing whitespace behind a text that ends otherwise is exactly what
      `TrimEnd` removes. */
  lemma {:induction false} TrimEndPadded(t: string, trail: string)
    requires AllWhitespace(trail)
    requires t == [] || !IsWhitespace(t[|t| - 1])
    ensures TrimEnd(t + trail) == t
    decreases |trail|
  {
    if trail == [] {
      assert t + trail == t;
    } else {
      var s := t + trail;
      assert s[..|s| - 1] == t + trail[..|trail| - 1];
      TrimEndPadded(t, trail[..|trail| - 1]);
    }
  }

  /** `trim` removes exactly the surrounding whitespace: padding a text that
      neither starts nor ends with whitespace and trimming gives it back. */
  lemma TrimPadded(lead: string, t: string, trail: string)
    requires AllWhitespace(lead) && AllWhitespace(trail)
    requires t == [] || (!IsWhitespace(t[0]) && !IsWhitespace(t[|t| - 1]))
    ensures Trim(lead + t + trail) == t
  {
    if t == [] {
      assert lead + t + trail == lead + trail;
      assert AllWhitespace(lead + trail);
    } else {
      assert lead + t + trail == lead + (t + trail);
      TrimStartPadded(lead, t + trail);
      TrimEndPadded(t, trail);
    }
  }

  /** `s.split(/\s+/)`: the pieces between maximal runs of whitespace. A
      leading run yields an empty first piece, a trailing run an empty last
      piece, and the empty string splits into one empty piece. */
  function Split(s: string): (r: seq<string>)
    ensures |r| >= 1
    decreases |s|
  {
    if s == [] then
      [[]]
    else if IsWhitespace(s[0]) then
      [[]] + Split(TrimStart(s))
    else
      var rest := Split(s[1..]);
      [[s[0]] + rest[0]] + rest[1..]
  }

  /** The shape of the pieces `split(/\s+/)` returns for `s`. */
  predicate SplitShape(s: string, r: seq<string>) {
    && |r| >= 1
    && (|r| == 1 <==> NoWhitespace(s))
    && (forall i :: 0 <= i < |r| ==> NoWhitespace(r[i]))
    && (r[0] == [] <==> (s == [] || IsWhitespace(s[0])))
    && (r[|r| - 1] == [] <==> (s == [] || IsWhitespace(s[|s| - 1])))
    && (forall i :: 0 < i < |r| - 1 ==> r[i] != [])
  }

  /** `split(/\s+/)` gives one piece exactly when there is no whitespace; no
      piece holds whitespace; the first (last) piece is empty exactly when the
      text starts (ends) with whitespace or is empty; inner pieces are never empty. */
  lemma {:induction false} SplitPieces(s: string)
    ensures SplitShape(s, Split(s))
    decreases |s|
  {
    if s == [] {
    } else if IsWhitespace(s[0]) {
      SplitPieces(TrimStart(s));
      SplitPiecesOfSpace(s);
    } else {
      SplitPieces(s[1..]);
      SplitPiecesOfWord(s);
    }
  }

  /** The step of `SplitPieces` for a text starting with whitespace. */
  lemma SplitPiecesOfSpace(s: string)
    requires s != [] && IsWhitespace(s[0])
    requires SplitShape(TrimStart(s), Split(TrimStart(s)))
    ensures SplitShape(s, Split(s))
  {
    var v := TrimStart(s);
    assert Split(s) == [[]] + Split(v);
    assert v != s;
    ShapeOfSpaceStep(s, v, Split(v));
  }

  /** An empty first piece in front of the pieces of a proper suffix `v`
      that does not start with whitespace keeps the shape. */
  lemma ShapeOfSpaceStep(s: string, v: string, rest: seq<string>)
    requires s != [] && IsWhitespace(s[0])
    requires |v| < |s| && v == s[|s| - |v|..]
    requires AllWhitespace(s[..|s| - |v|])
    requires v == [] || !IsWhitespace(v[0])
    requires SplitShape(v, rest)
    ensures SplitShape(s, [[]] + rest)
  {
    var r := [[]] + rest;
    assert |r| == |rest| + 1 && r[0] == [];
    assert !NoWhitespace(s);
    forall i | 0 < i < |r| ensures r[i] == rest[i - 1] {
    }
    if v == [] {
      assert |rest| == 1;
      assert r[|r| - 1] == [];
      assert s[..|s|] == s;
    } else {
      assert rest[0] != [];
      assert v[|v| - 1] == s[|s| - 1];
      assert r[|r| - 1] == rest[|rest| - 1];
    }
  }

  /** The step of `SplitPieces` for a text starting with a non-whitespace character. */
  lemma SplitPiecesOfWord(s: string)
    requires s != [] && !IsWhitespace(s[0])
    requires SplitShape(s[1..], Split(s[1..]))
    ensures SplitShape(s, Split(s))
  {
    var rest := Split(s[1..]);
    assert Split(s) == [[s[0]] + rest[0]] + rest[1..];
    ShapeOfWordStep(s, rest);
  }

  /** Putting a non-whitespace character in front of the first piece keeps the shape. */
  lemma ShapeOfWordStep(s: string, rest: seq<string>)
    requires s != [] && !IsWhitespace(s[0])
    requires SplitShape(s[1..], rest)
    ensures SplitShape(s, [[s[0]] + rest[0]] + rest[1..])
  {
    var t := s[1..];
    var first := [s[0]] + rest[0];
    var r := [first] + rest[1..];
    assert |r| == |rest| && r[0] == first;
    NoWhitespaceCons(s);
    NoWhitespaceCons(first);
    assert first[1..] == rest[0];
    forall i | 0 < i < |r| ensures r[i] == rest[i] {
    }
    if |r| > 1 {
      assert t[|t| - 1] == s[|s| - 1];
    } else {
      assert NoWhitespace(s);
      assert !IsWhitespace(s[|s| - 1]);
    }
  }

  /** A text that starts with a non-whitespace character is free of
      whitespace exactly when the rest of it is. */
  lemma NoWhitespaceCons(s: string)
    requires s != [] && !IsWhitespace(s[0])
    ensures NoWhitespace(s) <==> NoWhitespace(s[1..])
  {
    if NoWhitespace(s[1..]) {
      forall i | 0 <= i < |s| ensures !IsWhitespace(s[i]) {
        if i > 0 { assert s[i] == s[1..][i - 1]; }
      }
    }
  }

  /** The characters of `s` that are not whitespace, in order. */
  function NonWhitespace(s: string): string
    decreases |s|
  {
    if s == [] then []
    else (if IsWhitespace(s[0]) then [] else [s[0]]) + NonWhitespace(s[1..])
  }

  /** The pieces written one after the other. */
  function Concat(pieces: seq<string>): string
    decreases |pieces|
  {
    if pieces == [] then [] else pieces[0] + Concat(pieces[1..])
  }

  lemma {:induction false} NonWhitespaceAppend(a: string, b: string)
    ensures NonWhitespace(a + b) == NonWhitespace(a) + NonWhitespace(b)
    decreases |a|
  {
    if a == [] {
      assert a + b == b;
    } else {
      assert (a + b)[1..] == a[1..] + b;
      NonWhitespaceAppend(a[1..], b);
    }
  }

  lemma {:induction false} NonWhitespaceOfWhitespace(w: string)
    requires AllWhitespace(w)
    ensures NonWhitespace(w) == []
    decreases |w|
  {
    if w != [] {
      NonWhitespaceOfWhitespace(w[1..]);
    }
  }

  lemma ConcatCons(piece: string, pieces: seq<string>)
    ensures Concat([piece] + pieces) == piece + Concat(pieces)
  {
    assert ([piece] + pieces)[1..] == pieces;
  }

  /** Splitting loses exactly the whitespace: the pieces, put back together,
      are the non-whitespace characters of the text in their original order. */
  lemma {:induction false} SplitKeepsNonWhitespace(s: string)
    ensures Concat(Split(s)) == NonWhitespace(s)
    decreases |s|
  {
    if s == [] {
    } else if IsWhitespace(s[0]) {
      var v := TrimStart(s);
      SplitKeepsNonWhitespace(v);
      assert Split(s) == [[]] + Split(v);
      KeepsOfSpaceStep(s, v, Split(v));
    } else {
      var rest := Split(s[1..]);
      SplitKeepsNonWhitespace(s[1..]);
      assert Split(s) == [[s[0]] + rest[0]] + rest[1..];
      KeepsOfWordStep(s, rest);
    }
  }

  /** An empty first piece in front of the pieces of a suffix reached by
      dropping only whitespace keeps the non-whitespace characters. */
  lemma KeepsOfSpaceStep(s: string, v: string, rest: seq<string>)
    requires |v| <= |s| && v == s[|s| - |v|..]
    requires AllWhitespace(s[..|s| - |v|])
    requires Concat(rest) == NonWhitespace(v)
    ensures Concat([[]] + rest) == NonWhitespace(s)
  {
    var w := s[..|s| - |v|];
    assert s == w + v;
    NonWhitespaceAppend(w, v);
    NonWhitespaceOfWhitespace(w);
    ConcatCons([], rest);
  }

  /** Putting a non-whitespace character in front of the first piece puts it
      in front of the non-whitespace characters. */
  lemma KeepsOfWordStep(s: string, rest: seq<string>)
    requires s != [] && !IsWhitespace(s[0])
    requires |rest| >= 1
    requires Concat(rest) == NonWhitespace(s[1..])
    ensures Concat([[s[0]] + rest[0]] + rest[1..]) == NonWhitespace(s)
  {
    var first := rest[0];
    var tail := Concat(rest[1..]);
    calc {
      Concat([[s[0]] + first] + rest[1..]);
      { ConcatCons([s[0]] + first, rest[1..]); }
      ([s[0]] + first) + tail;
      [s[0]] + (first + tail);
      { ConcatCons(first, rest[1..]); assert rest == [first] + rest[1..]; }
      [s[0]] + Concat(rest);
      [s[0]] + NonWhitespace(s[1..]);
      NonWhitespace(s);
    }
  }

  /** What `split` does, piece by piece: the first piece is the longest
      prefix free of whitespace; either it is the whole text and the only
      piece, or a whitespace run follows it and the remaining pieces are the
      split of what comes after that run. */
  predicate SplitsAtFirstRun(s: string) {
    var r := Split(s);
    var k := |r[0]|;
    && k <= |s|
    && r[0] == s[..k]
    && ((k == |s| && |r| == 1) || (k < |s| && IsWhitespace(s[k]) && r[1..] == Split(TrimStart(s[k..]))))
  }

  /** `split` cuts every text at its first whitespace run. */
  lemma {:induction false} SplitFirstPiece(s: string)
    ensures SplitsAtFirstRun(s)
    decreases |s|
  {
    if s == [] {
    } else if IsWhitespace(s[0]) {
      assert Split(s) == [[]] + Split(TrimStart(s));
      assert s[0..] == s;
    } else {
      SplitFirstPiece(s[1..]);
      SplitFirstPieceOfWord(s);
    }
  }

  /** The step of `SplitFirstPiece` for a text starting with a non-whitespace character. */
  lemma SplitFirstPieceOfWord(s: string)
    requires s != [] && !IsWhitespace(s[0])
    requires SplitsAtFirstRun(s[1..])
    ensures SplitsAtFirstRun(s)
  {
    var t := s[1..];
    var rest := Split(t);
    var k := |rest[0]|;
    assert Split(s) == [[s[0]] + rest[0]] + rest[1..];
    FirstPieceOfWordStep(s, rest);
    if k < |t| {
      assert t[k..] == s[k + 1..];
    }
  }

  /** Putting a non-whitespace character in front of a first piece that runs
      up to the first whitespace of `s[1..]` gives one that runs up to the
      first whitespace of `s`. */
  lemma FirstPieceOfWordStep(s: string, rest: seq<string>)
    requires s != [] && !IsWhitespace(s[0]) && |rest| >= 1
    requires |rest[0]| <= |s| - 1 && rest[0] == s[1..][..|rest[0]|]
    requires || (|rest[0]| == |s| - 1 && |rest| == 1)
             || (|rest[0]| < |s| - 1 && IsWhitespace(s[1..][|rest[0]|]))
    ensures var r := [[s[0]] + rest[0]] + rest[1..];
      && |r| == |rest| && |r[0]| == |rest[0]| + 1 && r[0] == s[..|r[0]|]
      && r[1..] == rest[1..]
      && (|rest[0]| == |s| - 1 || IsWhitespace(s[|r[0]|]))
  {
    var k := |rest[0]|;
    var r := [[s[0]] + rest[0]] + rest[1..];
    assert s[..k + 1] == [s[0]] + s[1..][..k];
    if k < |s| - 1 {
      assert s[1..][k] == s[k + 1];
    }
  }
}
