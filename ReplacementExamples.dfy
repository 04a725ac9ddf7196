/** The documented examples of `replaceCharacters(characterSet:replacement:)`
    (StringReplacementTests), stated for every class predicate that agrees
    with Foundation's character sets on the scalars involved. Each table
    of the tests is one lemma; each row is proved by a helper, one scalar
    at a time. The whitespace rows are proved once for any replacement `r`
    and serve both whitespace tables. The `UnionRow` helpers take any class
    that agrees with `IsLowercaseClass` on those scalars; the union of the
    punctuation and lower-case predicates is such a class. */
module ReplacementExamples {
  import opened Unicode
  import opened StringReplacement

  /** Removing `.whitespacesAndNewlines` (testEquivalent): every space goes, whatever the length of its run. */
  lemma WhitespaceRemoved(ws: Scalar -> bool)
    requires IsWhitespaceClass(ws)
    ensures ReplaceCharacters("", ws, "") == ""
    ensures ReplaceCharacters(" ", ws, "") == ""
    ensures ReplaceCharacters("         ", ws, "") == ""
    ensures ReplaceCharacters("a", ws, "") == "a"
    ensures ReplaceCharacters("abcd", ws, "") == "abcd"
    ensures ReplaceCharacters(" abcd ", ws, "") == "abcd"
    ensures ReplaceCharacters("abcd ", ws, "") == "abcd"
    ensures ReplaceCharacters(" abcd", ws, "") == "abcd"
    ensures ReplaceCharacters("ab cd", ws, "") == "abcd"
    ensures ReplaceCharacters("ab  1 cd ", ws, "") == "ab1cd"
    ensures ReplaceCharacters("ab            cd ", ws, "") == "abcd"
  {
    WhitespaceRowSpace(ws);
    WhitespaceRowSpaces(ws);
    assert ReplaceCharacters("a", ws, "") == "a" by {
      WhitespaceRowLetter(ws, "");
    }
    assert ReplaceCharacters("abcd", ws, "") == "abcd" by {
      WhitespaceRowWord(ws, "");
    }
    assert ReplaceCharacters(" abcd ", ws, "") == "abcd" by {
      WhitespaceRowBothEnds(ws, "");
      assert "" + "abcd" == "abcd";
      assert "abcd" + "" == "abcd";
    }
    assert ReplaceCharacters("abcd ", ws, "") == "abcd" by {
      WhitespaceRowTrailing(ws, "");
      assert "abcd" + "" == "abcd";
    }
    assert ReplaceCharacters(" abcd", ws, "") == "abcd" by {
      WhitespaceRowLeading(ws, "");
      assert "" + "abcd" == "abcd";
    }
    assert ReplaceCharacters("ab cd", ws, "") == "abcd" by {
      WhitespaceRowInner(ws, "");
      assert "ab" + "" == "ab";
      assert "ab" + "cd" == "abcd";
    }
    assert ReplaceCharacters("ab  1 cd ", ws, "") == "ab1cd" by {
      WhitespaceRowMixed(ws, "");
      assert "ab" + "" == "ab";
      assert "ab" + "" == "ab";
      assert "ab" + "1" == "ab1";
      assert "ab1" + "" == "ab1";
      assert "ab1" + "cd" == "ab1cd";
      assert "ab1cd" + "" == "ab1cd";
    }
    WhitespaceRowGap(ws);
  }

  /** Replacing `.whitespacesAndNewlines` by "X " (testEquivalent2): one copy per space, so two adjacent spaces give two copies. */
  lemma WhitespaceReplaced(ws: Scalar -> bool)
    requires IsWhitespaceClass(ws)
    ensures ReplaceCharacters("", ws, "X ") == ""
    ensures ReplaceCharacters("abcd", ws, "X ") == "abcd"
    ensures ReplaceCharacters(" abcd ", ws, "X ") == "X abcdX "
    ensures ReplaceCharacters("abcd ", ws, "X ") == "abcdX "
    ensures ReplaceCharacters(" abcd", ws, "X ") == "X abcd"
    ensures ReplaceCharacters("ab cd", ws, "X ") == "abX cd"
    ensures ReplaceCharacters("ab  1 cd ", ws, "X ") == "abX X 1X cdX "
  {
    WhitespaceRowWord(ws, "X ");
    WhitespaceRowBothEnds(ws, "X ");
    WhitespaceRowTrailing(ws, "X ");
    WhitespaceRowLeading(ws, "X ");
    WhitespaceRowInner(ws, "X ");
    WhitespaceRowMixed(ws, "X ");
  }

  /** Removing the union of `.punctuationCharacters` and `.lowercaseLetters` (testEquivalent3): digits, spaces and upper-case letters stay. */
  lemma PunctuationOrLowercaseRemoved(p: Scalar -> bool, l: Scalar -> bool)
    requires IsPunctuationClass(p)
    requires IsLowercaseClass(l)
    ensures ReplaceCharacters("", c => p(c) || l(c), "") == ""
    ensures ReplaceCharacters("abcd", c => p(c) || l(c), "") == ""
    ensures ReplaceCharacters(" abcd ", c => p(c) || l(c), "") == "  "
    ensures ReplaceCharacters("abcd ", c => p(c) || l(c), "") == " "
    ensures ReplaceCharacters(" abcd", c => p(c) || l(c), "") == " "
    ensures ReplaceCharacters("ab cd", c => p(c) || l(c), "") == " "
    ensures ReplaceCharacters("ab  1 cd ", c => p(c) || l(c), "") == "  1  "
    ensures ReplaceCharacters("ab  1 ZcdX ", c => p(c) || l(c), "") == "  1 ZX "
  {
    UnionRowWord(c => p(c) || l(c));
    UnionRowBothEnds(c => p(c) || l(c));
    UnionRowTrailing(c => p(c) || l(c));
    UnionRowLeading(c => p(c) || l(c));
    UnionRowInner(c => p(c) || l(c));
    UnionRowMixed(c => p(c) || l(c));
    UnionRowCapitals(c => p(c) || l(c));
  }

  /** "a" has no space, so it comes back unchanged for any `r`. */
  lemma WhitespaceRowLetter(ws: Scalar -> bool, r: string)
    requires IsWhitespaceClass(ws)
    ensures ReplaceCharacters("a", ws, r) == "a"
  {
    Snoc("", 'a', ws, r); assert "" + ['a'] == "a";
  }

  /** "abcd" has no space, so it comes back unchanged for any `r`. */
  lemma WhitespaceRowWord(ws: Scalar -> bool, r: string)
    requires IsWhitespaceClass(ws)
    ensures ReplaceCharacters("abcd", ws, r) == "abcd"
  {
    Snoc("", 'a', ws, r); assert "" + ['a'] == "a";
    Snoc("a", 'b', ws, r); assert "a" + ['b'] == "ab";
    Snoc("ab", 'c', ws, r); assert "ab" + ['c'] == "abc";
    Snoc("abc", 'd', ws, r); assert "abc" + ['d'] == "abcd";
  }

  /** " abcd ": each space becomes one copy of `r`. */
  lemma WhitespaceRowBothEnds(ws: Scalar -> bool, r: string)
    requires IsWhitespaceClass(ws)
    ensures ReplaceCharacters(" abcd ", ws, r) == r + "abcd" + r
  {
    Snoc("", ' ', ws, r); assert "" + [' '] == " ";
    Snoc(" ", 'a', ws, r); assert " " + ['a'] == " a";
    Snoc(" a", 'b', ws, r); assert " a" + ['b'] == " ab";
    Snoc(" ab", 'c', ws, r); assert " ab" + ['c'] == " abc";
    Snoc(" abc", 'd', ws, r); assert " abc" + ['d'] == " abcd";
    Snoc(" abcd", ' ', ws, r); assert " abcd" + [' '] == " abcd ";
  }

  /** "abcd ": each space becomes one copy of `r`. */
  lemma WhitespaceRowTrailing(ws: Scalar -> bool, r: string)
    requires IsWhitespaceClass(ws)
    ensures ReplaceCharacters("abcd ", ws, r) == "abcd" + r
  {
    Snoc("", 'a', ws, r); assert "" + ['a'] == "a";
    Snoc("a", 'b', ws, r); assert "a" + ['b'] == "ab";
    Snoc("ab", 'c', ws, r); assert "ab" + ['c'] == "abc";
    Snoc("abc", 'd', ws, r); assert "abc" + ['d'] == "abcd";
    Snoc("abcd", ' ', ws, r); assert "abcd" + [' '] == "abcd ";
  }

  /** " abcd": each space becomes one copy of `r`. */
  lemma WhitespaceRowLeading(ws: Scalar -> bool, r: string)
    requires IsWhitespaceClass(ws)
    ensures ReplaceCharacters(" abcd", ws, r) == r + "abcd"
  {
    Snoc("", ' ', ws, r); assert "" + [' '] == " ";
    Snoc(" ", 'a', ws, r); assert " " + ['a'] == " a";
    Snoc(" a", 'b', ws, r); assert " a" + ['b'] == " ab";
    Snoc(" ab", 'c', ws, r); assert " ab" + ['c'] == " abc";
    Snoc(" abc", 'd', ws, r); assert " abc" + ['d'] == " abcd";
  }

  /** "ab cd": each space becomes one copy of `r`. */
  lemma WhitespaceRowInner(ws: Scalar -> bool, r: string)
    requires IsWhitespaceClass(ws)
    ensures ReplaceCharacters("ab cd", ws, r) == "ab" + r + "cd"
  {
    Snoc("", 'a', ws, r); assert "" + ['a'] == "a";
    Snoc("a", 'b', ws, r); assert "a" + ['b'] == "ab";
    Snoc("ab", ' ', ws, r); assert "ab" + [' '] == "ab ";
    Snoc("ab ", 'c', ws, r); assert "ab " + ['c'] == "ab c";
    Snoc("ab c", 'd', ws, r); assert "ab c" + ['d'] == "ab cd";
  }

  /** "ab  1 cd ": each space becomes one copy of `r`. */
  lemma WhitespaceRowMixed(ws: Scalar -> bool, r: string)
    requires IsWhitespaceClass(ws)
    ensures ReplaceCharacters("ab  1 cd ", ws, r) == "ab" + r + r + "1" + r + "cd" + r
  {
    Snoc("", 'a', ws, r); assert "" + ['a'] == "a";
    Snoc("a", 'b', ws, r); assert "a" + ['b'] == "ab";
    Snoc("ab", ' ', ws, r); assert "ab" + [' '] == "ab ";
    Snoc("ab ", ' ', ws, r); assert "ab " + [' '] == "ab  ";
    Snoc("ab  ", '1', ws, r); assert "ab  " + ['1'] == "ab  1";
    Snoc("ab  1", ' ', ws, r); assert "ab  1" + [' '] == "ab  1 ";
    Snoc("ab  1 ", 'c', ws, r); assert "ab  1 " + ['c'] == "ab  1 c";
    Snoc("ab  1 c", 'd', ws, r); assert "ab  1 c" + ['d'] == "ab  1 cd";
    Snoc("ab  1 cd", ' ', ws, r); assert "ab  1 cd" + [' '] == "ab  1 cd ";
  }

  /** " " loses its one space. */
  lemma WhitespaceRowSpace(ws: Scalar -> bool)
    requires IsWhitespaceClass(ws)
    ensures ReplaceCharacters(" ", ws, "") == ""
  {
    MemberRunReplacedPerScalar(" ", ws, "");
    RepeatLength("", 1);
  }

  /** Nine spaces disappear. */
  lemma WhitespaceRowSpaces(ws: Scalar -> bool)
    requires IsWhitespaceClass(ws)
    ensures ReplaceCharacters("         ", ws, "") == ""
  {
    MemberRunReplacedPerScalar("         ", ws, "");
    RepeatLength("", 9);
  }

  /** A gap of twelve spaces between "ab" and "cd", and a trailing space, disappear. */
  lemma WhitespaceRowGap(ws: Scalar -> bool)
    requires IsWhitespaceClass(ws)
    ensures ReplaceCharacters("ab            cd ", ws, "") == "abcd"
  {
    WhitespaceRowGapFront(ws);
    Snoc("ab      ", ' ', ws, ""); assert "ab      " + [' '] == "ab       ";
    Snoc("ab       ", ' ', ws, ""); assert "ab       " + [' '] == "ab        ";
    Snoc("ab        ", ' ', ws, ""); assert "ab        " + [' '] == "ab         ";
    Snoc("ab         ", ' ', ws, ""); assert "ab         " + [' '] == "ab          ";
    Snoc("ab          ", ' ', ws, ""); assert "ab          " + [' '] == "ab           ";
    Snoc("ab           ", ' ', ws, ""); assert "ab           " + [' '] == "ab            ";
    Snoc("ab            ", 'c', ws, ""); assert "ab            " + ['c'] == "ab            c";
    Snoc("ab            c", 'd', ws, ""); assert "ab            c" + ['d'] == "ab            cd";
    Snoc("ab            cd", ' ', ws, ""); assert "ab            cd" + [' '] == "ab            cd ";
  }

  /** The first 8 scalars of the row above. */
  lemma WhitespaceRowGapFront(ws: Scalar -> bool)
    requires IsWhitespaceClass(ws)
    ensures ReplaceCharacters("ab      ", ws, "") == "ab"
  {
    Snoc("", 'a', ws, ""); assert "" + ['a'] == "a";
    Snoc("a", 'b', ws, ""); assert "a" + ['b'] == "ab";
    Snoc("ab", ' ', ws, ""); assert "ab" + [' '] == "ab ";
    Snoc("ab ", ' ', ws, ""); assert "ab " + [' '] == "ab  ";
    Snoc("ab  ", ' ', ws, ""); assert "ab  " + [' '] == "ab   ";
    Snoc("ab   ", ' ', ws, ""); assert "ab   " + [' '] == "ab    ";
    Snoc("ab    ", ' ', ws, ""); assert "ab    " + [' '] == "ab     ";
    Snoc("ab     ", ' ', ws, ""); assert "ab     " + [' '] == "ab      ";
  }

  /** "abcd" becomes "". */
  lemma UnionRowWord(u: Scalar -> bool)
    requires IsLowercaseClass(u)
    ensures ReplaceCharacters("abcd", u, "") == ""
  {
    Snoc("", 'a', u, ""); assert "" + ['a'] == "a";
    Snoc("a", 'b', u, ""); assert "a" + ['b'] == "ab";
    Snoc("ab", 'c', u, ""); assert "ab" + ['c'] == "abc";
    Snoc("abc", 'd', u, ""); assert "abc" + ['d'] == "abcd";
  }

  /** " abcd " becomes "  ". */
  lemma UnionRowBothEnds(u: Scalar -> bool)
    requires IsLowercaseClass(u)
    ensures ReplaceCharacters(" abcd ", u, "") == "  "
  {
    Snoc("", ' ', u, ""); assert "" + [' '] == " ";
    Snoc(" ", 'a', u, ""); assert " " + ['a'] == " a";
    Snoc(" a", 'b', u, ""); assert " a" + ['b'] == " ab";
    Snoc(" ab", 'c', u, ""); assert " ab" + ['c'] == " abc";
    Snoc(" abc", 'd', u, ""); assert " abc" + ['d'] == " abcd";
    Snoc(" abcd", ' ', u, ""); assert " abcd" + [' '] == " abcd ";
  }

  /** "abcd " becomes " ". */
  lemma UnionRowTrailing(u: Scalar -> bool)
    requires IsLowercaseClass(u)
    ensures ReplaceCharacters("abcd ", u, "") == " "
  {
    Snoc("", 'a', u, ""); assert "" + ['a'] == "a";
    Snoc("a", 'b', u, ""); assert "a" + ['b'] == "ab";
    Snoc("ab", 'c', u, ""); assert "ab" + ['c'] == "abc";
    Snoc("abc", 'd', u, ""); assert "abc" + ['d'] == "abcd";
    Snoc("abcd", ' ', u, ""); assert "abcd" + [' '] == "abcd ";
  }

  /** " abcd" becomes " ". */
  lemma UnionRowLeading(u: Scalar -> bool)
    requires IsLowercaseClass(u)
    ensures ReplaceCharacters(" abcd", u, "") == " "
  {
    Snoc("", ' ', u, ""); assert "" + [' '] == " ";
    Snoc(" ", 'a', u, ""); assert " " + ['a'] == " a";
    Snoc(" a", 'b', u, ""); assert " a" + ['b'] == " ab";
    Snoc(" ab", 'c', u, ""); assert " ab" + ['c'] == " abc";
    Snoc(" abc", 'd', u, ""); assert " abc" + ['d'] == " abcd";
  }

  /** "ab cd" becomes " ". */
  lemma UnionRowInner(u: Scalar -> bool)
    requires IsLowercaseClass(u)
    ensures ReplaceCharacters("ab cd", u, "") == " "
  {
    Snoc("", 'a', u, ""); assert "" + ['a'] == "a";
    Snoc("a", 'b', u, ""); assert "a" + ['b'] == "ab";
    Snoc("ab", ' ', u, ""); assert "ab" + [' '] == "ab ";
    Snoc("ab ", 'c', u, ""); assert "ab " + ['c'] == "ab c";
    Snoc("ab c", 'd', u, ""); assert "ab c" + ['d'] == "ab cd";
  }

  /** "ab  1 cd " becomes "  1  ". */
  lemma UnionRowMixed(u: Scalar -> bool)
    requires IsLowercaseClass(u)
    ensures ReplaceCharacters("ab  1 cd ", u, "") == "  1  "
  {
    Snoc("", 'a', u, ""); assert "" + ['a'] == "a";
    Snoc("a", 'b', u, ""); assert "a" + ['b'] == "ab";
    Snoc("ab", ' ', u, ""); assert "ab" + [' '] == "ab ";
    Snoc("ab ", ' ', u, ""); assert "ab " + [' '] == "ab  ";
    Snoc("ab  ", '1', u, ""); assert "ab  " + ['1'] == "ab  1";
    Snoc("ab  1", ' ', u, ""); assert "ab  1" + [' '] == "ab  1 ";
    Snoc("ab  1 ", 'c', u, ""); assert "ab  1 " + ['c'] == "ab  1 c";
    Snoc("ab  1 c", 'd', u, ""); assert "ab  1 c" + ['d'] == "ab  1 cd";
    Snoc("ab  1 cd", ' ', u, ""); assert "ab  1 cd" + [' '] == "ab  1 cd ";
  }

  /** "ab  1 ZcdX " becomes "  1 ZX ". */
  lemma UnionRowCapitals(u: Scalar -> bool)
    requires IsLowercaseClass(u)
    ensures ReplaceCharacters("ab  1 ZcdX ", u, "") == "  1 ZX "
  {
    Snoc("", 'a', u, ""); assert "" + ['a'] == "a";
    Snoc("a", 'b', u, ""); assert "a" + ['b'] == "ab";
    Snoc("ab", ' ', u, ""); assert "ab" + [' '] == "ab ";
    Snoc("ab ", ' ', u, ""); assert "ab " + [' '] == "ab  ";
    Snoc("ab  ", '1', u, ""); assert "ab  " + ['1'] == "ab  1";
    Snoc("ab  1", ' ', u, ""); assert "ab  1" + [' '] == "ab  1 ";
    Snoc("ab  1 ", 'Z', u, ""); assert "ab  1 " + ['Z'] == "ab  1 Z";
    Snoc("ab  1 Z", 'c', u, ""); assert "ab  1 Z" + ['c'] == "ab  1 Zc";
    Snoc("ab  1 Zc", 'd', u, ""); assert "ab  1 Zc" + ['d'] == "ab  1 Zcd";
    Snoc("ab  1 Zcd", 'X', u, ""); assert "ab  1 Zcd" + ['X'] == "ab  1 ZcdX";
    Snoc("ab  1 ZcdX", ' ', u, ""); assert "ab  1 ZcdX" + [' '] == "ab  1 ZcdX ";
  }
}
