/** `StringSanitizer(_:)` of SignalCoreKit: a defence against "zalgo" text.
    Every grapheme cluster that carries more combining marks than a fixed
    threshold is replaced by one U+FFFD; every other cluster is kept as it
    is. The sanitizer computes `needsSanitization` and `sanitized` once,
    when it is constructed, and afterwards only hands them out, so it is a
    value here.

    Two things the implementation takes from the platform are parameters:
    `isMark`, the Unicode general-category test "is a combining mark", and
    `T`, the threshold constant, of which only bounds are known. */
module StringSanitizer {
  import opened Unicode

  /** The threshold: the largest number of combining marks a cluster may
      carry and still be kept. One mark on a letter is ordinary text, so
      the threshold is at least 1. */
  type Threshold = t: nat | 1 <= t witness 1

  /** The number of combining marks among the scalars of `c`. */
  function MarkCount(isMark: Scalar -> bool, c: Cluster): (n: nat)
    ensures n <= |c|
  {
    if c == [] then 0
    else (if isMark(c[0]) then 1 else 0) + MarkCount(isMark, c[1..])
  }

  /** The count is zero exactly when no scalar is a mark, and the full
      length exactly when every scalar is. */
  lemma {:induction false} MarkCountExtremes(isMark: Scalar -> bool, c: Cluster)
    ensures MarkCount(isMark, c) == 0 <==> forall i :: 0 <= i < |c| ==> !isMark(c[i])
    ensures MarkCount(isMark, c) == |c| <==> forall i :: 0 <= i < |c| ==> isMark(c[i])
  {
    if c != [] {
      MarkCountExtremes(isMark, c[1..]);
      assert forall i :: 1 <= i < |c| ==> c[i] == c[1..][i - 1];
    }
  }

  /** A cluster is excessive when its marks exceed the threshold. */
  predicate IsExcessive(isMark: Scalar -> bool, T: Threshold, c: Cluster): (b: bool)
    ensures b ==> |c| > T >= 1
    ensures |c| <= 1 ==> !b
  {
    MarkCount(isMark, c) > T
  }

  /** The sanitized clusters: one output cluster per input cluster, in the
      same order; an excessive cluster becomes exactly one U+FFFD and every
      other cluster is passed through untouched. */
  function SanitizeClusters(isMark: Scalar -> bool, T: Threshold, s: seq<Cluster>): (r: seq<Cluster>)
    ensures |r| == |s|
    ensures forall i :: 0 <= i < |s| && IsExcessive(isMark, T, s[i]) ==> r[i] == [ReplacementCharacter]
    ensures forall i :: 0 <= i < |s| && !IsExcessive(isMark, T, s[i]) ==> r[i] == s[i]
  {
    if s == [] then []
    else
      [if IsExcessive(isMark, T, s[0]) then [ReplacementCharacter] else s[0]]
        + SanitizeClusters(isMark, T, s[1..])
  }

  /** `needsSanitization`: some cluster of the input is excessive. */
  function NeedsSanitization(isMark: Scalar -> bool, T: Threshold, s: seq<Cluster>): (b: bool)
    ensures b <==> exists i :: 0 <= i < |s| && IsExcessive(isMark, T, s[i])
  {
    s != [] && (IsExcessive(isMark, T, s[0]) || NeedsSanitization(isMark, T, s[1..]))
  }

  /** The two results a `StringSanitizer` exposes. */
  datatype Sanitizer = Sanitizer(needsSanitization: bool, sanitized: string)

  /** `StringSanitizer(string)` for the string whose clusters are `input`:
      the flag says whether some cluster is excessive, and it is false
      exactly when the sanitized string equals the input string; when it is
      true the sanitized string is strictly shorter. */
  function New(isMark: Scalar -> bool, T: Threshold, input: seq<Cluster>): (r: Sanitizer)
    ensures r.needsSanitization <==> exists i :: 0 <= i < |input| && IsExcessive(isMark, T, input[i])
    ensures !r.needsSanitization <==> r.sanitized == Flatten(input)
    ensures r.needsSanitization ==> |r.sanitized| < |Flatten(input)|
    ensures |r.sanitized| <= |Flatten(input)|
  {
    SanitizedLength(isMark, T, input);
    Sanitizer(NeedsSanitization(isMark, T, input), Flatten(SanitizeClusters(isMark, T, input)))
  }

  /** Sanitizing never lengthens the text, and it strictly shortens it
      whenever some cluster was replaced (an excessive cluster has at least
      two scalars and becomes one). */
  lemma {:induction false} SanitizedLength(isMark: Scalar -> bool, T: Threshold, s: seq<Cluster>)
    ensures |Flatten(SanitizeClusters(isMark, T, s))| <= |Flatten(s)|
    ensures NeedsSanitization(isMark, T, s) ==> |Flatten(SanitizeClusters(isMark, T, s))| < |Flatten(s)|
    ensures !NeedsSanitization(isMark, T, s) ==> SanitizeClusters(isMark, T, s) == s
  {
    if s != [] {
      SanitizedLength(isMark, T, s[1..]);
      var r := SanitizeClusters(isMark, T, s);
      assert r == [r[0]] + SanitizeClusters(isMark, T, s[1..]);
      assert Flatten(r) == r[0] + Flatten(SanitizeClusters(isMark, T, s[1..]));
      assert Flatten(s) == s[0] + Flatten(s[1..]);
    }
  }

  /** The flag is true exactly when the sanitized clusters differ from the
      input clusters. */
  lemma NeedsSanitizationIffChanged(isMark: Scalar -> bool, T: Threshold, s: seq<Cluster>)
    ensures NeedsSanitization(isMark, T, s) <==> SanitizeClusters(isMark, T, s) != s
  {
    SanitizedLength(isMark, T, s);
  }

  /** The empty string needs no sanitizing and sanitizes to "". */
  lemma EmptyInput(isMark: Scalar -> bool, T: Threshold)
    ensures New(isMark, T, []) == Sanitizer(false, "")
  {
  }

  /** A string of one excessive cluster sanitizes to exactly one U+FFFD. */
  lemma SingleExcessiveCluster(isMark: Scalar -> bool, T: Threshold, c: Cluster)
    requires IsExcessive(isMark, T, c)
    ensures New(isMark, T, [c]) == Sanitizer(true, [ReplacementCharacter])
  {
    var r := SanitizeClusters(isMark, T, [c]);
    assert r == [[ReplacementCharacter]];
    assert r[1..] == [];
    assert Flatten(r) == [ReplacementCharacter] + Flatten([]);
  }

  /** Sanitizing works cluster by cluster: sanitizing a concatenation is
      the concatenation of the sanitized parts. */
  lemma {:induction false} SanitizeAppend(isMark: Scalar -> bool, T: Threshold, a: seq<Cluster>, b: seq<Cluster>)
    ensures SanitizeClusters(isMark, T, a + b) == SanitizeClusters(isMark, T, a) + SanitizeClusters(isMark, T, b)
    ensures NeedsSanitization(isMark, T, a + b) == (NeedsSanitization(isMark, T, a) || NeedsSanitization(isMark, T, b))
  {
    if a == [] {
      assert a + b == b;
    } else {
      assert (a + b)[1..] == a[1..] + b;
      SanitizeAppend(isMark, T, a[1..], b);
    }
  }

  /** The same law for whole strings: the sanitizer of a concatenation
      yields the concatenation of the sanitized strings, and its flag is
      set when either part's is. */
  lemma NewAppend(isMark: Scalar -> bool, T: Threshold, a: seq<Cluster>, b: seq<Cluster>)
    ensures New(isMark, T, a + b).sanitized == New(isMark, T, a).sanitized + New(isMark, T, b).sanitized
    ensures New(isMark, T, a + b).needsSanitization
         == (New(isMark, T, a).needsSanitization || New(isMark, T, b).needsSanitization)
  {
    SanitizeAppend(isMark, T, a, b);
    FlattenAppend(SanitizeClusters(isMark, T, a), SanitizeClusters(isMark, T, b));
  }

  /** N excessive clusters in a row give N replacement characters, not one. */
  lemma {:induction false} AllExcessive(isMark: Scalar -> bool, T: Threshold, s: seq<Cluster>)
    requires forall i :: 0 <= i < |s| ==> IsExcessive(isMark, T, s[i])
    ensures New(isMark, T, s) == Sanitizer(s != [], seq(|s|, _ => ReplacementCharacter))
  {
    if s != [] {
      AllExcessive(isMark, T, s[1..]);
      assert SanitizeClusters(isMark, T, s) == [[ReplacementCharacter]] + SanitizeClusters(isMark, T, s[1..]);
      assert seq(|s|, _ => ReplacementCharacter) == [ReplacementCharacter] + seq(|s| - 1, _ => ReplacementCharacter);
    }
  }

  /** Sanitizing is idempotent: a U+FFFD cluster has a single scalar, hence
      at most one mark, so it is never excessive itself. */
  lemma SanitizeIdempotent(isMark: Scalar -> bool, T: Threshold, s: seq<Cluster>)
    ensures SanitizeClusters(isMark, T, SanitizeClusters(isMark, T, s)) == SanitizeClusters(isMark, T, s)
    ensures !NeedsSanitization(isMark, T, SanitizeClusters(isMark, T, s))
  {
    var r := SanitizeClusters(isMark, T, s);
    forall i | 0 <= i < |r|
      ensures !IsExcessive(isMark, T, r[i])
    {
      if IsExcessive(isMark, T, s[i]) {
        assert |r[i]| == 1;
      }
    }
    SanitizedLength(isMark, T, r);
  }
}
