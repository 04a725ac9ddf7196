/** The sanitizer's documented examples (StringSanitizerTests), stated for
    every combining-mark predicate that agrees with the Unicode Character
    Database on the scalars involved and every threshold the examples
    admit. */
module SanitizerExamples {
  import opened Unicode
  import opened StringSanitizer

  /** "x" carrying a stack of 26 combining marks, all from the Combining
      Diacritical Marks block: one grapheme cluster. */
  const Zalgo: Cluster := "x\U{0338}\U{0306}\U{0344}\U{031B}\U{0306}\U{033F}\U{0344}\U{031A}\U{0305}\U{033D}\U{0346}\U{035D}\U{0344}\U{033F}\U{0314}\U{034C}\U{0319}\U{031D}\U{0322}\U{0348}\U{0348}\U{0316}\U{0327}\U{0333}\U{0317}\U{0330}"

  /** KISS: WOMAN, WOMAN with dark and light skin tones: ten scalars joined
      by ZERO WIDTH JOINERs, one grapheme cluster, one mark (U+FE0F). */
  const KissEmoji: Cluster := "\U{1F469}\U{1F3FF}\U{200D}\U{2764}\U{FE0F}\U{200D}\U{1F48B}\U{200D}\U{1F469}\U{1F3FB}"

  /** The zalgo cluster is excessive for every threshold below 26. */
  lemma ZalgoIsExcessive(isMark: Scalar -> bool, T: Threshold)
    requires KnownMarkCategories(isMark)
    requires T < 26
    ensures MarkCount(isMark, Zalgo) == 26
    ensures IsExcessive(isMark, T, Zalgo)
  {
    var marks := Zalgo[1..];
    forall i | 0 <= i < |marks|
      ensures '\U{0300}' <= marks[i] <= '\U{036F}'
    {
    }
    MarkCountExtremes(isMark, marks);
  }

  /** The multi-scalar emoji carries a single mark, so no threshold makes
      it excessive. */
  lemma EmojiIsSafe(isMark: Scalar -> bool, T: Threshold)
    requires KnownMarkCategories(isMark)
    ensures MarkCount(isMark, KissEmoji) == 1
    ensures !IsExcessive(isMark, T, KissEmoji)
  {
    assert KissEmoji[5..] == "\U{200D}\U{1F48B}\U{200D}\U{1F469}\U{1F3FB}";
    MarkCountExtremes(isMark, KissEmoji[5..]);
  }

  /** "abc" is left alone. */
  lemma Ascii(isMark: Scalar -> bool, T: Threshold)
    ensures New(isMark, T, ["a", "b", "c"]) == Sanitizer(false, "abc")
  {
    assert Flatten(["a", "b", "c"]) == "abc";
  }

  /** "abx̧c": a letter with one combining cedilla is left alone. */
  lemma OneCombiningMark(isMark: Scalar -> bool, T: Threshold)
    requires KnownMarkCategories(isMark)
    ensures New(isMark, T, ["a", "b", "x\U{0327}", "c"]) == Sanitizer(false, "abx\U{0327}c")
  {
    assert MarkCount(isMark, "x\U{0327}") == 1;
    assert Flatten(["a", "b", "x\U{0327}", "c"]) == "abx\U{0327}c";
  }

  /** A safe cluster between "a" and "b" is left alone. */
  lemma SafeBetweenLetters(isMark: Scalar -> bool, T: Threshold, e: Cluster)
    requires !IsExcessive(isMark, T, e)
    ensures New(isMark, T, ["a", e, "b"]) == Sanitizer(false, "a" + e + "b")
  {
    var input := ["a", e, "b"];
    assert !NeedsSanitization(isMark, T, input) by {
      assert MarkCount(isMark, "a") <= 1 && MarkCount(isMark, "b") <= 1;
    }
    assert Flatten(input) == "a" + e + "b" by {
      assert Flatten(input[2..]) == "b";
      assert Flatten(input[1..]) == e + "b";
    }
  }

  /** "a", the emoji, "b" is left alone. */
  lemma Emoji(isMark: Scalar -> bool, T: Threshold)
    requires KnownMarkCategories(isMark)
    ensures New(isMark, T, ["a", KissEmoji, "b"]) == Sanitizer(false, "a" + KissEmoji + "b")
  {
    EmojiIsSafe(isMark, T);
    SafeBetweenLetters(isMark, T, KissEmoji);
  }

  /** A single zalgo cluster becomes one U+FFFD. */
  lemma SingleZalgo(isMark: Scalar -> bool, T: Threshold)
    requires KnownMarkCategories(isMark)
    requires T < 26
    ensures New(isMark, T, [Zalgo]) == Sanitizer(true, "\U{FFFD}")
  {
    ZalgoIsExcessive(isMark, T);
    SingleExcessiveCluster(isMark, T, Zalgo);
  }

  /** Two adjacent excessive clusters become two U+FFFDs, not one. */
  lemma TwoExcessive(isMark: Scalar -> bool, T: Threshold, z: Cluster)
    requires IsExcessive(isMark, T, z)
    ensures New(isMark, T, [z, z]) == Sanitizer(true, "\U{FFFD}\U{FFFD}")
  {
    AllExcessive(isMark, T, [z, z]);
    assert seq(2, _ => ReplacementCharacter) == "\U{FFFD}\U{FFFD}";
  }

  /** Two adjacent zalgo clusters become two U+FFFDs. */
  lemma TwoZalgo(isMark: Scalar -> bool, T: Threshold)
    requires KnownMarkCategories(isMark)
    requires T < 26
    ensures New(isMark, T, [Zalgo, Zalgo]) == Sanitizer(true, "\U{FFFD}\U{FFFD}")
  {
    ZalgoIsExcessive(isMark, T);
    TwoExcessive(isMark, T, Zalgo);
  }

  /** Excessive clusters `z` mixed with letters and a safe cluster `e`, in
      the arrangement of the mixed example below. */
  lemma MixedClusters(isMark: Scalar -> bool, T: Threshold, z: Cluster, e: Cluster)
    requires IsExcessive(isMark, T, z)
    requires !IsExcessive(isMark, T, e)
    ensures New(isMark, T, [z, "a", "b", z, z, e, "c", z])
         == Sanitizer(true, "\U{FFFD}ab\U{FFFD}\U{FFFD}" + e + "c\U{FFFD}")
  {
    var input := [z, "a", "b", z, z, e, "c", z];
    var r := ["\U{FFFD}", "a", "b", "\U{FFFD}", "\U{FFFD}", e, "c", "\U{FFFD}"];
    assert SanitizeClusters(isMark, T, input) == r by {
      assert !IsExcessive(isMark, T, "a") && !IsExcessive(isMark, T, "b") && !IsExcessive(isMark, T, "c");
    }
    MixedFlatten(e);
    assert IsExcessive(isMark, T, input[0]);
  }

  /** The sanitized clusters of the mixed example, joined. */
  lemma MixedFlatten(e: Cluster)
    ensures Flatten(["\U{FFFD}", "a", "b", "\U{FFFD}", "\U{FFFD}", e, "c", "\U{FFFD}"])
         == "\U{FFFD}ab\U{FFFD}\U{FFFD}" + e + "c\U{FFFD}"
  {
    var r := ["\U{FFFD}", "a", "b", "\U{FFFD}", "\U{FFFD}", e, "c", "\U{FFFD}"];
    assert Flatten(r[7..]) == "\U{FFFD}";
    assert Flatten(r[6..]) == "c\U{FFFD}";
    assert Flatten(r[5..]) == e + "c\U{FFFD}";
    assert Flatten(r[4..]) == "\U{FFFD}" + e + "c\U{FFFD}";
    assert Flatten(r[3..]) == "\U{FFFD}\U{FFFD}" + e + "c\U{FFFD}";
    assert Flatten(r[2..]) == "b\U{FFFD}\U{FFFD}" + e + "c\U{FFFD}";
    assert Flatten(r[1..]) == "ab\U{FFFD}\U{FFFD}" + e + "c\U{FFFD}";
  }

  /** Zalgo clusters mixed with letters and the emoji: each zalgo cluster
      becomes one U+FFFD in its own position, the rest is kept. */
  lemma MixedZalgo(isMark: Scalar -> bool, T: Threshold)
    requires KnownMarkCategories(isMark)
    requires T < 26
    ensures New(isMark, T, [Zalgo, "a", "b", Zalgo, Zalgo, KissEmoji, "c", Zalgo])
         == Sanitizer(true, "\U{FFFD}ab\U{FFFD}\U{FFFD}" + KissEmoji + "c\U{FFFD}")
  {
    ZalgoIsExcessive(isMark, T);
    EmojiIsSafe(isMark, T);
    MixedClusters(isMark, T, Zalgo, KissEmoji);
  }
}
