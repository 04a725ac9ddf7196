/** Unicode text as the sanitizer sees it: scalar values grouped into
    extended grapheme clusters. Segmentation itself (Unicode Standard
    Annex #29, section 3) is not modelled; a string arrives already split
    into its clusters. */
module Unicode {

  /** A Unicode scalar value. Dafny's `char` ranges over exactly the
      scalar values (U+0000..U+D7FF and U+E000..U+10FFFF). */
  type Scalar = char

  /** An extended grapheme cluster: what Swift calls a `Character`. */
  type Cluster = seq<Scalar>

  /** U+FFFD REPLACEMENT CHARACTER, the marker an excessive cluster becomes. */
  const ReplacementCharacter: Scalar := '\U{FFFD}'

  /** The string whose clusters are `clusters`, in order. */
  function Flatten(clusters: seq<Cluster>): string
  {
    if clusters == [] then [] else clusters[0] + Flatten(clusters[1..])
  }

  lemma {:induction false} FlattenAppend(a: seq<Cluster>, b: seq<Cluster>)
    ensures Flatten(a + b) == Flatten(a) + Flatten(b)
  {
    if a == [] {
      assert a + b == b;
    } else {
      assert (a + b)[1..] == a[1..] + b;
      FlattenAppend(a[1..], b);
    }
  }

  /** Facts from the Unicode Character Database about the scalars the
      sanitizer's examples use, stated of a general-category predicate
      "is a combining mark" (categories Mn, Mc, Me):
      no scalar below U+0300 is a mark; the Combining Diacritical Marks
      block U+0300..U+036F is all Mn; VARIATION SELECTOR-16 (U+FE0F) is Mn;
      ZERO WIDTH JOINER (Cf), HEAVY BLACK HEART, KISS MARK and WOMAN (So)
      and the skin-tone modifiers (Sk) are not. */
  predicate KnownMarkCategories(isMark: Scalar -> bool)
  {
    && (forall c: Scalar :: c < '\U{0300}' ==> !isMark(c))
    && (forall c: Scalar :: '\U{0300}' <= c <= '\U{036F}' ==> isMark(c))
    && isMark('\U{FE0F}')
    && !isMark('\U{200D}')
    && !isMark('\U{2764}')
    && !isMark('\U{1F3FB}')
    && !isMark('\U{1F3FF}')
    && !isMark('\U{1F469}')
    && !isMark('\U{1F48B}')
  }

  /** What Foundation's `CharacterSet.whitespacesAndNewlines` holds of the
      scalars in the replacement examples: SPACE is a member; the letters
      and the digit are not. */
  predicate IsWhitespaceClass(ws: Scalar -> bool)
  {
    ws(' ') && !ws('a') && !ws('b') && !ws('c') && !ws('d') && !ws('1')
  }

  /** `CharacterSet.punctuationCharacters` (general category P*) on those
      scalars: none of them is punctuation. */
  predicate IsPunctuationClass(p: Scalar -> bool)
  {
    !p(' ') && !p('a') && !p('b') && !p('c') && !p('d') && !p('1') && !p('X') && !p('Z')
  }

  /** `CharacterSet.lowercaseLetters` (general category Ll) on those
      scalars: the lower-case letters are members; SPACE, the digit and the
      upper-case letters are not. */
  predicate IsLowercaseClass(l: Scalar -> bool)
  {
    l('a') && l('b') && l('c') && l('d') && !l(' ') && !l('1') && !l('X') && !l('Z')
  }
}
