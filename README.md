# SignalCoreKit text sanitisation in Dafny

This project models two pure string transforms of SignalCoreKit, the way
`SignalCoreKitTests/src/StringSanitizerTests.swift` exercises them:

- **`StringSanitizer(_:)`**, a defence against "zalgo" text. The input is a
  string split into extended grapheme clusters. A cluster that carries more
  combining marks than a fixed threshold is *excessive*. Each excessive
  cluster is replaced by exactly one U+FFFD REPLACEMENT CHARACTER, and every
  other cluster is kept as it is, in its place. The sanitizer exposes two
  results fixed at construction:
  - `needsSanitization`, true when some cluster was replaced;
  - `sanitized`, the resulting string.
- **`String.replaceCharacters(characterSet:replacement:)`**. Every scalar
  that belongs to a character class becomes one copy of a replacement
  string. Every other scalar is kept, in order. The replacement is per
  scalar, not per run.

Files:

- `Unicode.dfy` holds scalars, clusters, U+FFFD and the flattening of clusters
  into a string. It also holds the predicates that pin down what the Unicode
  Character Database and Foundation's character sets say about the scalars
  the examples use.
- `StringSanitizer.dfy` holds the sanitizer and its general properties.
- `StringReplacement.dfy` holds `replaceCharacters` and its general
  properties.
- `SanitizerExamples.dfy` and `ReplacementExamples.dfy` hold the examples
  the tests assert, each proved as a lemma. The empty-string case of
  `testEmpty` is `StringSanitizer.EmptyInput`, since it needs no Unicode
  facts.

The implementation takes two things from the platform, and the model makes
both of them parameters:

- **Character classes.** The test "is a combining mark" and Foundation's
  `CharacterSet`s become predicates `Scalar -> bool`. A union of sets, as at
  `StringSanitizerTests.swift:126-127`, is the disjunction of two predicates.
- **The threshold `T`.** It has the type `Threshold` (a natural number of at
  least 1), because one combining mark on a letter is ordinary text. The
  zalgo examples hold for every `T` below 26, the number of marks on the
  zalgo cluster of the tests.

Two facts of the tests fix the shape of the model:

- **Per scalar.** Replacement works scalar by scalar. At line 98 the two
  adjacent spaces of `"ab  1 cd "` become two copies of `"X "`, giving
  `"abX X 1X cdX "`. `StringReplacement.MemberRunReplacedPerScalar` and
  `StringReplacement.ReplacedLength` state this.
- **The threshold.** One mark on a letter is safe (line 24), and the zalgo
  cluster with 26 marks is not (line 46). So `T` is a parameter with
  `1 <= T`, and the zalgo examples add `T < 26`.

## Model

| member | source | states |
|---|---|---|
| StringSanitizer.MarkCount | SignalCoreKit/SignalCoreKitTests/src/StringSanitizerTests.swift:23-28 | The number of combining marks in a cluster is at most its length. |
| StringSanitizer.MarkCountExtremes | SignalCoreKit/SignalCoreKitTests/src/StringSanitizerTests.swift:23-28 | The mark count is zero exactly when no scalar is a mark, and the full length exactly when every scalar is. |
| StringSanitizer.IsExcessive | SignalCoreKit/SignalCoreKitTests/src/StringSanitizerTests.swift:37-59 | The rule "more marks than `T`". An excessive cluster has more than `T`, hence at least two, scalars; a cluster of at most one scalar is never excessive. |
| StringSanitizer.SanitizeClusters | SignalCoreKit/SignalCoreKitTests/src/StringSanitizerTests.swift:37-59 | One output cluster per input cluster, in the same positions. An excessive cluster becomes exactly U+FFFD, and every other cluster is passed through unchanged. |
| StringSanitizer.NeedsSanitization | SignalCoreKit/SignalCoreKitTests/src/StringSanitizerTests.swift:9-59 | The flag is true if and only if some cluster of the input is excessive. |
| StringSanitizer.New | SignalCoreKit/SignalCoreKitTests/src/StringSanitizerTests.swift:11-13 | The flag is true if and only if some input cluster is excessive. It is false exactly when `sanitized` equals the input string. When it is true, `sanitized` is strictly shorter; it is never longer. |
| StringSanitizer.NewAppend | SignalCoreKit/SignalCoreKitTests/src/StringSanitizerTests.swift:37-43 | For whole strings: sanitizing a concatenation gives the concatenation of the sanitized strings, and its flag is set when either part's is. |
| StringSanitizer.SanitizedLength | SignalCoreKit/SignalCoreKitTests/src/StringSanitizerTests.swift:37-59 | Sanitizing never lengthens the text. It strictly shortens it when a cluster was replaced. With nothing excessive, the clusters come back identical. |
| StringSanitizer.NeedsSanitizationIffChanged | SignalCoreKit/SignalCoreKitTests/src/StringSanitizerTests.swift:37-59 | `needsSanitization` holds if and only if the sanitized clusters differ from the input clusters. |
| StringSanitizer.EmptyInput | SignalCoreKit/SignalCoreKitTests/src/StringSanitizerTests.swift:9-14 | The empty string needs no sanitizing and sanitizes to "". |
| StringSanitizer.SingleExcessiveCluster | SignalCoreKit/SignalCoreKitTests/src/StringSanitizerTests.swift:45-51 | A string that is one excessive cluster gives the flag true and exactly one U+FFFD. |
| StringSanitizer.SanitizeAppend | SignalCoreKit/SignalCoreKitTests/src/StringSanitizerTests.swift:37-43 | Sanitizing works cluster by cluster. Sanitizing a concatenation is concatenating the sanitized parts, and the flag of a concatenation is the disjunction of the parts' flags. |
| StringSanitizer.AllExcessive | SignalCoreKit/SignalCoreKitTests/src/StringSanitizerTests.swift:53-59 | N excessive clusters in a row give N U+FFFDs, not one. The flag is set exactly when N > 0. |
| StringSanitizer.SanitizeIdempotent | SignalCoreKit/SignalCoreKitTests/src/StringSanitizerTests.swift:37-59 | Sanitizing a sanitized string changes nothing, and the flag is then false. |
| SanitizerExamples.ZalgoIsExcessive | SignalCoreKit/SignalCoreKitTests/src/StringSanitizerTests.swift:46 | The zalgo cluster of the tests carries 26 combining marks, so it is excessive for every threshold below 26. |
| SanitizerExamples.EmojiIsSafe | SignalCoreKit/SignalCoreKitTests/src/StringSanitizerTests.swift:31 | The ten-scalar ZWJ kiss emoji with skin tones carries one mark (U+FE0F), so it is never excessive. |
| SanitizerExamples.Ascii | SignalCoreKit/SignalCoreKitTests/src/StringSanitizerTests.swift:16-21 | "abc" gives the flag false and comes back identical. |
| SanitizerExamples.OneCombiningMark | SignalCoreKit/SignalCoreKitTests/src/StringSanitizerTests.swift:23-28 | "abx̧c", a letter with one combining cedilla, gives the flag false and comes back identical. |
| SanitizerExamples.SafeBetweenLetters | SignalCoreKit/SignalCoreKitTests/src/StringSanitizerTests.swift:30-35 | Any non-excessive cluster between "a" and "b" comes back identical, with the flag false. |
| SanitizerExamples.Emoji | SignalCoreKit/SignalCoreKitTests/src/StringSanitizerTests.swift:30-35 | "a", the kiss emoji, "b" gives the flag false and comes back identical. |
| SanitizerExamples.SingleZalgo | SignalCoreKit/SignalCoreKitTests/src/StringSanitizerTests.swift:45-51 | The single zalgo cluster gives the flag true and the string "\u{FFFD}". |
| SanitizerExamples.TwoExcessive | SignalCoreKit/SignalCoreKitTests/src/StringSanitizerTests.swift:53-59 | Two adjacent excessive clusters give the flag true and two U+FFFDs. |
| SanitizerExamples.TwoZalgo | SignalCoreKit/SignalCoreKitTests/src/StringSanitizerTests.swift:53-59 | Two zalgo clusters give the flag true and "\u{FFFD}\u{FFFD}". |
| SanitizerExamples.MixedClusters | SignalCoreKit/SignalCoreKitTests/src/StringSanitizerTests.swift:37-43 | Excessive clusters mixed with letters and a safe cluster, in the test's arrangement: each excessive cluster becomes one U+FFFD in its own place, and the rest is kept. |
| SanitizerExamples.MixedZalgo | SignalCoreKit/SignalCoreKitTests/src/StringSanitizerTests.swift:37-43 | The zalgo/letters/emoji string gives the flag true and exactly the expected string of line 41. |
| StringReplacement.ReplaceCharacters | SignalCoreKit/SignalCoreKitTests/src/StringSanitizerTests.swift:62-134 | The transform itself. Its contract is stated by the lemmas below: `ReplacedLength` (length formula), `ReplaceAppend` and `Cons` (scalar-by-scalar, in order), `DeletionKeepsNonMembers` (agreement with an independent filter), `NoMembersUnchanged` and `NoMemberRemains`. |
| StringReplacement.MemberCountRange | SignalCoreKit/SignalCoreKitTests/src/StringSanitizerTests.swift:62-134 | The number of class members in a string is at most its length. It is zero exactly when no scalar is a member, and the full length exactly when every scalar is. |
| StringReplacement.Cons | SignalCoreKit/SignalCoreKitTests/src/StringSanitizerTests.swift:62-134 | Read from the front: the first scalar turns into the replacement if it is a member, else itself, followed by the replaced rest. |
| StringReplacement.ReplacedLength | SignalCoreKit/SignalCoreKitTests/src/StringSanitizerTests.swift:89-108 | Output length = input length + (number of members) × (replacement length − 1). |
| StringReplacement.NoMembersUnchanged | SignalCoreKit/SignalCoreKitTests/src/StringSanitizerTests.swift:91-99 | A string with no members comes back unchanged, whatever the replacement. |
| StringReplacement.ReplaceAppend | SignalCoreKit/SignalCoreKitTests/src/StringSanitizerTests.swift:89-108 | Replacement is per scalar: replacing in a concatenation is concatenating the replaced parts, so no run spans the seam. |
| StringReplacement.MemberRunReplacedPerScalar | SignalCoreKit/SignalCoreKitTests/src/StringSanitizerTests.swift:98 | A run of k member scalars becomes k copies of the replacement, not one. |
| StringReplacement.DeletionKeepsNonMembers | SignalCoreKit/SignalCoreKitTests/src/StringSanitizerTests.swift:64-87 | With an empty replacement, the result is exactly the non-members of the input in their original order. This agrees with an independent front-to-back definition. |
| StringReplacement.NoMemberRemains | SignalCoreKit/SignalCoreKitTests/src/StringSanitizerTests.swift:64-87 | No member of the class survives, unless the replacement itself contains one. |
| StringReplacement.ReplaceIdempotent | SignalCoreKit/SignalCoreKitTests/src/StringSanitizerTests.swift:64-108 | If the replacement holds no member, replacing a second time changes nothing. |
| StringReplacement.UnionDeletion | SignalCoreKit/SignalCoreKitTests/src/StringSanitizerTests.swift:126-129 | Deleting the members of a union of two classes is deleting one class's members, then the other's. |
| ReplacementExamples.WhitespaceRemoved | SignalCoreKit/SignalCoreKitTests/src/StringSanitizerTests.swift:64-87 | All eleven rows of the whitespace-removal table, e.g. "ab  1 cd " gives "ab1cd" and "ab            cd " gives "abcd". |
| ReplacementExamples.WhitespaceReplaced | SignalCoreKit/SignalCoreKitTests/src/StringSanitizerTests.swift:89-108 | All seven rows of the "X " table, e.g. "ab  1 cd " gives "abX X 1X cdX ". |
| ReplacementExamples.PunctuationOrLowercaseRemoved | SignalCoreKit/SignalCoreKitTests/src/StringSanitizerTests.swift:110-133 | All eight rows of the punctuation ∪ lowercase table. Digits, spaces and upper-case letters survive, e.g. "ab  1 ZcdX " gives "  1 ZX ". |

## Left out

- Grapheme-cluster segmentation (Unicode Standard Annex #29, section 3) is done by the Swift runtime. The model takes the input already split into clusters (`seq<Cluster>`). The examples spell out the clusters the runtime produces.
- The Unicode general-category tables and Foundation's `CharacterSet` membership are foreign data, so they are parameters. The examples assume only the facts about the scalars and scalar ranges they use: `KnownMarkCategories`, `IsWhitespaceClass`, `IsPunctuationClass` and `IsLowercaseClass`.
- The exact threshold value is a parameter (`Threshold`, at least 1). The tests only bound it.
- The implementing Swift files of `StringSanitizer` and `replaceCharacters` are not part of this model. The behaviour modelled is the one the test file asserts.
- Swift compares `String`s by canonical equivalence. The model compares scalar sequences exactly, which is stricter. Every example holds under exact equality.
- Whether `sanitized` re-segments differently after replacement (U+FFFD next to a following mark) is not modelled. The output is the flat scalar string.
- The XCTest harness is not modelled: the loops over the test dictionaries and the assertion calls. Each dictionary is one lemma with one `ensures` per entry.
- LibMobileCoin/Sources/Generated/Proto/fog_common.pb.swift is generated protobuf glue that only delegates to SwiftProtobuf, which is not part of this model. It holds no logic of its own to model.
