/** `String.replaceCharacters(characterSet:replacement:)` of SignalCoreKit:
    every scalar that belongs to a character class is replaced by one copy
    of the replacement string; every other scalar is kept, in order. The
    class is a membership predicate; a union of Foundation character sets
    is the disjunction of their predicates. */
module StringReplacement {
  import opened Unicode

  /** What one scalar of the input turns into. */
  function Piece(c: Scalar, inClass: Scalar -> bool, replacement: string): string
  {
    if inClass(c) then replacement else [c]
  }

  /** `s.replaceCharacters(characterSet: inClass, replacement: replacement)`:
      each member scalar becomes one whole copy of the replacement, every
      other scalar is kept. The definition peels off the last scalar;
      `Cons` states the same rule from the front. */
  function ReplaceCharacters(s: string, inClass: Scalar -> bool, replacement: string): string
  {
    if s == [] then []
    else ReplaceCharacters(s[..|s| - 1], inClass, replacement) + Piece(s[|s| - 1], inClass, replacement)
  }

  /** The number of scalars of `s` that belong to the class. */
  function MemberCount(inClass: Scalar -> bool, s: string): nat
  {
    if s == [] then 0
    else MemberCount(inClass, s[..|s| - 1]) + (if inClass(s[|s| - 1]) then 1 else 0)
  }

  /** The count is at most the length; it is zero exactly when no scalar
      is a member, and the full length exactly when every scalar is. */
  lemma {:induction false} MemberCountRange(inClass: Scalar -> bool, s: string)
    ensures MemberCount(inClass, s) <= |s|
    ensures MemberCount(inClass, s) == 0 <==> forall i :: 0 <= i < |s| ==> !inClass(s[i])
    ensures MemberCount(inClass, s) == |s| <==> forall i :: 0 <= i < |s| ==> inClass(s[i])
  {
    if s != [] {
      var init := s[..|s| - 1];
      MemberCountRange(inClass, init);
      assert forall i :: 0 <= i < |init| ==> init[i] == s[i];
    }
  }

  /** The scalars of `s` outside the class, in their original order: a
      reference definition that works from the front of the string. */
  function NonMembers(inClass: Scalar -> bool, s: string): string
  {
    if s == [] then []
    else (if inClass(s[0]) then [] else [s[0]]) + NonMembers(inClass, s[1..])
  }

  /** `n` copies of `t`, one after the other. */
  function Repeat(t: string, n: nat): string
  {
    if n == 0 then [] else Repeat(t, n - 1) + t
  }

  /** `n` copies of `t` are n * |t| scalars long. */
  lemma {:induction false} RepeatLength(t: string, n: nat)
    ensures |Repeat(t, n)| == n * |t|
  {
    if n > 0 {
      RepeatLength(t, n - 1);
      assert n * |t| == (n - 1) * |t| + |t|;
    }
  }

  /** Appending one scalar appends what that scalar turns into. */
  lemma Snoc(s: string, c: Scalar, inClass: Scalar -> bool, replacement: string)
    ensures ReplaceCharacters(s + [c], inClass, replacement)
         == ReplaceCharacters(s, inClass, replacement) + Piece(c, inClass, replacement)
  {
    assert (s + [c])[..|s|] == s;
  }

  /** Each member contributes a whole copy of the replacement (a run of k
      members gives k copies), so the result is longer than `s` by
      |replacement| - 1 per member. */
  lemma {:induction false} ReplacedLength(s: string, inClass: Scalar -> bool, replacement: string)
    ensures |ReplaceCharacters(s, inClass, replacement)| == |s| + MemberCount(inClass, s) * (|replacement| - 1)
  {
    if s != [] {
      var init := s[..|s| - 1];
      ReplacedLength(init, inClass, replacement);
      var k := MemberCount(inClass, init);
      assert (k + 1) * (|replacement| - 1) == k * (|replacement| - 1) + (|replacement| - 1);
    }
  }

  /** A string without members comes back unchanged, whatever the
      replacement. */
  lemma {:induction false} NoMembersUnchanged(s: string, inClass: Scalar -> bool, replacement: string)
    requires forall i :: 0 <= i < |s| ==> !inClass(s[i])
    ensures ReplaceCharacters(s, inClass, replacement) == s
  {
    if s != [] {
      var init := s[..|s| - 1];
      NoMembersUnchanged(init, inClass, replacement);
      assert s == init + [s[|s| - 1]];
    }
  }

  /** Replacement is per scalar: replacing in a concatenation is the
      concatenation of the replaced parts, so no run spans the seam. */
  lemma {:induction false} ReplaceAppend(a: string, b: string, inClass: Scalar -> bool, replacement: string)
    ensures ReplaceCharacters(a + b, inClass, replacement)
         == ReplaceCharacters(a, inClass, replacement) + ReplaceCharacters(b, inClass, replacement)
  {
    if b == [] {
      assert a + b == a;
    } else {
      var init, last := b[..|b| - 1], b[|b| - 1];
      assert a + b == (a + init) + [last];
      assert b == init + [last];
      Snoc(a + init, last, inClass, replacement);
      Snoc(init, last, inClass, replacement);
      ReplaceAppend(a, init, inClass, replacement);
    }
  }

  /** The same rule read from the front: the first scalar's piece comes
      first, followed by the replaced rest. */
  lemma Cons(c: Scalar, s: string, inClass: Scalar -> bool, replacement: string)
    ensures ReplaceCharacters([c] + s, inClass, replacement)
         == Piece(c, inClass, replacement) + ReplaceCharacters(s, inClass, replacement)
  {
    ReplaceAppend([c], s, inClass, replacement);
    Snoc([], c, inClass, replacement);
  }

  /** A run of k member scalars becomes k copies of the replacement, not one. */
  lemma {:induction false} MemberRunReplacedPerScalar(s: string, inClass: Scalar -> bool, replacement: string)
    requires forall i :: 0 <= i < |s| ==> inClass(s[i])
    ensures ReplaceCharacters(s, inClass, replacement) == Repeat(replacement, |s|)
  {
    if s != [] {
      MemberRunReplacedPerScalar(s[..|s| - 1], inClass, replacement);
    }
  }

  /** With an empty replacement every member is deleted and the
      non-members are kept in order. */
  lemma {:induction false} DeletionKeepsNonMembers(s: string, inClass: Scalar -> bool)
    ensures ReplaceCharacters(s, inClass, []) == NonMembers(inClass, s)
  {
    if s != [] {
      var first, rest := s[0], s[1..];
      assert s == [first] + rest;
      Cons(first, rest, inClass, []);
      DeletionKeepsNonMembers(rest, inClass);
    }
  }

  /** No scalar of the class survives, unless the replacement itself
      brings one in. */
  lemma {:induction false} NoMemberRemains(s: string, inClass: Scalar -> bool, replacement: string)
    requires forall i :: 0 <= i < |replacement| ==> !inClass(replacement[i])
    ensures forall i :: 0 <= i < |ReplaceCharacters(s, inClass, replacement)|
              ==> !inClass(ReplaceCharacters(s, inClass, replacement)[i])
  {
    if s != [] {
      NoMemberRemains(s[..|s| - 1], inClass, replacement);
      var front := ReplaceCharacters(s[..|s| - 1], inClass, replacement);
      var piece := Piece(s[|s| - 1], inClass, replacement);
      forall i | 0 <= i < |front + piece|
        ensures !inClass((front + piece)[i])
      {
        if i >= |front| {
          assert (front + piece)[i] == piece[i - |front|];
        }
      }
    }
  }

  /** Replacing again changes nothing when the replacement holds no member. */
  lemma ReplaceIdempotent(s: string, inClass: Scalar -> bool, replacement: string)
    requires forall i :: 0 <= i < |replacement| ==> !inClass(replacement[i])
    ensures ReplaceCharacters(ReplaceCharacters(s, inClass, replacement), inClass, replacement)
         == ReplaceCharacters(s, inClass, replacement)
  {
    NoMemberRemains(s, inClass, replacement);
    NoMembersUnchanged(ReplaceCharacters(s, inClass, replacement), inClass, replacement);
  }

  /** Deleting the members of a union of two classes is deleting the
      members of one class and then those of the other. */
  lemma {:induction false} UnionDeletion(s: string, p: Scalar -> bool, q: Scalar -> bool)
    ensures ReplaceCharacters(s, c => p(c) || q(c), [])
         == ReplaceCharacters(ReplaceCharacters(s, p, []), q, [])
  {
    if s != [] {
      var init, last := s[..|s| - 1], s[|s| - 1];
      UnionDeletion(init, p, q);
      ReplaceAppend(ReplaceCharacters(init, p, []), Piece(last, p, []), q, []);
      if !p(last) {
        Snoc([], last, q, []);
      }
    }
  }
}
