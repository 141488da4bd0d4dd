/**
 * Text primitives the detection rules are built from: ASCII lower-casing
 * (Python's `str.lower()` restricted to ASCII) and substring search
 * (Python's `needle in hay`, and `re.search` of a pattern without
 * metacharacters).
 */
module Strings {

  /** Maps 'A'..'Z' to 'a'..'z' and leaves every other character alone. */
  function LowerChar(c: char): char {
    if 'A' <= c <= 'Z' then (c as int + 32) as char else c
  }

  /** True when `s` has no ASCII upper-case letter. */
  predicate IsLower(s: string) {
    forall i :: 0 <= i < |s| ==> !('A' <= s[i] <= 'Z')
  }

  /** The ASCII lower-case form of `s`. */
  function Lower(s: string): (r: string)
    ensures |r| == |s|
  {
    if s == [] then [] else [LowerChar(s[0])] + Lower(s[1..])
  }

  /** Lower-casing works character by character and leaves no upper-case letter. */
  lemma {:induction false} LowerSpec(s: string)
    ensures forall i :: 0 <= i < |s| ==> Lower(s)[i] == LowerChar(s[i])
    ensures IsLower(Lower(s))
  {
    if s != [] {
      LowerSpec(s[1..]);
      assert Lower(s) == [LowerChar(s[0])] + Lower(s[1..]);
    }
  }

  /**
   * `a` and `b` are equal up to ASCII case, compared character by
   * character.
   */
  predicate EqualFold(a: string, b: string)
    decreases |a|
  {
    |a| == |b| && (a == [] || (LowerChar(a[0]) == LowerChar(b[0]) && EqualFold(a[1..], b[1..])))
  }

  /** Comparing up to case is comparing the lower-case forms. */
  lemma {:induction false} EqualFoldSpec(a: string, b: string)
    ensures EqualFold(a, b) <==> Lower(a) == Lower(b)
    decreases |a|
  {
    if |a| == |b| && a != [] {
      EqualFoldSpec(a[1..], b[1..]);
      assert Lower(a) == [LowerChar(a[0])] + Lower(a[1..]);
      assert Lower(b) == [LowerChar(b[0])] + Lower(b[1..]);
      if Lower(a) == Lower(b) {
        assert Lower(a)[0] == Lower(b)[0];
        assert Lower(a)[1..] == Lower(b)[1..];
      }
    }
  }

  /** `needle` occurs in `hay` starting at position `i`. */
  predicate OccursAt(hay: string, needle: string, i: nat) {
    i + |needle| <= |hay| && hay[i..i + |needle|] == needle
  }

  /**
   * Substring search. The empty needle occurs in every string, as in
   * Python.
   */
  function Contains(hay: string, needle: string): bool
    decreases |hay|
  {
    if |needle| > |hay| then false
    else if hay[..|needle|] == needle then true
    else Contains(hay[1..], needle)
  }

  /** The search finds `needle` exactly when it occurs at some position. */
  lemma {:induction false} ContainsSpec(hay: string, needle: string)
    ensures Contains(hay, needle) <==> exists i: nat :: i <= |hay| && OccursAt(hay, needle, i)
    decreases |hay|
  {
    if |needle| > |hay| {
      assert forall i: nat :: i <= |hay| ==> !OccursAt(hay, needle, i);
    } else if hay[..|needle|] == needle {
      assert OccursAt(hay, needle, 0);
    } else {
      ContainsSpec(hay[1..], needle);
      ShiftOccurrence(hay, needle);
    }
  }

  /** An occurrence past the first position is an occurrence in the tail. */
  lemma ShiftOccurrence(hay: string, needle: string)
    requires |hay| > 0
    requires !OccursAt(hay, needle, 0)
    ensures (exists i: nat :: i <= |hay| && OccursAt(hay, needle, i))
        <==> (exists i: nat :: i <= |hay[1..]| && OccursAt(hay[1..], needle, i))
  {
    forall i: nat | i <= |hay[1..]| && OccursAt(hay[1..], needle, i)
      ensures OccursAt(hay, needle, i + 1)
    {
      assert hay[i + 1..i + 1 + |needle|] == hay[1..][i..i + |needle|];
    }
    forall i: nat | i <= |hay| && OccursAt(hay, needle, i)
      ensures i >= 1 && OccursAt(hay[1..], needle, i - 1)
    {
      assert hay[1..][i - 1..i - 1 + |needle|] == hay[i..i + |needle|];
    }
  }

}
