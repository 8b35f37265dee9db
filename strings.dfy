/**
 * The few string operations the planner relies on: Python's `str.lower`,
 * the substring test `w in s` and `str.endswith`, on strings modelled as
 * sequences of characters.
 */
module Strings {

  /** Lower-cases one character; only the ASCII letters A-Z are mapped. */
  function LowerChar(c: char): char {
    if 'A' <= c <= 'Z' then (c as int + 32) as char else c
  }

  /** `s.lower()`, restricted to ASCII upper-case letters. */
  function Lower(s: string): string {
    seq(|s|, i requires 0 <= i < |s| => LowerChar(s[i]))
  }

  /** The word stands in the text starting at position `i`. */
  predicate OccursAt(s: string, w: string, i: nat) {
    i + |w| <= |s| && s[i..i + |w|] == w
  }

  /** Python's `w in s`: the word occurs at some position of the text. */
  predicate Contains(s: string, w: string) {
    exists i: nat | i <= |s| :: OccursAt(s, w, i)
  }

  /** Python's `s.endswith(suffix)`. */
  predicate EndsWith(s: string, suffix: string) {
    |suffix| <= |s| && s[|s| - |suffix|..] == suffix
  }

  /** The string has no single quote in it. */
  predicate QuoteFree(s: string) {
    forall i :: 0 <= i < |s| ==> s[i] != '\''
  }

  lemma LowerAppend(a: string, b: string)
    ensures Lower(a + b) == Lower(a) + Lower(b)
  {
    assert forall i :: 0 <= i < |a| + |b| ==> Lower(a + b)[i] == (Lower(a) + Lower(b))[i];
  }

  /** An occurrence in a prefix is an occurrence in the whole string. */
  lemma ContainsExtend(a: string, b: string, w: string)
    requires Contains(a, w)
    ensures Contains(a + b, w)
  {
    var i: nat :| i <= |a| && OccursAt(a, w, i);
    assert (a + b)[i..i + |w|] == a[i..i + |w|];
    assert OccursAt(a + b, w, i);
  }

  /** Lower-casing and then appending keeps every word the lower-cased text had. */
  lemma LowerContainsExtend(a: string, b: string, w: string)
    requires Contains(Lower(a), w)
    ensures Contains(Lower(a + b), w)
  {
    LowerAppend(a, b);
    ContainsExtend(Lower(a), Lower(b), w);
  }

  /** A concrete occurrence, given by its position. */
  lemma ContainsAt(s: string, w: string, i: nat)
    requires i + |w| <= |s| && s[i..i + |w|] == w
    ensures Contains(s, w)
  {
    assert OccursAt(s, w, i);
  }

  /** The string has no ASCII upper-case letter. */
  predicate NoUpper(w: string) {
    forall i :: 0 <= i < |w| ==> !('A' <= w[i] <= 'Z')
  }

  /** A word without capitals that stands in a text still stands there once the text is lower-cased. */
  lemma OccursLower(s: string, w: string, i: nat)
    requires OccursAt(s, w, i) && NoUpper(w)
    ensures OccursAt(Lower(s), w, i)
  {
    forall k | 0 <= k < |w|
      ensures Lower(s)[i..i + |w|][k] == w[k]
    {
      assert s[i..i + |w|][k] == s[i + k];
    }
  }

  /** Three words standing side by side form one occurrence of their concatenation. */
  lemma OccursJoin(s: string, a: string, b: string, c: string, i: nat)
    requires OccursAt(s, a, i) && OccursAt(s, b, i + |a|) && OccursAt(s, c, i + |a| + |b|)
    ensures OccursAt(s, a + b + c, i)
  {
    var j, k := i + |a|, i + |a| + |b|;
    assert s[i..k + |c|] == s[i..j] + s[j..k] + s[k..k + |c|];
  }

  lemma OccursMiddle(a: string, w: string, b: string)
    ensures OccursAt(a + w + b, w, |a|)
  {
    assert (a + w + b)[|a|..|a| + |w|] == w;
  }
}
