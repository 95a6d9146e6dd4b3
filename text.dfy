/** The string operations of the host that the view controller relies on:
    `String.prototype.toLowerCase`, `String.prototype.includes` and
    `String.prototype.localeCompare`. Lower-casing is modelled per
    character on the ASCII letters, and collation as plain lexicographic
    order on Unicode code points (Dafny's `char`). */
module Text {

  /** Lower-cases one character: 'A'..'Z' become 'a'..'z', anything else is kept. */
  function LowerChar(c: char): char
  {
    if 'A' <= c <= 'Z' then (c as int + 32) as char else c
  }

  /** `s.toLowerCase()`, character by character: the result is as long as
      `s` and holds no upper-case ASCII letter. */
  function Lower(s: string): (r: string)
    ensures |r| == |s|
    ensures forall i :: 0 <= i < |r| ==> !('A' <= r[i] <= 'Z')
  {
    seq(|s|, i requires 0 <= i < |s| => LowerChar(s[i]))
  }

  /** `needle` occurs in `haystack` starting at offset `i`. */
  predicate OccursAt(haystack: string, needle: string, i: int)
  {
    0 <= i <= |haystack| - |needle| && haystack[i..i + |needle|] == needle
  }

  /** `haystack.includes(needle)`: `needle` occurs at some offset of `haystack`. */
  predicate Contains(haystack: string, needle: string)
    ensures Contains(haystack, needle) ==> |needle| <= |haystack|
  {
    exists i | 0 <= i <= |haystack| - |needle| :: OccursAt(haystack, needle, i)
  }

  /** Lower-casing loses no characters, so only the empty string lower-cases to
      the empty string. */
  lemma LowerEmpty(s: string)
    ensures Lower(s) == [] <==> s == []
  {
    assert |Lower(s)| == |s|;
  }

  /** Case-insensitive search finds every verbatim occurrence: if `needle`
      occurs in `haystack`, its lower-cased form occurs in the lower-cased
      `haystack` at the same offset. */
  lemma ContainsLower(haystack: string, needle: string)
    requires Contains(haystack, needle)
    ensures Contains(Lower(haystack), Lower(needle))
  {
    var i :| 0 <= i <= |haystack| - |needle| && OccursAt(haystack, needle, i);
    var lh, ln := Lower(haystack), Lower(needle);
    forall k | 0 <= k < |needle|
      ensures lh[i..i + |needle|][k] == ln[k]
    {
      assert haystack[i + k] == needle[k];
    }
    assert OccursAt(lh, ln, i);
  }

  /** `s.localeCompare(t)`: negative, zero or positive as `s` sorts before,
      together with, or after `t`. */
  function LocaleCompare(s: string, t: string): (r: int)
    ensures -1 <= r <= 1
  {
    if s == [] then (if t == [] then 0 else -1)
    else if t == [] then 1
    else if s[0] < t[0] then -1
    else if s[0] > t[0] then 1
    else LocaleCompare(s[1..], t[1..])
  }

  /** Swapping the operands negates the comparison. */
  lemma {:induction false} LocaleCompareAntisymmetric(s: string, t: string)
    ensures LocaleCompare(t, s) == -LocaleCompare(s, t)
  {
    if s != [] && t != [] && s[0] == t[0] {
      LocaleCompareAntisymmetric(s[1..], t[1..]);
    }
  }

  /** Two strings compare as equal exactly when they are the same string. */
  lemma {:induction false} LocaleCompareZero(s: string, t: string)
    ensures LocaleCompare(s, t) == 0 <==> s == t
  {
    if s != [] && t != [] && s[0] == t[0] {
      LocaleCompareZero(s[1..], t[1..]);
      assert s == [s[0]] + s[1..] && t == [t[0]] + t[1..];
    }
  }

  /** "Sorts no later than" is transitive. */
  lemma {:induction false} LocaleCompareTransitive(s: string, t: string, u: string)
    requires LocaleCompare(s, t) <= 0 && LocaleCompare(t, u) <= 0
    ensures LocaleCompare(s, u) <= 0
  {
    if s != [] && t != [] && u != [] && s[0] == t[0] == u[0] {
      LocaleCompareTransitive(s[1..], t[1..], u[1..]);
    }
  }
}
