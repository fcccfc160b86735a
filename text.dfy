/**
 * The two string operations the dispatchers rely on: Python's `str.lower()`
 * and the containment test `needle in text`.
 */
module Text {

  /** Lower-cases one ASCII letter; every other character is left alone. */
  function LowerChar(c: char): char
  {
    if 'A' <= c <= 'Z' then (c as int - 'A' as int + 'a' as int) as char else c
  }

  /**
   * `s.lower()`, character by character: the result has the same length and
   * no upper-case letter.
   */
  function Lower(s: string): (r: string)
    ensures |r| == |s|
    ensures IsLowerCase(r)
  {
    seq(|s|, i requires 0 <= i < |s| => LowerChar(s[i]))
  }

  /** Lower-casing changes upper-case letters only: every other character is kept. */
  lemma LowerKeepsOthers(s: string, i: int)
    requires 0 <= i < |s| && !('A' <= s[i] <= 'Z')
    ensures Lower(s)[i] == s[i]
  {
  }

  /** True when `s` has no upper-case ASCII letter. */
  predicate IsLowerCase(s: string)
  {
    forall i :: 0 <= i < |s| ==> !('A' <= s[i] <= 'Z')
  }

  /** `needle` is a prefix of `text`. */
  predicate StartsWith(text: string, needle: string)
  {
    |needle| <= |text| && text[..|needle|] == needle
  }

  /** Python's `needle in text`: `needle` occurs somewhere in `text`; the empty string occurs everywhere. */
  predicate Contains(text: string, needle: string)
    decreases |text|
  {
    StartsWith(text, needle) || (|text| > 0 && Contains(text[1..], needle))
  }

  /** `needle` occurs in `text` starting at index `i`. */
  predicate OccursAt(text: string, needle: string, i: int)
  {
    0 <= i && i + |needle| <= |text| && text[i..i + |needle|] == needle
  }

  /** `Contains` agrees with the definition by position: some window of `text` equals `needle`. */
  lemma {:induction false} ContainsIffOccursAt(text: string, needle: string)
    ensures Contains(text, needle) <==> exists i :: OccursAt(text, needle, i)
    decreases |text|
  {
    if StartsWith(text, needle) {
      assert OccursAt(text, needle, 0);
    }
    if |text| > 0 {
      ContainsIffOccursAt(text[1..], needle);
      if Contains(text[1..], needle) {
        var i :| OccursAt(text[1..], needle, i);
        assert text[i + 1..i + 1 + |needle|] == text[1..][i..i + |needle|];
        assert OccursAt(text, needle, i + 1);
      }
      if exists i :: OccursAt(text, needle, i) {
        var i :| OccursAt(text, needle, i);
        if i > 0 {
          assert text[1..][i - 1..i - 1 + |needle|] == text[i..i + |needle|];
          assert OccursAt(text[1..], needle, i - 1);
        } else {
          assert StartsWith(text, needle);
        }
      }
    } else {
      if exists i :: OccursAt(text, needle, i) {
        var i :| OccursAt(text, needle, i);
        assert StartsWith(text, needle);
      }
    }
  }

  /** A needle longer than the text never occurs in it. */
  lemma {:induction false} LongerNeverContained(text: string, needle: string)
    requires |needle| > |text|
    ensures !Contains(text, needle)
    decreases |text|
  {
    if |text| > 0 {
      LongerNeverContained(text[1..], needle);
    }
  }

  /** A needle with a character that the text lacks does not occur in it. */
  lemma {:induction false} MissingCharNotContained(text: string, needle: string, k: nat)
    requires k < |needle| && needle[k] !in text
    ensures !Contains(text, needle)
    decreases |text|
  {
    if |text| > 0 {
      assert forall i :: 0 <= i < |text[1..]| ==> text[1..][i] in text;
      MissingCharNotContained(text[1..], needle, k);
    }
  }

  /** An occurrence of an occurrence is an occurrence. */
  lemma ContainsTransitive(a: string, b: string, c: string)
    requires Contains(a, b) && Contains(b, c)
    ensures Contains(a, c)
  {
    ContainsIffOccursAt(a, b);
    ContainsIffOccursAt(b, c);
    var i :| OccursAt(a, b, i);
    var j :| OccursAt(b, c, j);
    forall k | 0 <= k < |c| ensures a[i + j + k] == c[k] {
      assert a[i + j + k] == a[i..i + |b|][j + k] == b[j + k] == b[j..j + |c|][k];
    }
    assert OccursAt(a, c, i + j);
    ContainsIffOccursAt(a, c);
  }
}
