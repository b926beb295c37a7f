/** Substring search with ordinal case-insensitive comparison
    (`StringComparison.OrdinalIgnoreCase`): both strings are compared
    character by character after upper-casing. Only ASCII letters are
    folded. */
module Text {

  /** The upper-case form of an ASCII letter; every other character is
      returned unchanged. */
  function UpperChar(c: char): (r: char)
    ensures 'a' <= c <= 'z' ==> r as int == c as int - 32
    ensures !('a' <= c <= 'z') ==> r == c
    ensures !('a' <= r <= 'z')
  {
    if 'a' <= c <= 'z' then (c as int - 32) as char else c
  }

  /** Two characters are equal up to ASCII case. */
  predicate SameIgnoringCase(a: char, b: char)
  {
    UpperChar(a) == UpperChar(b)
  }

  /** `s` begins with `prefix`, up to ASCII case. */
  predicate StartsWithIgnoreCase(s: string, prefix: string)
  {
    |prefix| <= |s| && forall k :: 0 <= k < |prefix| ==> SameIgnoringCase(s[k], prefix[k])
  }

  /** `s.Contains(pattern, StringComparison.OrdinalIgnoreCase)`, computed by
      trying every start position in turn. */
  predicate ContainsIgnoreCase(s: string, pattern: string)
    decreases |s|
  {
    StartsWithIgnoreCase(s, pattern) || (|s| > 0 && ContainsIgnoreCase(s[1..], pattern))
  }

  /** `pattern` occurs in `s` at index `i`, up to ASCII case. */
  ghost predicate OccursIgnoringCaseAt(s: string, pattern: string, i: int)
  {
    && 0 <= i && i + |pattern| <= |s|
    && forall k :: 0 <= k < |pattern| ==> SameIgnoringCase(s[i + k], pattern[k])
  }

  /** The search agrees with the declarative meaning of "occurs somewhere". */
  lemma {:induction false} ContainsIgnoreCaseIffOccurs(s: string, pattern: string)
    ensures ContainsIgnoreCase(s, pattern) <==> exists i :: OccursIgnoringCaseAt(s, pattern, i)
    decreases |s|
  {
    if StartsWithIgnoreCase(s, pattern) {
      assert OccursIgnoringCaseAt(s, pattern, 0);
    } else if |s| > 0 {
      var t := s[1..];
      ContainsIgnoreCaseIffOccurs(t, pattern);
      if ContainsIgnoreCase(t, pattern) {
        var i :| OccursIgnoringCaseAt(t, pattern, i);
        forall k | 0 <= k < |pattern|
          ensures SameIgnoringCase(s[i + 1 + k], pattern[k])
        {
          assert t[i + k] == s[i + 1 + k];
        }
        assert OccursIgnoringCaseAt(s, pattern, i + 1);
      }
      if exists i :: OccursIgnoringCaseAt(s, pattern, i) {
        var i :| OccursIgnoringCaseAt(s, pattern, i);
        if i == 0 {
          assert StartsWithIgnoreCase(s, pattern);
        }
        forall k | 0 <= k < |pattern|
          ensures SameIgnoringCase(t[i - 1 + k], pattern[k])
        {
          assert t[i - 1 + k] == s[i + k];
        }
        assert OccursIgnoringCaseAt(t, pattern, i - 1);
      }
    }
  }

  /** The comparison ignores the case of either side. */
  lemma ContainsIgnoreCaseExample()
    ensures ContainsIgnoreCase("New ALERT", "alert")
  {
    assert OccursIgnoringCaseAt("New ALERT", "alert", 4);
    ContainsIgnoreCaseIffOccurs("New ALERT", "alert");
  }
}
