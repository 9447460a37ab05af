/** String helpers behind the upload gate: lower-casing and suffix tests.
    Strings are sequences of characters; only ASCII letters change case. */
module Text {

  /** The lower-case form of `c` when it is an ASCII capital, `c` itself otherwise. */
  function LowerChar(c: char): (r: char)
    ensures 'A' <= c <= 'Z' ==> 'a' <= r <= 'z' && r as int - c as int == 32
    ensures !('A' <= c <= 'Z') ==> r == c
  {
    if 'A' <= c <= 'Z' then (c as int + 32) as char else c
  }

  /** The upper-case form of `c` when it is an ASCII small letter, `c` itself otherwise. */
  function UpperChar(c: char): (r: char)
    ensures 'a' <= c <= 'z' ==> 'A' <= r <= 'Z' && c as int - r as int == 32
    ensures !('a' <= c <= 'z') ==> r == c
  {
    if 'a' <= c <= 'z' then (c as int - 32) as char else c
  }

  /** Lower-cases a whole string, character by character. */
  function Lower(s: string): (r: string)
    ensures |r| == |s|
    ensures forall i :: 0 <= i < |s| ==> r[i] == LowerChar(s[i])
  {
    seq(|s|, i requires 0 <= i < |s| => LowerChar(s[i]))
  }

  /** True when `s` finishes with `suffix` (the empty suffix ends every string). */
  predicate EndsWith(s: string, suffix: string)
  {
    |suffix| <= |s| && s[|s| - |suffix|..] == suffix
  }

  /** True when `s` and the lower-case `pattern` agree up to the case of ASCII letters. */
  predicate MatchesIgnoringCase(s: string, pattern: string)
  {
    |s| == |pattern| &&
    forall i :: 0 <= i < |s| ==> s[i] == pattern[i] || s[i] == UpperChar(pattern[i])
  }

  /** The lowering of `s` ends with the lower-case `pattern` exactly when the
      last `|pattern|` characters of `s` spell `pattern` in any mix of cases. */
  lemma EndsWithIgnoringCase(s: string, pattern: string)
    requires forall i :: 0 <= i < |pattern| ==> !('A' <= pattern[i] <= 'Z')
    ensures EndsWith(Lower(s), pattern) <==>
            |pattern| <= |s| && MatchesIgnoringCase(s[|s| - |pattern|..], pattern)
  {
  }
}
