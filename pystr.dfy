/** The few Python `str` operations the proxy generator relies on, on ASCII text:
    `lower()`, `title()`, `sub in s`, `rfind(c)` and `sep.join(parts)`. */
module PyStr {

  /** `str.lower()` on one character: ASCII upper-case letters map to lower case. */
  function LowerChar(c: char): char
  {
    if 'A' <= c <= 'Z' then (c as int + 32) as char else c
  }

  /** `str.upper()` on one character, for ASCII letters. */
  function UpperChar(c: char): char
  {
    if 'a' <= c <= 'z' then (c as int - 32) as char else c
  }

  /** A character that has case (an ASCII letter). */
  predicate IsCased(c: char)
  {
    'A' <= c <= 'Z' || 'a' <= c <= 'z'
  }

  /** `s.lower()`: each character lowered on its own, the length unchanged. */
  function Lower(s: string): (r: string)
    ensures |r| == |s|
    ensures forall i :: 0 <= i < |s| ==> r[i] == LowerChar(s[i])
  {
    if s == [] then [] else [LowerChar(s[0])] + Lower(s[1..])
  }

  /** No character of `s` is an ASCII upper-case letter. */
  predicate IsLower(s: string)
  {
    forall i :: 0 <= i < |s| ==> !('A' <= s[i] <= 'Z')
  }

  /** Lowering is idempotent, and leaves a string with no upper-case letter as it is. */
  lemma {:induction false} LowerOfLower(s: string)
    requires IsLower(s)
    ensures Lower(s) == s
  {
    if s != [] {
      assert IsLower(s[1..]);
      LowerOfLower(s[1..]);
    }
  }

  /** `title()` as CPython does it: a cased character right after a cased character
      is lowered, every other character is upper-cased. */
  function TitleFrom(s: string, previousIsCased: bool): string
  {
    if s == [] then []
    else
      var c := if previousIsCased then LowerChar(s[0]) else UpperChar(s[0]);
      [c] + TitleFrom(s[1..], IsCased(s[0]))
  }

  /** `s.title()`. */
  function Title(s: string): string
  {
    TitleFrom(s, false)
  }

  /** A word made only of lower-case ASCII letters: "paris". */
  predicate IsLowerWord(s: string)
  {
    forall i :: 0 <= i < |s| ==> 'a' <= s[i] <= 'z'
  }

  /** On a lower-case word, `title()` capitalises the first letter and keeps the rest. */
  lemma {:induction false} TitleOfLowerWord(s: string)
    requires IsLowerWord(s) && s != []
    ensures Title(s) == [UpperChar(s[0])] + s[1..]
  {
    TitleRestOfWord(s[1..]);
  }

  lemma {:induction false} TitleRestOfWord(s: string)
    requires IsLowerWord(s)
    ensures TitleFrom(s, true) == s
  {
    if s != [] {
      assert IsLowerWord(s[1..]);
      TitleRestOfWord(s[1..]);
    }
  }

  /** `p` is a prefix of `s`. */
  predicate StartsWith(s: string, p: string)
  {
    |p| <= |s| && s[..|p|] == p
  }

  /** A copy of `p` starts at index `i` of `s`. */
  predicate OccursAt(p: string, s: string, i: int)
  {
    0 <= i && i + |p| <= |s| && s[i..i + |p|] == p
  }

  /** `p in s`: `p` occurs in `s` as a contiguous block (the empty string occurs
      everywhere). */
  predicate Contains(s: string, p: string)
  {
    exists i :: 0 <= i <= |s| - |p| && OccursAt(p, s, i)
  }

  /** A string contains whatever sits in its middle. */
  lemma ContainsMiddle(a: string, p: string, b: string)
    ensures Contains(a + p + b, p)
  {
    assert (a + p + b)[|a|..|a| + |p|] == p;
    assert OccursAt(p, a + p + b, |a|);
  }

  /** A pattern holding a character that `s` lacks is not a substring of `s`. */
  lemma MissingCharNotContained(s: string, p: string, k: int)
    requires 0 <= k < |p| && p[k] !in s
    ensures !Contains(s, p)
  {
    forall i | 0 <= i <= |s| - |p| ensures !OccursAt(p, s, i) {
      assert s[i..i + |p|][k] == s[i + k];
    }
  }

  /** `s.rfind(c)`: the last index holding `c`, or -1 when there is none. */
  function RFind(s: string, c: char): (i: int)
    ensures -1 <= i < |s|
    ensures i >= 0 ==> s[i] == c
    ensures forall j :: i < j < |s| ==> s[j] != c
  {
    if s == [] then -1
    else if s[|s| - 1] == c then |s| - 1
    else RFind(s[..|s| - 1], c)
  }

  /** `sep.join(parts)`. */
  function JoinWith(sep: string, parts: seq<string>): string
  {
    if parts == [] then ""
    else if |parts| == 1 then parts[0]
    else parts[0] + sep + JoinWith(sep, parts[1..])
  }

  /** A joined text begins with its first part and ends with its last part. */
  lemma {:induction false} JoinWithEnds(sep: string, parts: seq<string>)
    requires parts != []
    ensures StartsWith(JoinWith(sep, parts), parts[0])
    ensures EndsWith(JoinWith(sep, parts), parts[|parts| - 1])
  {
    if |parts| > 1 {
      JoinWithEnds(sep, parts[1..]);
      var rest := JoinWith(sep, parts[1..]);
      var last := parts[|parts| - 1];
      assert JoinWith(sep, parts) == (parts[0] + sep) + rest;
      assert ((parts[0] + sep) + rest)[|(parts[0] + sep) + rest| - |last|..]
          == rest[|rest| - |last|..];
    }
  }

  /** `s.endswith(p)`. */
  predicate EndsWith(s: string, p: string)
  {
    |p| <= |s| && s[|s| - |p|..] == p
  }
}
