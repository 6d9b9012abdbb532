/** The string operations the resolvers use: `toLowerCase` (restricted to
    ASCII letters) and `includes`. */
module Text {

  /** Lower-case of one character; only `A`..`Z` change. */
  function LowerChar(c: char): char
  {
    if 'A' <= c <= 'Z' then (c as int + 32) as char else c
  }

  /** `String.prototype.toLowerCase` on ASCII: no capital letter is left,
      every other character stays as it was. */
  function Lower(s: string): (r: string)
    ensures |r| == |s|
    ensures forall i :: 0 <= i < |r| ==> !('A' <= r[i] <= 'Z')
    ensures forall i :: 0 <= i < |s| && !('A' <= s[i] <= 'Z') ==> r[i] == s[i]
    ensures forall i :: 0 <= i < |s| && 'A' <= s[i] <= 'Z' ==> r[i] as int - s[i] as int == 'a' as int - 'A' as int
  {
    seq(|s|, i requires 0 <= i < |s| => LowerChar(s[i]))
  }

  /** `String.prototype.includes`: `part` occurs in `s` at some position. */
  predicate Includes(s: string, part: string)
    ensures Includes(s, part) ==> |part| <= |s|
    ensures Includes(s, part) <==> exists i :: 0 <= i <= |s| - |part| && Window(s, i, |part|) == part
  {
    PrefixIsWindow(s, part);
    exists i :: 0 <= i <= |s| && part <= s[i..]
  }

  /** `part` is a prefix of the suffix at `i` exactly when it is the window at `i`. */
  lemma PrefixIsWindow(s: string, part: string)
    ensures forall i :: 0 <= i <= |s| && part <= s[i..] ==> i <= |s| - |part| && Window(s, i, |part|) == part
    ensures forall i :: 0 <= i <= |s| - |part| && Window(s, i, |part|) == part ==> part <= s[i..]
  {
    forall i | 0 <= i <= |s| && part <= s[i..]
      ensures i <= |s| - |part| && Window(s, i, |part|) == part
    {
      assert s[i..][..|part|] == s[i..i + |part|];
    }
    forall i | 0 <= i <= |s| - |part| && Window(s, i, |part|) == part
      ensures part <= s[i..]
    {
      assert s[i..][..|part|] == s[i..i + |part|];
    }
  }

  /** The `n` characters of `s` starting at `i`. */
  function Window(s: string, i: int, n: nat): string
    requires 0 <= i && i + n <= |s|
  {
    s[i..i + n]
  }

  /** Both strings are lower-cased before the substring test. */
  predicate IncludesIgnoringCase(s: string, part: string)
    ensures IncludesIgnoringCase(s, part) ==> |part| <= |s|
    ensures IncludesIgnoringCase(s, part) <==>
      exists i :: 0 <= i <= |s| - |part| && Lower(Window(s, i, |part|)) == Lower(part)
  {
    LowerWindows(s, |part|);
    Includes(Lower(s), Lower(part))
  }

  /** Lower-casing commutes with taking a window. */
  lemma LowerWindows(s: string, n: nat)
    ensures forall i :: 0 <= i <= |s| - n ==> Window(Lower(s), i, n) == Lower(Window(s, i, n))
  {
  }

  /** Every string includes the empty string, whatever its case. */
  lemma IncludesEmpty(s: string)
    ensures IncludesIgnoringCase(s, "")
  {
    assert Lower("") <= Lower(s)[0..];
  }

  /** Every string includes the empty string, whatever its case, for all strings at once. */
  lemma IncludesEmptyAll()
    ensures forall s :: IncludesIgnoringCase(s, "")
  {
    forall s
      ensures IncludesIgnoringCase(s, "")
    {
      IncludesEmpty(s);
    }
  }

  /** A string includes itself, ignoring case. */
  lemma IncludesItself(s: string)
    ensures IncludesIgnoringCase(s, s)
  {
    assert Lower(s) <= Lower(s)[0..];
  }
}
