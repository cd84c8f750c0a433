/** String operations of Python's str type that the build scripts rely on. */
module Text {

  /** str.startswith */
  predicate StartsWith(s: string, prefix: string) {
    |prefix| <= |s| && s[..|prefix|] == prefix
  }

  /** str.endswith */
  predicate EndsWith(s: string, suffix: string) {
    |suffix| <= |s| && s[|s| - |suffix|..] == suffix
  }

  /** The index of the last occurrence of c in s, or -1 (str.rfind). */
  function LastIndexOf(s: string, c: char): (i: int)
    ensures -1 <= i < |s|
    ensures 0 <= i ==> s[i] == c
    ensures forall j :: i < j < |s| ==> s[j] != c
  {
    if s == [] then -1
    else if s[|s| - 1] == c then |s| - 1
    else LastIndexOf(s[..|s| - 1], c)
  }

  /** The text after the last occurrence of sep: s.split(sep)[-1]. */
  function AfterLast(s: string, sep: char): (r: string)
    ensures sep !in r
    ensures EndsWith(s, r)
    ensures r == s || s[|s| - |r| - 1] == sep
    ensures sep !in s ==> r == s
  {
    s[LastIndexOf(s, sep) + 1..]
  }

  /** The text after the last sep is the one suffix free of sep that is either the whole text or follows a sep. */
  lemma AfterLastUnique(s: string, sep: char, r: string)
    requires sep !in r && EndsWith(s, r) && (r == s || s[|s| - |r| - 1] == sep)
    ensures AfterLast(s, sep) == r
  {
    var i := LastIndexOf(s, sep);
    var k := |s| - |r| - 1;
    assert forall j :: k < j < |s| ==> s[j] == r[j - k - 1];
    assert i <= k;
    assert k <= i;
  }

  /** The text before the last occurrence of sep, or "" when there is none. */
  function BeforeLast(s: string, sep: char): (r: string)
    ensures s != [] ==> |r| < |s|
    ensures |r| <= |s| && r == s[..|r|]
  {
    var i := LastIndexOf(s, sep);
    if i < 0 then "" else s[..i]
  }

  function LowerChar(c: char): char {
    if 'A' <= c <= 'Z' then (c as int + 32) as char else c
  }

  /** str.lower, for the ASCII letters. */
  function Lower(s: string): (r: string)
    ensures |r| == |s|
    ensures forall i :: 0 <= i < |s| ==> r[i] == LowerChar(s[i])
  {
    seq(|s|, i requires 0 <= i < |s| => LowerChar(s[i]))
  }

  /** s.replace(pat, ""): every non-overlapping occurrence of pat, scanned from the left, removed. */
  function RemoveAll(s: string, pat: string): string
    requires pat != ""
    decreases |s|
  {
    if s == [] then []
    else if StartsWith(s, pat) then RemoveAll(s[|pat|..], pat)
    else [s[0]] + RemoveAll(s[1..], pat)
  }

  /** Removing a pattern from text that cannot hold it (it lacks a character the pattern has) changes nothing. */
  lemma {:induction false} RemoveAllAbsent(s: string, pat: string, c: char)
    requires pat != "" && c in pat && c !in s
    ensures RemoveAll(s, pat) == s
    decreases |s|
  {
    if s != [] {
      assert !StartsWith(s, pat);
      RemoveAllAbsent(s[1..], pat, c);
      assert s == [s[0]] + s[1..];
    }
  }
}
