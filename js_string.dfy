/**
 * The JavaScript string operations the mock generator relies on, over `seq<char>`.
 * Lower-casing covers ASCII letters only.
 */
module JsString {
  import opened Util

  /** `s.endsWith(suffix)`. */
  predicate EndsWith(s: string, suffix: string) {
    |suffix| <= |s| && s[|s| - |suffix|..] == suffix
  }

  /** `pat` occurs in `s` at index `i`. */
  predicate IsAt(s: string, pat: string, i: int) {
    0 <= i && i + |pat| <= |s| && s[i..i + |pat|] == pat
  }

  /** The first index at or after `i` where `pat` occurs in `s`. */
  function IndexFrom(s: string, pat: string, i: nat): (r: Option<nat>)
    ensures r.Some? ==> i <= r.value && IsAt(s, pat, r.value) && forall j :: i <= j < r.value ==> !IsAt(s, pat, j)
    ensures r.None? ==> forall j :: i <= j ==> !IsAt(s, pat, j)
    decreases |s| - i
  {
    if i + |pat| > |s| then None
    else if s[i..i + |pat|] == pat then Some(i)
    else IndexFrom(s, pat, i + 1)
  }

  /** `s.indexOf(pat)`, with `None` for -1: the first occurrence of `pat`. */
  function IndexOf(s: string, pat: string): (r: Option<nat>)
    ensures r.Some? ==> IsAt(s, pat, r.value) && forall j :: 0 <= j < r.value ==> !IsAt(s, pat, j)
    ensures r.None? <==> forall j :: !IsAt(s, pat, j)
  {
    IndexFrom(s, pat, 0)
  }

  /** `s.replace(pat, rep)` with a string pattern: only the first occurrence is replaced. */
  function ReplaceFirst(s: string, pat: string, rep: string): (r: string)
    ensures (forall j :: !IsAt(s, pat, j)) ==> r == s
  {
    match IndexOf(s, pat)
    case None => s
    case Some(i) => s[..i] + rep + s[i + |pat|..]
  }

  /** Only the first occurrence is replaced: the text around it is kept. */
  lemma ReplaceFirstAt(s: string, pat: string, rep: string, i: int)
    requires IsAt(s, pat, i)
    requires forall j :: 0 <= j < i ==> !IsAt(s, pat, j)
    ensures ReplaceFirst(s, pat, rep) == s[..i] + rep + s[i + |pat|..]
  {
    var k := IndexOf(s, pat);
    assert k.Some?;
    assert !(k.value < i);
    assert !(i < k.value);
  }

  /** An ASCII upper-case letter lower-cased; every other character unchanged. */
  function LowerChar(c: char): char {
    if 'A' <= c <= 'Z' then (c as int + 32) as char else c
  }

  /** `s.substring(0, 1).toLowerCase() + s.substring(1)`. */
  function LowerFirst(s: string): (r: string)
    ensures |r| == |s|
    ensures |s| > 0 ==> r[0] == LowerChar(s[0]) && r[1..] == s[1..]
  {
    if |s| == 0 then s else [LowerChar(s[0])] + s[1..]
  }

  /** `s.substring(1)`. */
  function DropFirst(s: string): (r: string)
    ensures |s| > 0 ==> [s[0]] + r == s
    ensures |s| == 0 ==> r == ""
  {
    if |s| == 0 then s else s[1..]
  }

  /** `parts.join(sep)`. */
  function Join(parts: seq<string>, sep: string): (r: string)
    ensures |parts| == 0 ==> r == ""
    ensures |parts| == 1 ==> r == parts[0]
    decreases |parts|
  {
    if |parts| == 0 then ""
    else if |parts| == 1 then parts[0]
    else parts[0] + sep + Join(parts[1..], sep)
  }
}
