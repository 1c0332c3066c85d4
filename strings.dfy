/**
 * The handful of Python `str` operations the LaTeX front end relies on,
 * written out so that their edge cases (empty patterns, overlapping
 * occurrences, clipping of slice bounds) are explicit.
 */
module Strings {

  import opened Wrappers

  /** `str.isspace` on one character: the characters Python classes as whitespace. */
  predicate IsSpaceChar(c: char)
  {
    c == ' ' || c == '\t' || c == '\n' || c == '\r' || c == '\U{000B}' || c == '\U{000C}'
    || ('\U{001C}' <= c <= '\U{001F}') || c == '\U{0085}' || c == '\U{00A0}' || c == '\U{1680}'
    || ('\U{2000}' <= c <= '\U{200A}') || c == '\U{2028}' || c == '\U{2029}'
    || c == '\U{202F}' || c == '\U{205F}' || c == '\U{3000}'
  }

  /** `string.whitespace`: the six ASCII whitespace characters. */
  predicate IsAsciiWhitespace(c: char)
  {
    c == ' ' || c == '\t' || c == '\n' || c == '\r' || c == '\U{000B}' || c == '\U{000C}'
  }

  /** `str.isspace`: non-empty and made of whitespace only. */
  predicate IsSpace(s: string)
  {
    |s| > 0 && forall k :: 0 <= k < |s| ==> IsSpaceChar(s[k])
  }

  predicate StartsWith(s: string, p: string)
  {
    |p| <= |s| && s[..|p|] == p
  }

  predicate EndsWith(s: string, p: string)
  {
    |p| <= |s| && s[|s| - |p|..] == p
  }

  /** True when `pat` occurs in `s` starting at index `k`. */
  predicate OccursAt(s: string, pat: string, k: int)
  {
    0 <= k && k + |pat| <= |s| && s[k..k + |pat|] == pat
  }

  /** `s.find(pat, from)` for a non-negative start: the lowest index at or after `from`, or -1. */
  function Find(s: string, pat: string, from: nat): (r: int)
    ensures r == -1 || (from <= r && OccursAt(s, pat, r))
    ensures r != -1 ==> forall k :: from <= k < r ==> !OccursAt(s, pat, k)
    ensures r == -1 ==> forall k :: from <= k ==> !OccursAt(s, pat, k)
    decreases |s| - from
  {
    if from + |pat| > |s| then -1
    else if s[from..from + |pat|] == pat then from
    else Find(s, pat, from + 1)
  }

  /** `s.rfind(pat)`: the highest index where `pat` occurs, or -1. */
  function RFind(s: string, pat: string): (r: int)
    ensures r == -1 || OccursAt(s, pat, r)
    ensures r != -1 ==> forall k :: r < k ==> !OccursAt(s, pat, k)
    ensures r == -1 ==> forall k :: !OccursAt(s, pat, k)
  {
    RFindBelow(s, pat, |s| - |pat|)
  }

  function RFindBelow(s: string, pat: string, k: int): (r: int)
    requires k <= |s| - |pat|
    ensures r == -1 || (r <= k && OccursAt(s, pat, r))
    ensures r != -1 ==> forall j :: r < j <= k ==> !OccursAt(s, pat, j)
    ensures r == -1 ==> forall j :: j <= k ==> !OccursAt(s, pat, j)
    decreases k + 1
  {
    if k < 0 then -1
    else if s[k..k + |pat|] == pat then k
    else RFindBelow(s, pat, k - 1)
  }

  /** `s.count(c)` for a single character. */
  function CountChar(s: string, c: char): nat
  {
    if s == [] then 0 else (if s[0] == c then 1 else 0) + CountChar(s[1..], c)
  }

  /** `glue.join(parts)`. */
  function JoinWith(parts: seq<string>, glue: string): string
  {
    if |parts| == 0 then ""
    else if |parts| == 1 then parts[0]
    else parts[0] + glue + JoinWith(parts[1..], glue)
  }

  /** `s.split(sep)` for a non-empty separator and no split limit. */
  function Split(s: string, sep: string): (r: seq<string>)
    requires sep != ""
    ensures |r| >= 1
    decreases |s|
  {
    var k := Find(s, sep, 0);
    if k == -1 then [s]
    else [s[..k]] + Split(s[k + |sep|..], sep)
  }

  /** `s.rsplit(sep, n)` for a non-empty separator; a negative `n` splits everywhere. */
  function RSplit(s: string, sep: string, n: int): (r: seq<string>)
    requires sep != ""
    ensures |r| >= 1
    decreases |s|
  {
    var k := RFind(s, sep);
    if n == 0 || k == -1 then [s]
    else RSplit(s[..k], sep, if n < 0 then n else n - 1) + [s[k + |sep|..]]
  }

  /** `s.replace(pat, rep)`: every non-overlapping occurrence, scanning from the left.
      An empty `pat` inserts `rep` before every character and at the end. */
  function ReplaceAll(s: string, pat: string, rep: string): string
    decreases |s|
  {
    if pat == "" then
      (if s == [] then rep else rep + [s[0]] + ReplaceAll(s[1..], pat, rep))
    else
      var k := Find(s, pat, 0);
      if k == -1 then s else s[..k] + rep + ReplaceAll(s[k + |pat|..], pat, rep)
  }

  /** `s.replace(pat, rep, 1)`: only the first occurrence; an empty `pat`
      puts `rep` in front. */
  function ReplaceFirst(s: string, pat: string, rep: string): string
  {
    if pat == "" then rep + s
    else
      var k := Find(s, pat, 0);
      if k == -1 then s else s[..k] + rep + s[k + |pat|..]
  }

  /** Which characters `strip` removes: Python's default whitespace, or a given set. */
  datatype StripChars = Whitespace | Chars(cs: set<char>)

  predicate Strips(sc: StripChars, c: char)
  {
    match sc
    case Whitespace => IsSpaceChar(c)
    case Chars(cs) => c in cs
  }

  /** Number of leading characters `lstrip` removes. */
  function LeadingCount(s: string, sc: StripChars): (n: nat)
    ensures n <= |s|
    ensures forall k :: 0 <= k < n ==> Strips(sc, s[k])
    ensures n < |s| ==> !Strips(sc, s[n])
    decreases |s|
  {
    if s != [] && Strips(sc, s[0]) then 1 + LeadingCount(s[1..], sc) else 0
  }

  /** Number of trailing characters `rstrip` removes. */
  function TrailingCount(s: string, sc: StripChars): (n: nat)
    ensures n <= |s|
    ensures forall k :: |s| - n <= k < |s| ==> Strips(sc, s[k])
    ensures n < |s| ==> !Strips(sc, s[|s| - n - 1])
    decreases |s|
  {
    if s != [] && Strips(sc, s[|s| - 1]) then 1 + TrailingCount(s[..|s| - 1], sc) else 0
  }

  function LStrip(s: string, sc: StripChars): string
  {
    s[LeadingCount(s, sc)..]
  }

  function RStrip(s: string, sc: StripChars): string
  {
    s[..|s| - TrailingCount(s, sc)]
  }

  function Strip(s: string, sc: StripChars): string
  {
    RStrip(LStrip(s, sc), sc)
  }

  /** Python's slice-bound normalisation: negative bounds count from the end,
      and the result is clipped to `[0, len]`. */
  function ClipBound(b: int, len: nat): (r: nat)
    ensures r <= len
  {
    var b' := if b < 0 then b + len else b;
    if b' < 0 then 0 else if b' > len then len else b'
  }

  /** `xs[start:stop]` with optional bounds. */
  function PySlice<T>(xs: seq<T>, start: Option<int>, stop: Option<int>): seq<T>
  {
    var a := if start.Some? then ClipBound(start.value, |xs|) else 0;
    var b := if stop.Some? then ClipBound(stop.value, |xs|) else |xs|;
    if a < b then xs[a..b] else []
  }

  /** `xs[k]`, with a negative `k` counting from the end; `None` is the IndexError. */
  function PyIndex<T>(xs: seq<T>, k: int): (r: Option<T>)
    ensures r.Some? <==> -|xs| <= k < |xs|
    ensures 0 <= k < |xs| ==> r == Some(xs[k])
    ensures -|xs| <= k < 0 ==> r == Some(xs[|xs| + k])
  {
    if 0 <= k < |xs| then Some(xs[k])
    else if -|xs| <= k < 0 then Some(xs[|xs| + k])
    else None
  }
}
