/**
 * `CharToLineOffset` (TexSoup/utils.py): converts an absolute offset in a
 * source text into a (line, column) pair from the sorted offsets of its
 * line breaks, located with `bisect`.
 */
module LineOffsets {

  /** The state `CharToLineOffset.__init__` keeps: the offsets of the
      `'\n'` characters, in increasing order, and the length of the source. */
  datatype LineIndex = LineIndex(breaks: seq<int>, srcLen: nat)

  predicate StrictlyIncreasing(xs: seq<int>)
  {
    forall j, k :: 0 <= j < k < |xs| ==> xs[j] < xs[k]
  }

  /** Offsets of the line breaks of `src` at or after `from`, ascending. */
  function BreaksFrom(src: string, from: nat): (r: seq<int>)
    ensures StrictlyIncreasing(r)
    ensures forall k :: 0 <= k < |r| ==> from <= r[k] < |src| && src[r[k]] == '\n'
    ensures forall p :: from <= p < |src| && src[p] == '\n' ==> p in r
    decreases |src| - from
  {
    if from >= |src| then []
    else if src[from] == '\n' then [from] + BreaksFrom(src, from + 1)
    else BreaksFrom(src, from + 1)
  }

  /** `CharToLineOffset(src)`. */
  function Index(src: string): (ix: LineIndex)
    ensures StrictlyIncreasing(ix.breaks) && ix.srcLen == |src|
    ensures forall k :: 0 <= k < |ix.breaks| ==> 0 <= ix.breaks[k] < |src| && src[ix.breaks[k]] == '\n'
    ensures forall p :: 0 <= p < |src| && src[p] == '\n' ==> p in ix.breaks
  {
    LineIndex(BreaksFrom(src, 0), |src|)
  }

  /** `bisect.bisect` (that is, `bisect_right`): the number of entries at or below `x`. */
  function BisectRight(xs: seq<int>, x: int): (r: nat)
    requires StrictlyIncreasing(xs)
    ensures r <= |xs|
    ensures forall k :: 0 <= k < r ==> xs[k] <= x
    ensures forall k :: r <= k < |xs| ==> xs[k] > x
  {
    if xs == [] || xs[0] > x then 0 else 1 + BisectRight(xs[1..], x)
  }

  /** `bisect.bisect_left`: the number of entries strictly below `x`. */
  function BisectLeft(xs: seq<int>, x: int): (r: nat)
    requires StrictlyIncreasing(xs)
    ensures r <= |xs|
    ensures forall k :: 0 <= k < r ==> xs[k] < x
    ensures forall k :: r <= k < |xs| ==> xs[k] >= x
  {
    if xs == [] || xs[0] >= x then 0 else 1 + BisectLeft(xs[1..], x)
  }

  /** The column rule of `__call__`, for a line number found by either bisection. */
  function Column(ix: LineIndex, line: nat, charPos: int): int
    requires line <= |ix.breaks|
  {
    if line == 0 then charPos
    else if line == |ix.breaks| then
      var lineStart := ix.breaks[|ix.breaks| - 1];
      var a := charPos - lineStart - 1;
      var b := ix.srcLen - lineStart;
      if a < b then a else b
    else charPos - ix.breaks[line - 1] - 1
  }

  /** `CharToLineOffset.__call__` as written: the line is `bisect_right` of the
      offset, so the offset of a line break itself is counted on the line after it. */
  function LocateAsWritten(ix: LineIndex, charPos: int): (int, int)
    requires StrictlyIncreasing(ix.breaks)
  {
    var line := BisectRight(ix.breaks, charPos);
    (line, Column(ix, line, charPos))
  }

  /** The corrected conversion: a line break belongs to the line it ends. */
  function Locate(ix: LineIndex, charPos: int): (int, int)
    requires StrictlyIncreasing(ix.breaks)
  {
    var line := BisectLeft(ix.breaks, charPos);
    (line, Column(ix, line, charPos))
  }

  /** Offset of the first character of line `line`. */
  function LineStart(ix: LineIndex, line: nat): int
    requires line <= |ix.breaks|
  {
    if line == 0 then 0 else ix.breaks[line - 1] + 1
  }

  /** For every offset inside the source (or just past its end), `Locate`
      finds the line whose span holds it: the line starts after exactly
      `line` line breaks, no break lies between the line's start and the
      offset, and the column is the distance from the line's start. */
  lemma LocateSpansLine(src: string, p: int)
    requires 0 <= p <= |src|
    ensures var ix := Index(src);
      var (line, col) := Locate(ix, p);
      0 <= line <= |ix.breaks|
      && (forall k :: 0 <= k < line ==> ix.breaks[k] < p)
      && (forall k :: line <= k < |ix.breaks| ==> ix.breaks[k] >= p)
      && col >= 0 && LineStart(ix, line) + col == p
      && forall q :: LineStart(ix, line) <= q < p ==> src[q] != '\n'
  {
    var ix := Index(src);
    var line := BisectLeft(ix.breaks, p);
    assert Locate(ix, p) == (line, Column(ix, line, p));
    assert Column(ix, line, p) == p - LineStart(ix, line);
    LineFreeOfBreaks(src, ix, line, p);
  }

  /** Between the start of the line `BisectLeft` names and the offset there is no line break. */
  lemma LineFreeOfBreaks(src: string, ix: LineIndex, line: nat, p: int)
    requires ix == Index(src) && 0 <= p <= |src| && line == BisectLeft(ix.breaks, p)
    ensures forall q :: LineStart(ix, line) <= q < p ==> src[q] != '\n'
  {
    var bs := ix.breaks;
    forall q | LineStart(ix, line) <= q < p
      ensures src[q] != '\n'
    {
      forall k | 0 <= k < |bs|
        ensures bs[k] != q
      {
        if k < line {
          Ascending(bs, k, line - 1);
        }
      }
      assert q !in bs;
    }
  }

  lemma Ascending(xs: seq<int>, j: nat, k: nat)
    requires StrictlyIncreasing(xs) && j <= k < |xs|
    ensures xs[j] <= xs[k]
  {
  }

  /** As written, the offset of a line break gets column -1 of the next line. */
  lemma LocateAsWrittenOnBreak(src: string)
    requires src == "a\nb"
    ensures Index(src).breaks == [1]
    ensures LocateAsWritten(Index(src), 1) == (1, -1)
    ensures Locate(Index(src), 1) == (0, 1)
  {
    assert BreaksFrom(src, 3) == [];
    assert BreaksFrom(src, 2) == [];
    assert BreaksFrom(src, 1) == [1];
  }

  /** Away from the line breaks themselves the two conversions agree. */
  lemma LocateAgreesOffBreaks(ix: LineIndex, p: int)
    requires StrictlyIncreasing(ix.breaks)
    requires p !in ix.breaks
    ensures Locate(ix, p) == LocateAsWritten(ix, p)
  {
  }

  /** A stretch without line breaks contributes none. */
  lemma {:induction false} SkipPlain(src: string, from: nat, to: nat)
    requires from <= to <= |src|
    requires forall q :: from <= q < to ==> src[q] != '\n'
    ensures BreaksFrom(src, from) == BreaksFrom(src, to)
    decreases |src| - from
  {
    if from < to {
      SkipPlain(src, from + 1, to);
    }
  }

  predicate NoBreak(s: string)
  {
    forall q :: 0 <= q < |s| ==> s[q] != '\n'
  }

  /** Three break-free lines joined by line breaks have exactly those two breaks. */
  lemma ThreeLines(a: string, b: string, c: string)
    requires NoBreak(a) && NoBreak(b) && NoBreak(c)
    ensures Index(a + "\n" + b + "\n" + c).breaks == [|a|, |a| + 1 + |b|]
  {
    var src := a + "\n" + b + "\n" + c;
    var m := |a| + 1 + |b|;
    assert forall q :: 0 <= q < |a| ==> src[q] == a[q];
    assert forall q :: |a| < q < m ==> src[q] == b[q - |a| - 1];
    assert forall q :: m < q < |src| ==> src[q] == c[q - m - 1];
    SkipPlain(src, m + 1, |src|);
    assert BreaksFrom(src, m + 1) == [];
    assert BreaksFrom(src, m) == [m];
    SkipPlain(src, |a| + 1, m);
    assert BreaksFrom(src, |a|) == [|a|, m];
    SkipPlain(src, 0, |a|);
  }

  /** The documentation's example: `hello`, `world` and
      `I scream for ice cream!` on three lines. */
  lemma DocExample(a: string, b: string, c: string)
    requires a == "hello" && b == "world" && c == "I scream for ice cream!"
    ensures var ix := Index(a + "\n" + b + "\n" + c);
      ix.breaks == [5, 11]
      && Locate(ix, 3) == (0, 3) && Locate(ix, 6) == (1, 0) && Locate(ix, 12) == (2, 0)
  {
    ThreeLines(a, b, c);
  }

  /** The same example for the conversion as written: none of the three
      positions is a line break, so it gives the same answers. */
  lemma DocExampleAsWritten(a: string, b: string, c: string)
    requires a == "hello" && b == "world" && c == "I scream for ice cream!"
    ensures var ix := Index(a + "\n" + b + "\n" + c);
      LocateAsWritten(ix, 3) == (0, 3) && LocateAsWritten(ix, 6) == (1, 0) && LocateAsWritten(ix, 12) == (2, 0)
  {
    DocExample(a, b, c);
    var ix := Index(a + "\n" + b + "\n" + c);
    assert 3 !in ix.breaks && 6 !in ix.breaks && 12 !in ix.breaks;
    LocateAgreesOffBreaks(ix, 3);
    LocateAgreesOffBreaks(ix, 6);
    LocateAgreesOffBreaks(ix, 12);
  }
}
