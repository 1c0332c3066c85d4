/**
 * The navigable iterator of TexSoup/utils.py (`Buffer`): a cursor over a
 * stream of tokens whose elements are pulled from the wrapped iterator into
 * a queue only when an access needs them.
 */
module Buffers {

  import opened Wrappers
  import Strings
  import opened Positioned

  /** What the wrapped iterator yields: a plain string (one character of a
      source text) gets a position when it is queued; a token keeps its own. */
  datatype Elem = Plain(s: string) | Placed(t: Token)

  function Stamp(e: Elem, p: int): Token
  {
    match e
    case Plain(s) => Token(s, p)
    case Placed(t) => t
  }

  /** The stream the queue is a prefix of: every element stamped with its own index. */
  function Stamped(src: seq<Elem>): (r: seq<Token>)
    ensures |r| == |src|
    ensures forall k :: 0 <= k < |src| ==> r[k] == Stamp(src[k], k)
  {
    seq(|src|, k requires 0 <= k < |src| => Stamp(src[k], k))
  }

  /** A string wrapped in a buffer: its characters. */
  function CharsOf(s: string): (r: seq<Elem>)
    ensures |r| == |s|
    ensures forall k :: 0 <= k < |s| ==> r[k] == Plain([s[k]])
  {
    seq(|s|, k requires 0 <= k < |s| => Plain([s[k]]))
  }

  lemma CharStream(s: string)
    ensures forall k :: 0 <= k < |s| ==> Stamped(CharsOf(s))[k] == Token([s[k]], k)
  {
  }

  function Min(a: int, b: int): int { if a < b then a else b }
  function Max(a: int, b: int): int { if a < b then b else a }

  /** Concatenated texts of a run of tokens. */
  function Concat(ts: seq<Token>): string
  {
    Strings.JoinWith(Texts(ts), "")
  }

  /** Python's `''.join` of list slices is slicing then joining, and a
      slice with non-negative bounds of a long enough prefix is the slice
      of the whole stream. */
  lemma SliceOfPrefix(xs: seq<Token>, n: nat, a: int, b: int)
    requires n <= |xs| && 0 <= a && 0 <= b && Min(b, |xs|) <= n
    ensures Strings.PySlice(xs[..n], Some(a), Some(b)) == Strings.PySlice(xs, Some(a), Some(b))
  {
    var p := xs[..n];
    var lo := Strings.ClipBound(a, |xs|);
    var hi := Strings.ClipBound(b, |xs|);
    if lo < hi {
      assert Strings.ClipBound(a, n) == lo && Strings.ClipBound(b, n) == hi;
      assert p[lo..hi] == xs[lo..hi];
    }
  }

  /** The stop conditions the reader hands to `forward_until` and
      `num_forward_until`: the element's text equals a given string, or the
      element is not whitespace (`not s.isspace()`). */
  datatype Condition = Is(text: string) | NotSpace

  predicate Meets(cond: Condition, s: string)
  {
    match cond
    case Is(t) => s == t
    case NotSpace => !Strings.IsSpace(s)
  }

  /** Number of elements from `from` on that are non-empty and fail `cond`,
      up to the first that is empty or meets it: how far `num_forward_until`
      and `forward_until` move. */
  function Run(items: seq<Token>, from: nat, cond: Condition): (n: nat)
    ensures n == 0 || from + n <= |items|
    decreases |items| - from
  {
    if from < |items| && items[from].text != "" && !Meets(cond, items[from].text)
    then 1 + Run(items, from + 1, cond)
    else 0
  }

  /** Element `m` exists, is non-empty and does not meet the condition. */
  predicate Passes(items: seq<Token>, m: nat, cond: Condition)
  {
    m < |items| && items[m].text != "" && !Meets(cond, items[m].text)
  }

  /** The `k` elements from `from` on all pass. */
  predicate AllPass(items: seq<Token>, from: nat, k: nat, cond: Condition)
    decreases k
  {
    k == 0 || (AllPass(items, from, k - 1, cond) && Passes(items, from + k - 1, cond))
  }

  /** A run of `k` passing elements followed by one that does not pass has length `k`. */
  lemma {:induction false} RunExactly(items: seq<Token>, from: nat, k: nat, cond: Condition)
    requires AllPass(items, from, k, cond)
    requires !Passes(items, from + k, cond)
    ensures Run(items, from, cond) == k
    decreases k
  {
    if k > 0 {
      AllPassShift(items, from, k, cond);
      RunExactly(items, from + 1, k - 1, cond);
    }
  }

  /** A passing element after `k` passing ones makes `k + 1`. */
  lemma AllPassGrow(items: seq<Token>, from: nat, k: nat, cond: Condition)
    requires AllPass(items, from, k, cond) && Passes(items, from + k, cond)
    ensures AllPass(items, from, k + 1, cond)
  {
  }

  /** Dropping the first of `k` passing elements leaves `k - 1` passing ones. */
  lemma {:induction false} AllPassShift(items: seq<Token>, from: nat, k: nat, cond: Condition)
    requires k > 0 && AllPass(items, from, k, cond)
    ensures Passes(items, from, cond) && AllPass(items, from + 1, k - 1, cond)
    decreases k
  {
    if k > 1 {
      AllPassShift(items, from, k - 1, cond);
    }
  }

  /** `Run` stops exactly at the first element that is empty or meets the
      condition, or at the end. */
  lemma {:induction false} RunStopsAtFirstMatch(items: seq<Token>, from: nat, cond: Condition)
    ensures var n := Run(items, from, cond);
      (forall m :: from <= m < from + n ==> items[m].text != "" && !Meets(cond, items[m].text))
      && (from + n < |items| ==> items[from + n].text == "" || Meets(cond, items[from + n].text))
    decreases |items| - from
  {
    if from < |items| && items[from].text != "" && !Meets(cond, items[from].text) {
      RunStopsAtFirstMatch(items, from + 1, cond);
    }
  }

  datatype BufferError = AssertionError | AttributeError

  class Buffer {
    /** The elements pulled so far. */
    var queue: seq<Token>
    /** The cursor (`position`). */
    var i: nat

    /** The elements the wrapped iterator yields, in order and stamped with
        their positions: what the queue holds once filled. */
    const stream: seq<Token>

    /** The queue is a prefix of the stream and reaches the cursor unless the
        stream has run out. */
    predicate Valid()
      reads this
    {
      |queue| <= |stream| && queue == stream[..|queue|] && (i <= |queue| || |queue| == |stream|)
    }

    /** Length of the queue after `__getitem__`'s fill loop runs to `stop`
        (to the end for a missing stop). */
    function FilledTo(stop: Option<int>): nat
      reads this
    {
      match stop
      case None => |stream|
      case Some(j) => if i <= j then Max(|queue|, Min(|stream|, j + 1)) else |queue|
    }

    /** The elements between two non-negative offsets, joined. */
    function Window(a: int, b: int): Joined
      requires 0 <= a && 0 <= b
    {
      Join(Strings.PySlice(stream, Some(a), Some(b)), "")
    }

    constructor (elems: seq<Elem>)
      ensures stream == Stamped(elems) && queue == [] && i == 0
      ensures Valid()
    {
      stream := Stamped(elems);
      queue := [];
      i := 0;
    }

    /** `next(buffer)`: the element under the cursor, pulling elements into the
        queue as needed; `None` is StopIteration, which leaves the cursor. */
    method Next() returns (r: Option<Token>)
      requires Valid()
      modifies this
      ensures Valid()
      ensures old(i) < |stream| ==>
                r == Some(stream[old(i)]) && i == old(i) + 1 && |queue| == Max(old(|queue|), old(i) + 1)
      ensures old(i) >= |stream| ==> r == None && i == old(i) && |queue| == |stream|
    {
      while i >= |queue|
        invariant |old(queue)| <= |queue| <= |stream|
        invariant queue == stream[..|queue|]
        invariant |queue| <= Max(|old(queue)|, old(i) + 1)
        invariant i == old(i)
        decreases |stream| - |queue|
      {
        if |queue| == |stream| {
          assert queue == stream;
          return None;
        }
        // Each pulled element is stamped with its index in the queue.
        queue := queue + [stream[|queue|]];
      }
      i := i + 1;
      r := Some(queue[i - 1]);
    }

    /** The fill loop of `__getitem__`: pull elements until the queue reaches
        `stop` or the stream ends; the cursor is restored. */
    method Fill(stop: Option<int>)
      requires Valid()
      modifies this
      ensures Valid() && i == old(i)
      ensures |queue| == old(FilledTo(stop))
    {
      var start := i;
      ghost var target := FilledTo(stop);
      while stop.None? || i <= stop.value
        invariant Valid()
        invariant start <= i
        invariant |old(queue)| <= |queue| <= target
        invariant stop.Some? && start <= stop.value ==> |queue| >= Min(|stream|, i)
        invariant stop.Some? && start > stop.value ==> i == start && queue == old(queue)
        invariant stop.Some? ==> i <= Max(start, stop.value + 1)
        decreases |stream| + 1 - i
      {
        var r := Next();
        if r.None? {
          break;
        }
      }
      i := start;
    }

    /** `buffer[k]` for an integer `k`; `None` is the IndexError. */
    method GetItem(k: int) returns (r: Option<Token>)
      requires Valid()
      modifies this
      ensures Valid() && i == old(i)
      ensures |queue| == old(FilledTo(Some(k)))
      ensures 0 <= k ==> r == Strings.PyIndex(stream, k)
      ensures k < 0 ==> r == Strings.PyIndex(queue, k)
    {
      Fill(Some(k));
      r := Strings.PyIndex(queue, k);
    }

    /** `buffer[start:stop]`: the queued elements in that slice, joined. */
    method GetSlice(start: Option<int>, stop: Option<int>) returns (r: Joined)
      requires Valid()
      modifies this
      ensures Valid() && i == old(i)
      ensures |queue| == old(FilledTo(stop))
      ensures r == Join(Strings.PySlice(queue, start, stop), "")
      ensures stop.None? ==> r == Join(Strings.PySlice(stream, start, None), "")
      ensures (start.None? || start.value >= 0) && stop.Some? && stop.value >= 0 ==>
                r == Window(if start.None? then 0 else start.value, stop.value)
    {
      Fill(stop);
      r := Join(Strings.PySlice(queue, start, stop), "");
      if stop.None? {
        assert queue == stream;
      }
      if stop.Some? && stop.value >= 0 && (start.None? || start.value >= 0) {
        var a := if start.None? then 0 else start.value;
        assert Strings.PySlice(queue, start, stop) == Strings.PySlice(queue, Some(a), stop);
        assert Strings.PySlice(stream, start, stop) == Strings.PySlice(stream, Some(a), stop);
        SliceOfPrefix(stream, |queue|, a, stop.value);
      }
    }

    /** `peek(j)` for an integer offset: the element `j` places from the
        cursor, `None` when there is none. */
    method Peek(j: int) returns (r: Option<Token>)
      requires Valid()
      modifies this
      ensures Valid() && i == old(i)
      ensures |queue| == old(FilledTo(Some(i + j)))
      ensures 0 <= i + j ==> r == Strings.PyIndex(stream, i + j)
      ensures i + j < 0 ==> r == Strings.PyIndex(queue, i + j)
    {
      r := GetItem(i + j);
    }

    /** `peek((a, b))`: the elements between two offsets from the cursor, joined. */
    method PeekRange(a: int, b: int) returns (r: Joined)
      requires Valid()
      modifies this
      ensures Valid() && i == old(i)
      ensures |queue| == old(FilledTo(Some(i + b)))
      ensures r == Join(Strings.PySlice(queue, Some(i + a), Some(i + b)), "")
      ensures 0 <= i + a && 0 <= i + b ==> r == Window(i + a, i + b)
    {
      ghost var filled := FilledTo(Some(i + b));
      r := GetSlice(Some(i + a), Some(i + b));
      assert |queue| == filled;
    }

    /** `peek()`, the default `(0, 1)`: the element under the cursor, or
        nothing at the end of the stream. */
    method PeekOne() returns (r: Joined)
      requires Valid()
      modifies this
      ensures Valid() && i == old(i)
      ensures |queue| == old(FilledTo(Some(i + 1)))
      ensures r.Empty? <==> i >= |stream|
      ensures i < |stream| ==> r == Joined(stream[i])
    {
      r := PeekRange(0, 1);
      NextUnderCursor(stream, i, r);
    }

    /** `hasNext()`: whether the element under the cursor exists and is non-empty. */
    method HasNext() returns (b: bool)
      requires Valid()
      modifies this
      ensures Valid() && i == old(i)
      ensures |queue| == old(FilledTo(Some(i + 1)))
      ensures b <==> i < |stream| && stream[i].text != ""
    {
      var p := PeekRange(0, 1);
      if i < |stream| {
        assert Strings.PySlice(stream, Some(i), Some(i + 1)) == [stream[i]];
      }
      b := p.Text() != "";
    }

    /** `startswith(s)`: the next `|s|` elements begin with `s`. */
    method StartsWith(s: string) returns (b: bool)
      requires Valid()
      modifies this
      ensures Valid() && i == old(i)
      ensures |queue| == old(FilledTo(Some(i + |s|)))
      ensures b <==> Strings.StartsWith(Window(i, i + |s|).Text(), s)
    {
      var p := PeekRange(0, |s|);
      b := Strings.StartsWith(p.Text(), s);
    }

    /** `endswith(s)`: the text of the `|s|` elements before the cursor ends
        with `s`. Close to the start the slice's negative bound counts from the
        end of the queue, as Python slicing does. */
    method EndsWith(s: string) returns (b: bool)
      requires Valid()
      modifies this
      ensures Valid() && i == old(i)
      ensures |queue| == old(FilledTo(Some(i)))
      ensures b <==> Strings.EndsWith(Join(Strings.PySlice(queue, Some(i - |s|), Some(i)), "").Text(), s)
      ensures |s| <= i ==> (b <==> Strings.EndsWith(Window(i - |s|, i).Text(), s))
    {
      var p := PeekRange(-|s|, 0);
      b := Strings.EndsWith(p.Text(), s);
    }

    /** `forward(j)`: move the cursor `j` places and return what it passed;
        a negative `j` moves backward. */
    method Forward(j: int) returns (r: Result<Joined, BufferError>)
      requires Valid()
      modifies this
      ensures Valid()
      ensures j >= 0 ==> i == old(i) + j && r == Ok(Window(old(i), old(i) + j))
      ensures j < 0 && old(i) < -j ==> r == Failure(AssertionError) && i == old(i) && |queue| == old(|queue|)
      ensures j < 0 && old(i) >= -j ==> i == old(i) + j && r == Ok(Window(i, old(i)))
      decreases if j < 0 then 1 else 0
    {
      if j < 0 {
        r := Backward(-j);
        return;
      }
      // The source moves the cursor first and then slices up to it; filling
      // before the move pulls the same elements.
      var w := GetSlice(Some(i), Some(i + j));
      i := i + j;
      r := Ok(w);
    }

    /** `backward(j)`: move the cursor back `j` places and return what it
        passed; moving before the start is the source's AssertionError. */
    method Backward(j: int) returns (r: Result<Joined, BufferError>)
      requires Valid()
      modifies this
      ensures Valid()
      ensures j >= 0 && old(i) < j ==> r == Failure(AssertionError) && i == old(i) && |queue| == old(|queue|)
      ensures j >= 0 && old(i) >= j ==> i == old(i) - j && r == Ok(Window(i, old(i)))
      ensures j < 0 ==> i == old(i) - j && r == Ok(Window(old(i), i))
      decreases if j < 0 then 1 else 0
    {
      if j < 0 {
        r := Forward(-j);
        return;
      }
      if i < j {
        return Failure(AssertionError);
      }
      var w := Retreat(j);
      r := Ok(w);
    }

    /** `forward(j)` then `backward(j)`: the cursor is back where it was, and
        both calls return the same `j` elements. */
    method ForwardThenBackward(j: nat) returns (there: Result<Joined, BufferError>, back: Result<Joined, BufferError>)
      requires Valid()
      modifies this
      ensures Valid() && i == old(i)
      ensures there.Ok? && back == there
    {
      there := Forward(j);
      back := Backward(j);
    }

    /** The successful part of `backward(j)`: the cursor moves back and the
        passed elements are read from the queue. */
    method Retreat(j: nat) returns (w: Joined)
      requires Valid() && j <= i
      modifies this
      ensures Valid() && i == old(i) - j && w == Window(i, old(i))
    {
      i := i - j;
      w := GetSlice(Some(i), Some(i + j));
    }
  
    /** One turn of the loop shared by `num_forward_until` and
        `forward_until`: when there is a next element and it fails the
        condition, move over it and return it. */
    method StepUnless(cond: Condition) returns (moved: Option<Joined>)
      requires Valid()
      modifies this
      ensures Valid()
      ensures moved.Some? <==> Passes(stream, old(i), cond)
      ensures moved.Some? ==> i == old(i) + 1 && moved.value == Joined(stream[old(i)])
      ensures moved.None? ==> i == old(i)
    {
      var more := HasNext();
      if !more {
        return None;
      }
      var p := PeekOne();
      if Meets(cond, p.Text()) {
        return None;
      }
      var f := Forward(1);
      WindowOne(stream, i - 1);
      return Some(f.value);
    }

    /** `num_forward_until(condition)`: how many elements lie before the first
        one that is empty or meets the condition; the cursor comes back, and
        the source's check that moving back returns what was passed holds. */
    method NumForwardUntil(cond: Condition) returns (n: nat)
      requires Valid()
      modifies this
      ensures Valid() && i == old(i)
      ensures n == Run(stream, old(i), cond)
    {
      var k := 0;
      var c := "";
      ghost var start := i;
      while true
        invariant Valid()
        invariant i == start + k
        invariant k > 0 ==> start + k <= |stream|
        invariant k > 0 ==> c == Concat(stream[start..start + k])
        invariant k == 0 ==> c == ""
        invariant AllPass(stream, start, k, cond)
        decreases |stream| - i
      {
        var moved := StepUnless(cond);
        if moved.None? {
          break;
        }
        StepConcat(stream, start, k, c);
        AllPassGrow(stream, start, k, cond);
        c := c + moved.value.Text();
        k := k + 1;
      }
      RunExactly(stream, start, k, cond);
      var back := Backward(k);
      if k > 0 {
        WindowText(stream, start, start + k);
      }
      assert back.Ok? && back.value.Text() == c;
      n := k;
    }

    /** The body of `forward_until`'s loop: `c += self.forward(1)` while the
        element under the cursor passes, keeping `c` the concatenation of
        the elements passed since `start`. */
    method AddUnless(cond: Condition, c: Token, ghost start: nat) returns (moved: bool, d: Token)
      requires Valid() && start <= i <= |stream|
      requires c.text == Concat(stream[start..i]) && AllPass(stream, start, i - start, cond)
      modifies this
      ensures Valid() && start <= i <= |stream|
      ensures d.text == Concat(stream[start..i]) && d.position == c.position
      ensures AllPass(stream, start, i - start, cond)
      ensures moved ==> i == old(i) + 1
      ensures !moved ==> i == old(i) && d == c && !Passes(stream, i, cond)
    {
      var step := StepUnless(cond);
      if step.None? {
        return false, c;
      }
      AddStep(stream, start, i - 1, c, step.value);
      AllPassGrow(stream, start, i - 1 - start, cond);
      return true, AddJoined(c, step.value);
    }

    /** `forward_until(condition)`: move over the same elements as
        `num_forward_until` and return them as one token placed at the first;
        with nothing under the cursor, `peek()` has no position
        (AttributeError). */
    method ForwardUntil(cond: Condition) returns (r: Result<Token, BufferError>)
      requires Valid()
      modifies this
      ensures Valid()
      ensures old(i) >= |stream| ==> r == Failure(AttributeError) && i == old(i)
      ensures old(i) < |stream| ==>
                var n := Run(stream, old(i), cond);
                i == old(i) + n && r == Ok(Token(Concat(stream[old(i)..old(i) + n]), stream[old(i)].position))
    {
      var p := PeekOne();
      if p.Empty? {
        return Failure(AttributeError);
      }
      ghost var start := i;
      var c := AddWhilePasses(cond, Token("", p.tok.position), start);
      RunExactly(stream, start, i - start, cond);
      r := Ok(c);
    }

    /** The loop of `forward_until`: add elements to `c` while they pass. */
    method AddWhilePasses(cond: Condition, c: Token, ghost start: nat) returns (d: Token)
      requires Valid() && start <= i <= |stream| && start < |stream|
      requires c.text == Concat(stream[start..i]) && AllPass(stream, start, i - start, cond)
      modifies this
      ensures Valid() && start <= i <= |stream|
      ensures d.text == Concat(stream[start..i]) && d.position == c.position
      ensures AllPass(stream, start, i - start, cond) && !Passes(stream, i, cond)
    {
      d := c;
      while true
        invariant Valid()
        invariant start <= i <= |stream|
        invariant d.text == Concat(stream[start..i]) && d.position == c.position
        invariant AllPass(stream, start, i - start, cond)
        decreases |stream| - i
      {
        var moved;
        moved, d := AddUnless(cond, d, start);
        if !moved {
          break;
        }
      }
    }
  }

  lemma {:induction false} JoinWithSnoc(ps: seq<string>, p: string)
    ensures Strings.JoinWith(ps + [p], "") == Strings.JoinWith(ps, "") + p
    decreases |ps|
  {
    if |ps| == 1 {
      assert (ps + [p])[1..] == [p];
    } else if |ps| > 1 {
      JoinWithSnoc(ps[1..], p);
      assert (ps + [p])[1..] == ps[1..] + [p];
    }
  }

  lemma ConcatSnoc(ts: seq<Token>, t: Token)
    ensures Concat(ts + [t]) == Concat(ts) + t.text
  {
    assert Texts(ts + [t]) == Texts(ts) + [t.text];
    JoinWithSnoc(Texts(ts), t.text);
  }

  /** One more element extends the concatenation of a run by its text. */
  lemma StepConcat(xs: seq<Token>, start: nat, k: nat, c: string)
    requires start + k < |xs|
    requires c == Concat(xs[start..start + k])
    ensures c + xs[start + k].text == Concat(xs[start..start + k + 1])
  {
    assert xs[start..start + k + 1] == xs[start..start + k] + [xs[start + k]];
    ConcatSnoc(xs[start..start + k], xs[start + k]);
    if k == 0 {
      assert Concat(xs[start..start]) == "";
    }
  }

  /** The join of the run under the cursor is empty exactly at the end of the stream. */
  lemma NextUnderCursor(xs: seq<Token>, k: nat, p: Joined)
    requires p == Join(Strings.PySlice(xs, Some(k), Some(k + 1)), "")
    ensures p.Empty? <==> k >= |xs|
    ensures k < |xs| ==> p == Joined(xs[k])
  {
    if k < |xs| {
      assert Strings.PySlice(xs, Some(k), Some(k + 1)) == [xs[k]];
    }
  }

  /** One more element added to the token built so far by `forward_until`. */
  lemma AddStep(xs: seq<Token>, start: nat, e: nat, c: Token, x: Joined)
    requires start <= e < |xs| && x == Joined(xs[e])
    requires c.text == Concat(xs[start..e])
    ensures AddJoined(c, x).text == Concat(xs[start..e + 1])
    ensures AddJoined(c, x).position == c.position
  {
    StepConcat(xs, start, e - start, c.text);
  }

  /** Joining one element gives that element back. */
  lemma WindowOne(xs: seq<Token>, k: nat)
    requires k < |xs|
    ensures Join(Strings.PySlice(xs, Some(k), Some(k + 1)), "") == Joined(xs[k])
  {
    assert Strings.PySlice(xs, Some(k), Some(k + 1)) == [xs[k]];
  }

  /** The text of a joined run is the concatenation of its texts. */
  lemma WindowText(xs: seq<Token>, a: nat, b: nat)
    requires a <= b <= |xs|
    ensures Join(Strings.PySlice(xs, Some(a), Some(b)), "").Text() == Concat(xs[a..b])
  {
    if a < b {
      assert Strings.PySlice(xs, Some(a), Some(b)) == xs[a..b];
    }
  }

  /** Over a string's characters, the elements from `a` to `b` spell `s[a..b]`. */
  lemma {:induction false} ConcatChars(s: string, a: nat, b: nat)
    requires a <= b <= |s|
    ensures Concat(Stamped(CharsOf(s))[a..b]) == s[a..b]
    decreases b - a
  {
    var xs := Stamped(CharsOf(s));
    if a < b {
      ConcatChars(s, a, b - 1);
      assert xs[a..b] == xs[a..b - 1] + [xs[b - 1]];
      ConcatSnoc(xs[a..b - 1], xs[b - 1]);
      assert s[a..b] == s[a..b - 1] + [s[b - 1]];
    }
  }

  /** Joining a non-empty run of a string's characters gives that substring,
      placed at its first character's index. */
  lemma CharWindow(s: string, a: nat, b: nat)
    requires a < b <= |s|
    ensures Join(Strings.PySlice(Stamped(CharsOf(s)), Some(a), Some(b)), "") == Joined(Token(s[a..b], a))
  {
    ConcatChars(s, a, b);
  }

  /** The documentation's example of `forward`: `forward(3)` on `abcdef`
      passes `abc`, and `forward(-2)` then moves back over `bc`. */
  method ForwardDoctest() returns (there: Result<Joined, BufferError>, back: Result<Joined, BufferError>)
    ensures there == Ok(Joined(Token("abc", 0)))
    ensures back == Ok(Joined(Token("bc", 1)))
  {
    var s := "abcdef";
    var b := new Buffer(CharsOf(s));
    there := b.Forward(3);
    back := b.Forward(-2);
    CharWindow(s, 0, 3);
    CharWindow(s, 1, 3);
    assert s[0..3] == "abc" && s[1..3] == "bc";
  }

  /** The documentation's example of `backward`: `backward(-3)` on `abcdef`
      moves forward over `abc`, and `backward(2)` then moves back over `bc`. */
  method BackwardDoctest() returns (there: Result<Joined, BufferError>, back: Result<Joined, BufferError>)
    ensures there == Ok(Joined(Token("abc", 0)))
    ensures back == Ok(Joined(Token("bc", 1)))
  {
    var s := "abcdef";
    var b := new Buffer(CharsOf(s));
    there := b.Backward(-3);
    back := b.Backward(2);
    CharWindow(s, 0, 3);
    CharWindow(s, 1, 3);
    assert s[0..3] == "abc" && s[1..3] == "bc";
  }

  /** The class documentation of `Buffer`, first part: on `012345`, `next`
      gives `0`, `forward()` passes `1`, and the buffer then ends with `1`. */
  method ClassDoctestMoves() returns (n: Option<Token>, f: Result<Joined, BufferError>, e: bool)
    ensures n == Some(Token("0", 0)) && f == Ok(Joined(Token("1", 1))) && e
  {
    var s := "012345";
    CharStream(s);
    var b := new Buffer(CharsOf(s));
    n := b.Next();
    f := b.Forward(1);
    e := b.EndsWith("1");
    CharWindow(s, 1, 2);
    assert s[1..2] == "1";
    assert Strings.EndsWith("1", "1") by {
      assert "1"[0..] == "1";
    }
  }

  /** The same example continued: after `next` and `forward()`, `backward(2)`
      moves back over `01`. */
  method ClassDoctestBack() returns (back: Result<Joined, BufferError>)
    ensures back == Ok(Joined(Token("01", 0)))
  {
    var s := "012345";
    CharStream(s);
    var b := new Buffer(CharsOf(s));
    var _ := b.Next();
    var _ := b.Forward(1);
    back := b.Backward(2);
    CharWindow(s, 0, 2);
    assert s[0..2] == "01";
  }

  /** The class documentation of `Buffer`, second part: with the cursor at
      the start of `012345`, `peek()` is `0`, `peek(2)` is `2`, and
      `peek((0, 2))` joins `01`. */
  method ClassDoctestPeeks() returns (p0: Option<Token>, p2: Option<Token>, w: Joined)
    ensures p0 == Some(Token("0", 0)) && p2 == Some(Token("2", 2))
    ensures w == Joined(Token("01", 0))
  {
    var s := "012345";
    CharStream(s);
    var b := new Buffer(CharsOf(s));
    p0 := b.Peek(0);
    p2 := b.Peek(2);
    w := b.PeekRange(0, 2);
    CharWindow(s, 0, 2);
    assert s[0..2] == "01";
  }

  /** The same example continued: the buffer starts with `01`, and `b1[2:4]`
      is `23`. */
  method ClassDoctestSlices() returns (st: bool, sl: Joined)
    ensures st && sl == Joined(Token("23", 2))
  {
    var s := "012345";
    CharStream(s);
    var b := new Buffer(CharsOf(s));
    st := b.StartsWith("01");
    sl := b.GetSlice(Some(2), Some(4));
    CharWindow(s, 0, 2);
    CharWindow(s, 2, 4);
    assert s[0..2] == "01" && s[2..4] == "23";
    assert Strings.StartsWith("01", "01") by {
      assert "01"[..2] == "01";
    }
  }

  /** `Buffer('asdf')[:10]`: a slice past the end is clipped to `asdf`. */
  method ClassDoctestClipped() returns (sl: Joined)
    ensures sl == Joined(Token("asdf", 0))
  {
    var s := "asdf";
    var b := new Buffer(CharsOf(s));
    sl := b.GetSlice(None, Some(10));
    assert Strings.PySlice(b.stream, Some(0), Some(10)) == Strings.PySlice(b.stream, Some(0), Some(4));
    CharWindow(s, 0, 4);
    assert s[0..4] == s;
  }

  /** `__next__` as the source writes it: while the cursor is at or past the end
      of the queue, the next element is pulled and stamped with the CURSOR `i`
      rather than with its own index in the queue. */
  function PullAsWritten(src: seq<Elem>, queue: seq<Token>, i: nat): (q: seq<Token>)
    requires |queue| <= |src|
    ensures |queue| <= |q| <= |src| && q[..|queue|] == queue
    decreases |src| - |queue|
  {
    if i >= |queue| && |queue| < |src| then PullAsWritten(src, queue + [Stamp(src[|queue|], i)], i)
    else queue
  }

  /** The fill loop of `__getitem__` over `PullAsWritten`, from cursor `i` to `stop`. */
  function FillAsWritten(src: seq<Elem>, queue: seq<Token>, i: nat, stop: int): seq<Token>
    requires |queue| <= |src|
    decreases stop - i
  {
    if i <= stop then
      var q := PullAsWritten(src, queue, i);
      if i < |q| then FillAsWritten(src, q, i + 1, stop) else q
    else queue
  }

  /** `forward(j)` for `j >= 0` as written: the cursor moves first, and the
      queue is filled from the moved cursor. */
  function ForwardAsWritten(src: seq<Elem>, queue: seq<Token>, i: nat, j: nat): Joined
    requires |queue| <= |src|
  {
    var q := FillAsWritten(src, queue, i + j, i + j);
    Join(Strings.PySlice(q, Some(i), Some(i + j)), "")
  }

  /** When the cursor does not run ahead of the queue, at most the element
      under it is pulled and it is stamped with its own index, so the queue
      stays a prefix of the correctly stamped stream. */
  lemma PullAsWrittenWithinQueue(src: seq<Elem>, queue: seq<Token>, i: nat)
    requires |queue| <= |src| && queue == Stamped(src)[..|queue|] && i <= |queue|
    ensures PullAsWritten(src, queue, i) == Stamped(src)[..Max(|queue|, Min(|src|, i + 1))]
  {
    if i == |queue| && |queue| < |src| {
      var q := queue + [Stamp(src[|queue|], i)];
      assert q == Stamped(src)[..|queue| + 1];
    }
  }

  /** `Buffer('abcdef').forward(3)` as written places `'abc'` at 3, not at 0:
      the moved cursor stamps the four elements pulled. */
  lemma {:induction false} ForwardAsWrittenMisstamps(s: string, src: seq<Elem>)
    requires s == "abcdef" && src == CharsOf(s)
    ensures ForwardAsWritten(src, [], 0, 3) == Joined(Token("abc", 3))
    ensures Join(Strings.PySlice(Stamped(src), Some(0), Some(3)), "") == Joined(Token("abc", 0))
  {
    assert s[0] == 'a' && s[1] == 'b' && s[2] == 'c';
    assert forall k :: 0 <= k < 6 ==> Stamp(src[k], 3) == Token([s[k]], 3);
    var q1 := [Token([s[0]], 3)];
    assert [] + [Stamp(src[0], 3)] == q1;
    assert q1 + [Stamp(src[1], 3)] == q1 + [Token([s[1]], 3)];
    var q2 := q1 + [Token([s[1]], 3)];
    var q3 := q2 + [Token([s[2]], 3)];
    var q4 := q3 + [Token([s[3]], 3)];
    assert PullAsWritten(src, q4, 3) == q4;
    assert PullAsWritten(src, q3, 3) == q4;
    assert PullAsWritten(src, q2, 3) == q4;
    assert PullAsWritten(src, q1, 3) == q4;
    assert PullAsWritten(src, [], 3) == q4;
    assert FillAsWritten(src, q4, 4, 3) == q4;
    assert FillAsWritten(src, [], 3, 3) == q4;
    assert Strings.PySlice(q4, Some(0), Some(3)) == q3;
    assert Texts(q3) == ["a", "b", "c"];
    assert Strings.JoinWith(["c"], "") == "c";
    assert Strings.JoinWith(["b", "c"], "") == "bc";
    assert Strings.JoinWith(Texts(q3), "") == "abc";
    CharWindow(s, 0, 3);
    assert s[0..3] == "abc";
  }
}
