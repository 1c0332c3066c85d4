/**
 * The recognisers of TexSoup/tokens.py run on a `Buffer` of the source's
 * characters, each proved to take exactly the token its specification in
 * module `Tokens` describes and to leave the cursor right after it.
 */
module Tokenizer {

  import opened Wrappers
  import opened Strings
  import opened Positioned
  import opened Buffers
  import opened Tokens

  /** A buffer over the characters of `s`, its cursor inside the text. */
  predicate Over(b: Buffer, s: string)
    reads b
  {
    b.Valid() && b.i <= |s| && Spelled(b.stream, s)
  }

  /** The stream holds the characters of `s`, each placed at its own index. */
  predicate Spelled(stream: seq<Token>, s: string)
  {
    |stream| == |s| && forall k :: 0 <= k < |s| ==> stream[k] == Token([s[k]], k)
  }

  /** What the buffer joins between two offsets is the clipped substring,
      placed at its first character. */
  lemma PeekText(s: string, a: nat, b: nat)
    ensures Join(PySlice(Stamped(CharsOf(s)), Some(a), Some(b)), "").Text() == Peeked(s, a, b)
    ensures a < b && a < |s| ==>
      Join(PySlice(Stamped(CharsOf(s)), Some(a), Some(b)), "") == Joined(Token(s[a..Min(b, |s|)], a))
  {
    var xs := Stamped(CharsOf(s));
    if a < b && a < |s| {
      var m := Min(b, |s|);
      assert PySlice(xs, Some(a), Some(b)) == PySlice(xs, Some(a), Some(m));
      CharWindow(s, a, m);
    }
  }

  /** The same on a buffer over the text. */
  lemma WindowIs(b: Buffer, s: string, a: nat, c: nat)
    requires Spelled(b.stream, s)
    ensures b.Window(a, c).Text() == Peeked(s, a, c)
    ensures a < c && a < |s| ==> b.Window(a, c) == Joined(Token(s[a..Min(c, |s|)], a))
  {
    CharStream(s);
    assert b.stream == Stamped(CharsOf(s));
    PeekText(s, a, c);
  }

  /** `startswith(pat)` on a buffer over the text. */
  lemma StartsWithPeeked(b: Buffer, s: string, pat: string)
    requires Over(b, s)
    ensures Strings.StartsWith(b.Window(b.i, b.i + |pat|).Text(), pat) <==> Peeked(s, b.i, b.i + |pat|) == pat
  {
    var a := b.i;
    var w := b.Window(a, a + |pat|).Text();
    assert w == Peeked(s, a, a + |pat|) by {
      WindowTextIs(b, s, a, a + |pat|);
    }
    PeekedStartsWith(s, a, pat);
  }

  /** The text peeked for a pattern starts with the pattern exactly when it is the pattern. */
  lemma PeekedStartsWith(s: string, a: nat, pat: string)
    ensures Strings.StartsWith(Peeked(s, a, a + |pat|), pat) <==> Peeked(s, a, a + |pat|) == pat
  {
    PeekedLength(s, a, |pat|);
    StartsWithShort(Peeked(s, a, a + |pat|), pat);
  }

  /** The text a buffer over `s` joins between two offsets is the peeked substring. */
  lemma WindowTextIs(b: Buffer, s: string, a: nat, c: nat)
    requires Spelled(b.stream, s)
    ensures b.Window(a, c).Text() == Peeked(s, a, c)
  {
    WindowIs(b, s, a, c);
  }

  /** At most `n` characters are peeked from `a` to `a + n`. */
  lemma PeekedLength(s: string, a: nat, n: nat)
    ensures |Peeked(s, a, a + n)| <= n
  {
  }

  /** A text no longer than the pattern starts with it exactly when it is the pattern. */
  lemma StartsWithShort(x: string, pat: string)
    requires |x| <= |pat|
    ensures Strings.StartsWith(x, pat) <==> x == pat
  {
    if x == pat {
      assert x[..|pat|] == x;
    }
  }

  /** One character peeked. */
  lemma PeekedOne(s: string, a: nat, c: char)
    ensures Peeked(s, a, a + 1) == [c] <==> a < |s| && s[a] == c
  {
    if Peeked(s, a, a + 1) == [c] {
      assert Peeked(s, a, a + 1)[0] == c;
    }
  }

  /** `endswith(r'\\')` just after the first character: the queue holds at
      most one element before the cursor. */
  lemma EndsWithPairAtOne(b: Buffer, s: string)
    requires Over(b, s) && b.i == 1
    ensures !Strings.EndsWith(Join(PySlice(b.queue, Some(-1), Some(1)), "").Text(), "\\\\")
  {
    var q := b.queue;
    var sl := PySlice(q, Some(-1), Some(1));
    assert |sl| <= 1;
    if |sl| == 1 {
      assert sl[0] == b.stream[0];
      assert Texts(sl) == [[s[0]]];
    }
  }

  /** A substring grown by the next `n` characters. */
  lemma Extend(s: string, p: nat, e: nat, n: nat)
    requires p <= e && e + n <= |s|
    ensures s[p..e + n] == s[p..e] + s[e..e + n]
  {
  }

  /** One more character of a command name. */
  lemma CommandStep(s: string, p: nat, e: nat)
    requires p < e < |s| && s[p] == '\\'
    requires (s[p..e] == "\\" || !IsStop(s[e])) && s[p..e] !in MathTokens
    ensures CommandScan(s, p, e) == CommandScan(s, p, e + 1)
  {
    CommandConditions(s, p, e);
  }

  // ---------------------------------------------------------------------
  // The buffer operations the recognisers use, read on the text
  // ---------------------------------------------------------------------

  /** `text.hasNext()`. */
  method More(b: Buffer, ghost s: string) returns (r: bool)
    requires Over(b, s)
    modifies b
    ensures Over(b, s) && b.i == old(b.i) && |b.queue| == old(b.FilledTo(Some(b.i + 1)))
    ensures r <==> b.i < |s|
  {
    r := b.HasNext();
    if b.i < |s| {
      assert b.stream[b.i] == Token([s[b.i]], b.i);
    }
  }

  /** `text.peek((a, c)) == pat`. */
  method PeekIs(b: Buffer, ghost s: string, a: nat, c: nat, pat: string) returns (r: bool)
    requires Over(b, s)
    modifies b
    ensures Over(b, s) && b.i == old(b.i) && |b.queue| == old(b.FilledTo(Some(b.i + c)))
    ensures r <==> Peeked(s, b.i + a, b.i + c) == pat
  {
    var w := WindowAt(b, s, a, c);
    r := w == pat;
  }

  /** `text.peek((a, c))` as the text it joins. */
  method WindowAt(b: Buffer, ghost s: string, a: nat, c: nat) returns (w: string)
    requires Over(b, s)
    modifies b
    ensures Over(b, s) && b.i == old(b.i) && |b.queue| == old(b.FilledTo(Some(b.i + c)))
    ensures w == Peeked(s, b.i + a, b.i + c)
  {
    var j := b.PeekRange(a, c);
    WindowTextIs(b, s, b.i + a, b.i + c);
    w := j.Text();
  }

  /** `text.peek() in tokens` for the characters that end a command name,
      with an element under the cursor. */
  method NextIsStop(b: Buffer, ghost s: string) returns (r: bool)
    requires Over(b, s) && b.i < |s|
    modifies b
    ensures Over(b, s) && b.i == old(b.i)
    ensures r <==> IsStop(s[b.i])
  {
    var nx := b.PeekRange(0, 1);
    WindowIs(b, s, b.i, b.i + 1);
    assert nx.Text() == [s[b.i]];
    r := IsStop(nx.Text()[0]);
  }

  /** `text.startswith(pat)`. */
  method LooksAt(b: Buffer, ghost s: string, pat: string) returns (r: bool)
    requires Over(b, s)
    modifies b
    ensures Over(b, s) && b.i == old(b.i)
    ensures r <==> Peeked(s, b.i, b.i + |pat|) == pat
  {
    r := b.StartsWith(pat);
    StartsWithPeeked(b, s, pat);
  }

  /** `text.forward(n)` inside the text: the next `n` characters, placed. */
  method Take(b: Buffer, ghost s: string, n: nat) returns (t: Token)
    requires Over(b, s) && 0 < n && b.i + n <= |s|
    modifies b
    ensures Over(b, s) && b.i == old(b.i) + n
    ensures t == Token(s[old(b.i)..b.i], old(b.i))
  {
    var f := b.Forward(n);
    WindowIs(b, s, b.i - n, b.i);
    t := f.value.tok;
  }

  /** `text.peek(-1) != '\\'` once the cursor has left the start. */
  method AfterPlain(b: Buffer, ghost s: string) returns (r: bool)
    requires Over(b, s) && 1 <= b.i
    modifies b
    ensures Over(b, s) && b.i == old(b.i)
    ensures r <==> s[b.i - 1] != '\\'
  {
    var prev := b.Peek(-1);
    assert prev == Some(Token([s[b.i - 1]], b.i - 1));
    r := prev.None? || prev.value.text != "\\";
    assert [s[b.i - 1]][0] == s[b.i - 1];
  }

  /** `endswith(r'\\')` from the second character on. */
  lemma EndsWithPairAfter(b: Buffer, s: string)
    requires Over(b, s) && 2 <= b.i
    ensures Strings.EndsWith(b.Window(b.i - 2, b.i).Text(), "\\\\") <==> s[b.i - 2] == '\\' && s[b.i - 1] == '\\'
  {
    WindowIs(b, s, b.i - 2, b.i);
    PeekedPair(s, b.i - 2, "\\\\");
    var x := Peeked(s, b.i - 2, b.i);
    if Strings.EndsWith(x, "\\\\") {
      assert |x| == 2 && x[0..] == x;
    }
  }

  /** `text.endswith(r'\\')`: a line break `\\` just before the cursor. */
  method AfterLineBreak(b: Buffer, ghost s: string) returns (r: bool)
    requires Over(b, s) && 1 <= b.i
    modifies b
    ensures Over(b, s) && b.i == old(b.i)
    ensures r <==> 2 <= b.i && s[b.i - 2] == '\\' && s[b.i - 1] == '\\'
  {
    r := b.EndsWith("\\\\");
    if b.i == 1 {
      EndsWithPairAtOne(b, s);
    } else {
      EndsWithPairAfter(b, s);
    }
  }

  // ---------------------------------------------------------------------
  // The recognisers
  // ---------------------------------------------------------------------

  /** What a recogniser leaves: the token from the old cursor `p` to `end`
      and the cursor at `end`, or no token and the cursor unmoved. */
  predicate Recognised(s: string, p: nat, end: Option<nat>, r: Option<Token>, i: nat)
  {
    (r.Some? <==> end.Some?)
    && (end.Some? ==> p <= end.value <= |s| && r.value == Token(s[p..end.value], p) && i == end.value)
    && (end.None? ==> i == p)
  }

  /** `tokenize_punctuation_command`. */
  method TokenizePunctuationCommand(b: Buffer, ghost s: string, points: seq<string>) returns (r: Option<Token>)
    requires Over(b, s)
    modifies b
    ensures Over(b, s)
    ensures Recognised(s, old(b.i), PunctuationEnd(s, old(b.i), points), r, b.i)
    ensures old(b.i) < |s| && s[old(b.i)] != '\\' ==> |b.queue| == Max(old(|b.queue|), Min(|s|, old(b.i) + 2))
  {
    ghost var p := b.i;
    var bs := PeekIs(b, s, 0, 1, "\\");
    PeekedOne(s, p, '\\');
    if !bs {
      assert PunctuationEnd(s, p, points) == None;
      return None;
    }
    var k := FindPoint(b, s, points);
    if k.None? {
      return None;
    }
    var t := Take(b, s, |points[k.value]| + 1);
    return Some(t);
  }

  /** The loop of `tokenize_punctuation_command` over the table: the index
      of the first point the text after the backslash continues with. */
  method FindPoint(b: Buffer, ghost s: string, points: seq<string>) returns (r: Option<nat>)
    requires Over(b, s) && b.i < |s|
    modifies b
    ensures Over(b, s) && b.i == old(b.i)
    ensures r == FirstPoint(s, b.i, points, 0)
  {
    ghost var p := b.i;
    var k := 0;
    while k < |points|
      invariant Over(b, s) && b.i == p && k <= |points|
      invariant forall j :: 0 <= j < k ==> !Continues(s, p, points[j])
    {
      var pt := points[k];
      var hit := PeekIs(b, s, 1, |pt| + 1, pt);
      if hit {
        FirstPointIs(s, p, points, 0, k);
        return Some(k);
      }
      k := k + 1;
    }
    FirstPointIs(s, p, points, 0, k);
    return None;
  }

  /** `text.peek((1, len(point) + 1)) == point` after the backslash at `p`. */
  predicate Continues(s: string, p: nat, pt: string)
  {
    Peeked(s, p + 1, p + 1 + |pt|) == pt
  }

  /** The first point the text continues with, found by the scan. */
  lemma {:induction false} FirstPointIs(s: string, p: nat, points: seq<string>, from: nat, k: nat)
    requires p < |s| && from <= k <= |points|
    requires forall j :: from <= j < k ==> !Continues(s, p, points[j])
    requires k < |points| ==> Continues(s, p, points[k])
    ensures FirstPoint(s, p, points, from) == if k < |points| then Some(k) else None
    decreases k - from
  {
    if from < k {
      FirstPointIs(s, p, points, from + 1, k);
    }
  }

  /** `tokenize_command`. */
  method TokenizeCommand(b: Buffer, ghost s: string) returns (r: Option<Token>)
    requires Over(b, s)
    modifies b
    ensures Over(b, s)
    ensures Recognised(s, old(b.i), CommandEnd(s, old(b.i)), r, b.i)
    ensures old(b.i) < |s| && s[old(b.i)] != '\\' ==> |b.queue| == Max(old(|b.queue|), Min(|s|, old(b.i) + 2))
  {
    ghost var p := b.i;
    var bs := PeekIs(b, s, 0, 1, "\\");
    PeekedOne(s, p, '\\');
    if !bs {
      return None;
    }
    var c := Take(b, s, 1);
    c := CommandName(b, s, p, c);
    return Some(c);
  }

  /** The loop of `tokenize_command`, extending the name `c` that starts
      with the backslash at `p`. */
  method CommandName(b: Buffer, ghost s: string, ghost p: nat, c0: Token) returns (c: Token)
    requires Over(b, s) && p + 1 == b.i && s[p] == '\\' && c0 == Token(s[p..b.i], p)
    modifies b
    ensures Over(b, s) && b.i == CommandScan(s, p, p + 1) && c == Token(s[p..b.i], p)
  {
    c := c0;
    while true
      invariant Over(b, s) && p < b.i <= |s|
      invariant c == Token(s[p..b.i], p)
      invariant CommandScan(s, p, b.i) == CommandScan(s, p, p + 1)
      decreases |s| - b.i
    {
      var more := More(b, s);
      if !more {
        break;
      }
      CommandConditions(s, p, b.i);
      var go := c.text == "\\";
      if !go {
        var stop := NextIsStop(b, s);
        go := !stop;
      }
      if !go || c.text in MathTokens {
        break;
      }
      ghost var e := b.i;
      CommandStep(s, p, e);
      var t := Take(b, s, 1);
      Extend(s, p, e, 1);
      c := Add(c, t);
    }
  }

  /** `tokenize_line_comment`, with the guard of the given variant. As
      written the guard reads `peek(-1)`, which at the start of the text is
      the last element queued: the caller has queued at most the first two. */
  method TokenizeLineComment(b: Buffer, ghost s: string, v: Variant) returns (r: Option<Token>)
    requires Over(b, s) && (b.i == 0 ==> |b.queue| <= 2)
    modifies b
    ensures Over(b, s)
    ensures Recognised(s, old(b.i), CommentEnd(v, s, old(b.i)), r, b.i)
  {
    ghost var p := b.i;
    var result := Token("", b.i);
    var pc := PeekIs(b, s, 0, 1, "%");
    PeekedOne(s, p, '%');
    if !pc {
      return None;
    }
    var guard := CommentGuardHolds(b, s, v);
    if !guard {
      return None;
    }
    result := CommentTaken(b, s, result);
    return Some(result);
  }

  /** The `%` under the cursor and the rest of its line. */
  method CommentTaken(b: Buffer, ghost s: string, c0: Token) returns (result: Token)
    requires Over(b, s) && b.i < |s| && c0 == Token("", b.i)
    modifies b
    ensures Over(b, s) && b.i == CommentScan(s, old(b.i) + 1) && result == Token(s[old(b.i)..b.i], old(b.i))
  {
    ghost var p := b.i;
    var t := Take(b, s, 1);
    result := Add(c0, t);
    result := CommentRest(b, s, p, result);
  }

  /** The guard of `tokenize_line_comment` at a `%`. */
  method CommentGuardHolds(b: Buffer, ghost s: string, v: Variant) returns (guard: bool)
    requires Over(b, s) && b.i < |s|
    requires b.i == 0 ==> |b.queue| == Min(|s|, 2)
    modifies b
    ensures Over(b, s) && b.i == old(b.i)
    ensures guard <==> CommentGuard(v, s, b.i)
  {
    if v.AsWritten? {
      var prev := b.Peek(-1);
      guard := prev.None? || prev.value.text != "\\";
      if b.i == 0 {
        assert prev == Some(b.stream[Min(|s|, 2) - 1]);
      }
      assert prev.Some? && prev.value.text == PreviousElement(s, b.i);
    } else {
      guard := b.i == 0;
      if !guard {
        guard := AfterPlain(b, s);
      }
      if !guard {
        guard := AfterLineBreak(b, s);
      }
    }
  }

  /** The loop of `tokenize_line_comment`: up to the line break. */
  method CommentRest(b: Buffer, ghost s: string, ghost p: nat, c0: Token) returns (result: Token)
    requires Over(b, s) && p < b.i && c0 == Token(s[p..b.i], p)
    modifies b
    ensures Over(b, s) && b.i == CommentScan(s, old(b.i)) && result == Token(s[p..b.i], p)
  {
    result := c0;
    ghost var e0 := b.i;
    while true
      invariant Over(b, s) && e0 <= b.i <= |s|
      invariant result == Token(s[p..b.i], p)
      invariant CommentScan(s, b.i) == CommentScan(s, e0)
      decreases |s| - b.i
    {
      var stop := AtBreak(b, s);
      if stop {
        break;
      }
      result := TakeOne(b, s, p, result);
    }
  }

  /** The loop test of `tokenize_line_comment`, negated: `text.peek() == '\n'`
      or nothing is left. */
  method AtBreak(b: Buffer, ghost s: string) returns (stop: bool)
    requires Over(b, s)
    modifies b
    ensures Over(b, s) && b.i == old(b.i)
    ensures stop <==> b.i >= |s| || s[b.i] == '\n'
  {
    var nl := PeekIs(b, s, 0, 1, "\n");
    PeekedOne(s, b.i, '\n');
    if nl {
      return true;
    }
    var more := More(b, s);
    stop := !more;
  }

  /** `result += text.forward(1)`. */
  method TakeOne(b: Buffer, ghost s: string, ghost p: nat, result: Token) returns (r: Token)
    requires Over(b, s) && p <= b.i < |s| && result == Token(s[p..b.i], p)
    modifies b
    ensures Over(b, s) && b.i == old(b.i) + 1 && r == Token(s[p..b.i], p)
  {
    ghost var e := b.i;
    var t := Take(b, s, 1);
    Extend(s, p, e, 1);
    r := Add(result, t);
  }

  /** `tokenize_argument`. */
  method TokenizeArgument(b: Buffer, ghost s: string) returns (r: Option<Token>)
    requires Over(b, s)
    modifies b
    ensures Over(b, s)
    ensures Recognised(s, old(b.i), ArgumentEnd(s, old(b.i)), r, b.i)
  {
    ghost var p := b.i;
    ArgTables();
    assert p < |s| ==> Peeked(s, p, p + 1) == [s[p]];
    var delims := ArgTokens();
    var k := 0;
    while k < |delims|
      invariant Over(b, s) && b.i == p && k <= |delims|
      invariant forall j :: 0 <= j < k ==> Peeked(s, p, p + 1) != delims[j]
    {
      var d := delims[k];
      var sw := LooksAt(b, s, d);
      if sw {
        var t := Take(b, s, |d|);
        return Some(t);
      }
      k := k + 1;
    }
    return None;
  }

  /** `tokenize_math`; the token keeps the position `forward` gave it. */
  method TokenizeMath(b: Buffer, ghost s: string) returns (r: Option<Token>)
    requires Over(b, s)
    modifies b
    ensures Over(b, s)
    ensures Recognised(s, old(b.i), MathEnd(s, old(b.i)), r, b.i)
  {
    ghost var p := b.i;
    var sw := LooksAt(b, s, "$");
    PeekedOne(s, p, '$');
    if !sw {
      return None;
    }
    var ok := b.i == 0;
    if !ok {
      ok := AfterPlain(b, s);
    }
    if !ok {
      ok := AfterLineBreak(b, s);
    }
    if !ok {
      return None;
    }
    var dd := LooksAt(b, s, "$$");
    PeekedPair(s, p, "$$");
    var n := if dd then 2 else 1;
    var t := Take(b, s, n);
    return Some(t);
  }

  /** `tokenize_string` with the default delimiters. */
  method TokenizeString(b: Buffer, ghost s: string) returns (r: Token)
    requires Over(b, s)
    modifies b
    ensures Over(b, s)
    ensures r == Token(s[old(b.i)..StringScan(s, old(b.i))], old(b.i)) && b.i == StringScan(s, old(b.i))
  {
    ghost var p := b.i;
    var result := Token("", b.i);
    while true
      invariant Over(b, s) && p <= b.i <= |s|
      invariant result == Token(s[p..b.i], p)
      invariant StringScan(s, b.i) == StringScan(s, p)
      decreases |s| - b.i
    {
      var done;
      done, result := StringStep(b, s, p, result);
      if done {
        break;
      }
    }
    return result;
  }

  /** One pass of the loop of `tokenize_string`: `done` once the token is
      complete. */
  method StringStep(b: Buffer, ghost s: string, ghost p: nat, result0: Token) returns (done: bool, result: Token)
    requires Over(b, s) && p <= b.i && result0 == Token(s[p..b.i], p)
    modifies b
    ensures Over(b, s) && p <= b.i && result == Token(s[p..b.i], p)
    ensures done ==> b.i == StringScan(s, old(b.i))
    ensures !done ==> old(b.i) < b.i && StringScan(s, b.i) == StringScan(s, old(b.i))
  {
    ghost var k := b.i;
    result := result0;
    var c := StringPiece(b, s);
    if c.None? {
      return true, result;
    }
    Extend(s, p, k, b.i - k);
    result := Add(result, c.value);
    ghost var m := b.i;
    ghost var m1 := if PairAt(s, m, '\\', '\\') then m + 2 else m;
    StringScanStep(s, k, m, m1);
    done, result := StringBreaks(b, s, p, result);
  }

  /** The tail of the loop of `tokenize_string`: a `\\` next is taken
      along, then a `\n\n` next is taken and completes the token. */
  method StringBreaks(b: Buffer, ghost s: string, ghost p: nat, result0: Token) returns (done: bool, result: Token)
    requires Over(b, s) && p <= b.i && result0 == Token(s[p..b.i], p)
    modifies b
    ensures Over(b, s) && p <= b.i && result == Token(s[p..b.i], p)
    ensures var m := old(b.i); var m1 := if PairAt(s, m, '\\', '\\') then m + 2 else m;
      (done <==> PairAt(s, m1, '\n', '\n')) && b.i == (if done then m1 + 2 else m1)
  {
    result := result0;
    ghost var m := b.i;
    var w := TakePair(b, s, "\\\\");
    if w.Some? {
      Extend(s, p, m, 2);
      result := Add(result, w.value);
    }
    ghost var m1 := b.i;
    var w2 := TakePair(b, s, "\n\n");
    if w2.Some? {
      Extend(s, p, m1, 2);
      result := Add(result, w2.value);
      return true, result;
    }
    return false, result;
  }

  /** `if text.peek((0, 2)) == pat: text.forward(2)`. */
  method TakePair(b: Buffer, ghost s: string, pat: string) returns (t: Option<Token>)
    requires Over(b, s) && |pat| == 2
    modifies b
    ensures Over(b, s)
    ensures t.Some? <==> PairAt(s, old(b.i), pat[0], pat[1])
    ensures t.Some? ==> b.i == old(b.i) + 2 && t.value == Token(s[old(b.i)..b.i], old(b.i))
    ensures t.None? ==> b.i == old(b.i)
  {
    var w := PeekIs(b, s, 0, 2, pat);
    PeekedPair(s, b.i, pat);
    if w {
      var u := Take(b, s, 2);
      return Some(u);
    }
    return None;
  }

  /** `StringScan` past a character or an absorbed pair. */
  lemma StringScanStep(s: string, k: nat, m: nat, m1: nat)
    requires k < |s| && !(s[k] != '\\' && IsDelimiterChar(s[k])) && !(s[k] == '\\' && !Absorbs(s, k))
    requires m == (if s[k] == '\\' then k + 2 else k + 1)
    requires m1 == (if PairAt(s, m, '\\', '\\') then m + 2 else m)
    ensures m1 <= |s|
    ensures StringScan(s, k) == if PairAt(s, m1, '\n', '\n') then m1 + 2 else StringScan(s, m1)
  {
  }

  /** The head of the loop of `tokenize_string` at cursor `k`: the next
      character, or a backslash with the delimiter it absorbs; `None`, with
      the cursor back at `k`, at the end or at any other delimiter. */
  method StringPiece(b: Buffer, ghost s: string) returns (c: Option<Token>)
    requires Over(b, s)
    modifies b
    ensures Over(b, s)
    ensures var k := old(b.i);
      (c.None? <==> k == |s| || (s[k] != '\\' && IsDelimiterChar(s[k])) || (s[k] == '\\' && !Absorbs(s, k)))
      && (c.None? ==> b.i == k)
      && (c.Some? ==> b.i == (if s[k] == '\\' then k + 2 else k + 1) && c.value == Token(s[k..b.i], k))
  {
    ghost var k := b.i;
    var next := b.Next();
    if next.None? {
      return None;
    }
    var d := next.value;
    assert d == Token([s[k]], k);
    DelimiterTable(s[k]);
    var absorb := d.text == "\\";
    if absorb {
      absorb := Absorbing(b, s, d);
    }
    if absorb {
      var n2 := b.Next();
      assert n2 == Some(Token([s[k + 1]], k + 1));
      Pair(s, k);
      return Some(Add(d, n2.value));
    } else if d.text in AllTokens() {
      var back := b.Backward(1);
      return None;
    }
    return Some(d);
  }

  lemma Pair(s: string, k: nat)
    requires k + 2 <= |s|
    ensures s[k..k + 2] == [s[k]] + [s[k + 1]]
  {
  }

  /** `str(text.peek()) in delimiters and str(c + text.peek()) not in
      delimiters`, for the backslash `c` just taken. */
  method Absorbing(b: Buffer, ghost s: string, c: Token) returns (r: bool)
    requires Over(b, s) && 1 <= b.i && s[b.i - 1] == '\\' && c.text == "\\"
    modifies b
    ensures Over(b, s) && b.i == old(b.i)
    ensures r <==> Absorbs(s, b.i - 1)
  {
    var nx := b.PeekRange(0, 1);
    WindowIs(b, s, b.i, b.i + 1);
    if b.i < |s| {
      DelimiterTable(s[b.i]);
      assert nx.Text() == [s[b.i]];
    } else {
      DelimiterTable('\\');
      assert nx.Text() == "";
    }
    r := nx.Text() in AllTokens() && c.text + nx.Text() !in AllTokens();
  }

  /** `next_token`: the recognisers in registration order, the first that
      applies winning; `None` once the text is used up. (The source wraps
      the chain in `while text.hasNext()`, whose body always returns.) */
  method NextToken(b: Buffer, ghost s: string, points: seq<string>, v: Variant) returns (r: Option<Token>)
    requires Over(b, s) && (b.i == 0 ==> b.queue == [])
    modifies b
    ensures Over(b, s)
    ensures old(b.i) == |s| ==> r.None? && b.i == old(b.i)
    ensures old(b.i) < |s| ==>
      r == Some(Tokens.NextToken(v, s, old(b.i), points)) && b.i == NextEnd(v, s, old(b.i), points)
  {
    var more := More(b, s);
    if !more {
      return None;
    }
    r := TokenizePunctuationCommand(b, s, points);
    if r.Some? {
      return;
    }
    r := TokenizeCommand(b, s);
    if r.Some? {
      return;
    }
    r := TokenizeLineComment(b, s, v);
    if r.Some? {
      return;
    }
    r := TokenizeArgument(b, s);
    if r.Some? {
      return;
    }
    r := TokenizeMath(b, s);
    if r.Some? {
      return;
    }
    var t := TokenizeString(b, s);
    return Some(t);
  }

  /** `tokenize`: the tokens `next_token` yields, up to the end of the text
      or up to the first empty token, from which on the source yields the
      empty string forever. */
  method Tokenize(s: string, points: seq<string>, v: Variant) returns (ts: seq<Token>, stuck: bool)
    ensures (ts, stuck) == Tokens.Tokenize(v, s, points)
  {
    var b := new Buffer(CharsOf(s));
    CharStream(s);
    ghost var all := Tokens.Tokenize(v, s, points);
    ts := [];
    stuck := false;
    assert ts + all.0 == all.0;
    assert Tokenizing(v, s, 0, points, ts, all);
    while true
      invariant Over(b, s) && (b.i == 0 ==> b.queue == [])
      invariant Tokenizing(v, s, b.i, points, ts, all)
      decreases |s| - b.i
    {
      ghost var p := b.i;
      var t := NextToken(b, s, points, v);
      if t.None? {
        TokenizingEnds(v, s, p, points, ts, all);
        break;
      }
      if t.value.text == "" {
        TokenizingSticks(v, s, p, points, ts, all);
        stuck := true;
        break;
      }
      TokenizingGoes(v, s, p, points, ts, all);
      ts := ts + [t.value];
    }
  }

  /** The tokens taken so far (`ts`) and those `tokenize` takes from offset
      `i` on make up its whole output `all`. */
  ghost predicate Tokenizing(v: Variant, s: string, i: nat, points: seq<string>, ts: seq<Token>, all: (seq<Token>, bool))
  {
    i <= |s| && all.0 == ts + TokenizeFrom(v, s, i, points).0 && all.1 == TokenizeFrom(v, s, i, points).1
  }

  lemma TokenizingEnds(v: Variant, s: string, i: nat, points: seq<string>, ts: seq<Token>, all: (seq<Token>, bool))
    requires i == |s| && Tokenizing(v, s, i, points, ts, all)
    ensures (ts, false) == all
  {
    assert ts + [] == ts;
  }

  lemma TokenizingSticks(v: Variant, s: string, i: nat, points: seq<string>, ts: seq<Token>, all: (seq<Token>, bool))
    requires i < |s| && Tokens.NextToken(v, s, i, points).text == "" && Tokenizing(v, s, i, points, ts, all)
    ensures (ts, true) == all
  {
    TokenizeStep(v, s, i, points);
    assert ts + [] == ts;
  }

  lemma TokenizingGoes(v: Variant, s: string, i: nat, points: seq<string>, ts: seq<Token>, all: (seq<Token>, bool))
    requires i < |s| && Tokens.NextToken(v, s, i, points).text != "" && Tokenizing(v, s, i, points, ts, all)
    ensures i < NextEnd(v, s, i, points)
    ensures Tokenizing(v, s, NextEnd(v, s, i, points), points, ts + [Tokens.NextToken(v, s, i, points)], all)
  {
    var e := NextEnd(v, s, i, points);
    var rest := TokenizeFrom(v, s, e, points);
    TokenizeStep(v, s, i, points);
    assert ts + ([Tokens.NextToken(v, s, i, points)] + rest.0) == (ts + [Tokens.NextToken(v, s, i, points)]) + rest.0;
  }

  /** One step of `tokenize`. */
  lemma TokenizeStep(v: Variant, s: string, p: nat, points: seq<string>)
    requires p < |s|
    ensures var e := NextEnd(v, s, p, points);
      TokenizeFrom(v, s, p, points) ==
        if e == p then ([], true)
        else ([Tokens.NextToken(v, s, p, points)] + TokenizeFrom(v, s, e, points).0, TokenizeFrom(v, s, e, points).1)
  {
  }
}
