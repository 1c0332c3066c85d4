/**
 * Strings that remember where they came from (`TokenWithPosition` in
 * TexSoup/utils.py): every token carries the absolute offset of its first
 * character in the LaTeX source, and each string operation computes the
 * offset of its result.
 */
module Positioned {

  import opened Wrappers
  import Strings

  /** A run of source text and the offset of its first character. */
  datatype Token = Token(text: string, position: int)

  /** What joining buffer elements yields: the plain empty string when there
      is nothing to join (it carries no position), otherwise a token. */
  datatype Joined = Empty | Joined(tok: Token)
  {
    function Text(): string
    {
      if Empty? then "" else tok.text
    }
  }

  datatype IndexError = IndexError

  /** `t + u` and `t += u` for a token `u`: the left operand's position is kept. */
  function Add(t: Token, u: Token): Token
  {
    Token(t.text + u.text, t.position)
  }

  /** `t + s` and `t += s` for a plain string `s`. */
  function AddText(t: Token, s: string): Token
  {
    Token(t.text + s, t.position)
  }

  /** `t + j` for whatever a buffer hands back: a token or the plain empty string. */
  function AddJoined(t: Token, j: Joined): Token
  {
    AddText(t, j.Text())
  }

  /** `s + t` for a plain string `s`: the result starts `|s|` characters earlier. */
  function RAdd(s: string, t: Token): Token
  {
    Token(s + t.text, t.position - |s|)
  }

  /** `==`: only the text is compared. */
  predicate Equal(a: Token, b: Token)
  {
    a.text == b.text
  }

  /** What `hash` is computed from: the text alone. */
  function HashKey(t: Token): string
  {
    t.text
  }

  /** `t[i]` for an integer `i`; a negative index counts from the end. */
  function At(t: Token, i: int): (r: Result<Token, IndexError>)
  {
    if 0 <= i < |t.text| then Ok(Token([t.text[i]], t.position + i))
    else if -|t.text| <= i < 0 then Ok(Token([t.text[|t.text| + i]], t.position + |t.text| + i))
    else Failure(IndexError)
  }

  /** `t[start:stop]`: the text is sliced as Python does, and the position moves by
      the start bound after only the negative-index adjustment (it is not clipped). */
  function Slice(t: Token, start: Option<int>, stop: Option<int>): Token
  {
    var s := if start.Some? then start.value else 0;
    var s' := if s < 0 then |t.text| + s else s;
    Token(Strings.PySlice(t.text, start, stop), t.position + s')
  }

  /** Iterating a token: one token per character. */
  function Chars(t: Token): (r: seq<Token>)
    ensures |r| == |t.text|
  {
    seq(|t.text|, k requires 0 <= k < |t.text| => Token([t.text[k]], t.position + k))
  }

  /** `TokenWithPosition.join(tokens, glue)`. */
  function Join(tokens: seq<Token>, glue: string): Joined
  {
    if |tokens| > 0 then Joined(Token(Strings.JoinWith(Texts(tokens), glue), tokens[0].position))
    else Empty
  }

  function Texts(tokens: seq<Token>): (r: seq<string>)
    ensures |r| == |tokens|
    ensures forall k :: 0 <= k < |tokens| ==> r[k] == tokens[k].text
  {
    seq(|tokens|, k requires 0 <= k < |tokens| => tokens[k].text)
  }

  /** `t.strip(chars)`, `t.lstrip(chars)`, `t.rstrip(chars)`: the piece is placed
      where `text.find(piece)` locates it. */
  function StripWith(t: Token, stripped: string): Token
  {
    var offset := Strings.Find(t.text, stripped, 0);
    Token(stripped, t.position + offset)
  }

  function Strip(t: Token, sc: Strings.StripChars): Token
  {
    StripWith(t, Strings.Strip(t.text, sc))
  }

  function LStrip(t: Token, sc: Strings.StripChars): Token
  {
    StripWith(t, Strings.LStrip(t.text, sc))
  }

  function RStrip(t: Token, sc: Strings.StripChars): Token
  {
    StripWith(t, Strings.RStrip(t.text, sc))
  }

  /** `str.find(pat, start)` for any integer start, as Python normalises it. */
  function FindFrom(s: string, pat: string, start: int): int
  {
    if start > |s| then -1 else Strings.Find(s, pat, Strings.ClipBound(start, |s|))
  }

  datatype ValueError = ValueError

  /** Placement rule of `split` as the source writes it: piece `k` is placed at the
      first occurrence of its text at or after the offset where piece `k - 1` was
      placed (not after its end). */
  ghost predicate PlacedAsWritten(t: Token, pieces: seq<string>, r: seq<Token>)
  {
    |r| == |pieces| && PlacedPrefix(t, pieces, r)
  }

  /** The first `|r|` pieces are placed by that rule. */
  ghost predicate PlacedPrefix(t: Token, pieces: seq<string>, r: seq<Token>)
  {
    |r| <= |pieces|
    && forall k :: 0 <= k < |r| ==> PlacedAsWrittenAt(t, pieces[k], PreviousOffset(t, r, k), r[k])
  }

  /** Appending a piece leaves the offsets of the pieces before it alone. */
  lemma PreviousOffsetSnoc(t: Token, r: seq<Token>, p: Token, k: nat)
    requires k <= |r|
    ensures PreviousOffset(t, r + [p], k) == PreviousOffset(t, r, k)
  {
    if k > 0 {
      assert (r + [p])[k - 1] == r[k - 1];
    }
  }

  /** Placing the next piece by the rule extends the placed prefix. */
  lemma PlacedSnoc(t: Token, pieces: seq<string>, r: seq<Token>, p: Token)
    requires |r| < |pieces| && PlacedPrefix(t, pieces, r)
    requires PlacedAsWrittenAt(t, pieces[|r|], PreviousOffset(t, r, |r|), p)
    ensures PlacedPrefix(t, pieces, r + [p])
  {
    var r' := r + [p];
    forall k | 0 <= k < |r'|
      ensures PlacedAsWrittenAt(t, pieces[k], PreviousOffset(t, r', k), r'[k])
    {
      PreviousOffsetSnoc(t, r, p, k);
      if k < |r| {
        assert r'[k] == r[k];
      } else {
        assert r'[k] == p;
      }
    }
  }

  /** Where the search for piece `k` starts, as written: the offset of piece `k - 1`. */
  ghost function PreviousOffset(t: Token, r: seq<Token>, k: nat): int
    requires k <= |r|
  {
    if k == 0 then 0 else r[k - 1].position - t.position
  }

  /** One piece of `split` as written: found at or after `from`. */
  ghost predicate PlacedAsWrittenAt(t: Token, piece: string, from: int, p: Token)
  {
    p.text == piece && p.position == t.position + FindFrom(t.text, piece, from)
  }

  /** The intended placement: pieces lie end to end, one separator apart,
      starting at the token's own position. */
  ghost predicate Consecutive(t: Token, sep: string, r: seq<Token>)
  {
    |r| > 0 && r[0].position == t.position
    && forall k :: 0 <= k < |r| - 1 ==> r[k + 1].position == r[k].position + |r[k].text| + |sep|
  }

  /** `t.split(sep)` as written in the source (an empty separator is Python's ValueError). */
  method SplitAsWritten(t: Token, sep: string) returns (r: Result<seq<Token>, ValueError>)
    ensures r.Failure? <==> sep == ""
    ensures r.Ok? ==> PlacedAsWritten(t, Strings.Split(t.text, sep), r.value)
  {
    if sep == "" {
      return Failure(ValueError);
    }
    var pieces := Strings.Split(t.text, sep);
    var result: seq<Token> := [];
    var curOffset := 0;
    for k := 0 to |pieces|
      invariant |result| == k
      invariant curOffset == PreviousOffset(t, result, k)
      invariant PlacedPrefix(t, pieces, result)
    {
      var from := curOffset;
      curOffset := FindFrom(t.text, pieces[k], from);
      var p := Token(pieces[k], t.position + curOffset);
      PlacedSnoc(t, pieces, result, p);
      result := result + [p];
    }
    return Ok(result);
  }

  /** `split` with the search offset moved past each piece and its separator, so
      every piece is placed at its own offset. */
  method Split(t: Token, sep: string) returns (r: Result<seq<Token>, ValueError>)
    ensures r.Failure? <==> sep == ""
    ensures r.Ok? ==> Texts(r.value) == Strings.Split(t.text, sep)
    ensures r.Ok? ==> Consecutive(t, sep, r.value)
    ensures r.Ok? ==> Join(r.value, sep) == Joined(t)
  {
    if sep == "" {
      return Failure(ValueError);
    }
    var pieces := Strings.Split(t.text, sep);
    var result: seq<Token> := [];
    var curOffset := 0;
    for k := 0 to |pieces|
      invariant |result| == k
      invariant curOffset == Offset(pieces, sep, k)
      invariant forall j :: 0 <= j < k ==> result[j] == Token(pieces[j], t.position + Offset(pieces, sep, j))
    {
      FoundAtOffset(t.text, sep, k);
      curOffset := FindFrom(t.text, pieces[k], curOffset);
      result := result + [Token(pieces[k], t.position + curOffset)];
      OffsetStep(pieces, sep, k);
      curOffset := curOffset + |pieces[k]| + |sep|;
    }
    AtOffsetsAreConsecutive(t, sep, pieces, result);
    SplitJoin(t.text, sep);
    return Ok(result);
  }

  /** Searching for a piece from its own offset finds it there. */
  lemma FoundAtOffset(s: string, sep: string, k: nat)
    requires sep != "" && k < |Strings.Split(s, sep)|
    ensures FindFrom(s, Strings.Split(s, sep)[k], Offset(Strings.Split(s, sep), sep, k)) == Offset(Strings.Split(s, sep), sep, k)
  {
    var pieces := Strings.Split(s, sep);
    var o := Offset(pieces, sep, k);
    SplitJoin(s, sep);
    JoinWithPieceAt(pieces, sep, k);
    assert Strings.OccursAt(s, pieces[k], o);
  }

  lemma AtOffsetsAreConsecutive(t: Token, sep: string, pieces: seq<string>, r: seq<Token>)
    requires |pieces| >= 1 && |r| == |pieces|
    requires forall j :: 0 <= j < |r| ==> r[j] == Token(pieces[j], t.position + Offset(pieces, sep, j))
    ensures Texts(r) == pieces
    ensures Consecutive(t, sep, r)
  {
    forall k | 0 <= k < |r| - 1
      ensures r[k + 1].position == r[k].position + |r[k].text| + |sep|
    {
      OffsetStep(pieces, sep, k);
    }
  }

  /** Where the `k`-th part starts in `glue.join(parts)`. */
  function Offset(parts: seq<string>, glue: string, k: nat): nat
    requires k <= |parts|
  {
    if k == 0 then 0 else |parts[0]| + |glue| + Offset(parts[1..], glue, k - 1)
  }

  lemma {:induction false} OffsetStep(parts: seq<string>, glue: string, k: nat)
    requires k < |parts|
    ensures Offset(parts, glue, k + 1) == Offset(parts, glue, k) + |parts[k]| + |glue|
    decreases k
  {
    if k > 0 {
      OffsetStep(parts[1..], glue, k - 1);
      assert parts[1..][k - 1] == parts[k];
    }
  }

  /** Each part of a join sits at its offset. */
  lemma {:induction false} JoinWithPieceAt(parts: seq<string>, glue: string, k: nat)
    requires k < |parts|
    ensures Strings.OccursAt(Strings.JoinWith(parts, glue), parts[k], Offset(parts, glue, k))
    decreases k
  {
    var s := Strings.JoinWith(parts, glue);
    if |parts| == 1 {
      assert s == parts[0];
    } else if k == 0 {
      assert s == parts[0] + glue + Strings.JoinWith(parts[1..], glue);
      assert s[..|parts[0]|] == parts[0];
    } else {
      var rest := Strings.JoinWith(parts[1..], glue);
      assert s == parts[0] + glue + rest;
      JoinWithPieceAt(parts[1..], glue, k - 1);
      var o := Offset(parts[1..], glue, k - 1);
      var d := |parts[0]| + |glue|;
      assert s[d + o..d + o + |parts[k]|] == rest[o..o + |parts[k]|];
    }
  }

  lemma JoinCons(a: string, tail: seq<string>, glue: string)
    requires |tail| >= 1
    ensures Strings.JoinWith([a] + tail, glue) == a + glue + Strings.JoinWith(tail, glue)
  {
    assert ([a] + tail)[1..] == tail;
  }

  /** Joining the pieces of a split with the separator gives the text back. */
  lemma {:induction false} SplitJoin(s: string, sep: string)
    requires sep != ""
    ensures Strings.JoinWith(Strings.Split(s, sep), sep) == s
    decreases |s|
  {
    var k := Strings.Find(s, sep, 0);
    if k != -1 {
      assert Strings.OccursAt(s, sep, k);
      var rest := s[k + |sep|..];
      var tail := Strings.Split(rest, sep);
      assert Strings.Split(s, sep) == [s[..k]] + tail;
      SplitJoin(rest, sep);
      JoinCons(s[..k], tail, sep);
      ThreeParts(s, k, k + |sep|);
    }
  }

  lemma ThreeParts(s: string, a: nat, b: nat)
    requires a <= b <= |s|
    ensures s == s[..a] + s[a..b] + s[b..]
  {
  }

  /** As written, repeated pieces are all placed at the first one's offset:
      `TokenWithPosition('a,a', 0).split(',')` gives positions 0 and 0, where the
      second piece starts at 2. */
  lemma SplitAsWrittenMisplaces(t: Token, r: seq<Token>)
    requires t == Token("a,a", 0)
    requires PlacedAsWritten(t, Strings.Split(t.text, ","), r)
    ensures |r| == 2 && r[0] == Token("a", 0) && r[1] == Token("a", 0)
    ensures !Consecutive(t, ",", r)
  {
    SplitOfAA();
    var pieces := Strings.Split(t.text, ",");
    assert PlacedAsWrittenAt(t, pieces[0], PreviousOffset(t, r, 0), r[0]);
    assert PlacedAsWrittenAt(t, pieces[1], PreviousOffset(t, r, 1), r[1]);
  }

  lemma SplitOfAA()
    ensures Strings.Split("a,a", ",") == ["a", "a"]
    ensures FindFrom("a,a", "a", 0) == 0
  {
    assert "a,a"[0..1] == "a" && "a,a"[1..2] == "," && "a,a"[..1] == "a" && "a,a"[2..] == "a";
    assert Strings.Find("a,a", ",", 1) == 1;
    assert Strings.Find("a,a", ",", 0) == 1;
    assert Strings.Find("a", ",", 1) == -1;
    assert Strings.Find("a", ",", 0) == -1;
    assert Strings.Split("a", ",") == ["a"];
  }

  /** Stripping places the remaining text at its own offset: after the removed
      leading characters when anything is left, at the token's start otherwise. */
  lemma {:induction false} StripPlacesPiece(t: Token, sc: Strings.StripChars)
    ensures Strip(t, sc).text == Strings.Strip(t.text, sc)
    ensures Strip(t, sc).text != "" ==> Strip(t, sc).position == t.position + Strings.LeadingCount(t.text, sc)
    ensures Strip(t, sc).text == "" ==> Strip(t, sc).position == t.position
    ensures LStrip(t, sc).text != "" ==> LStrip(t, sc).position == t.position + Strings.LeadingCount(t.text, sc)
    ensures RStrip(t, sc).position == t.position
  {
    var s := t.text;
    var n := Strings.LeadingCount(s, sc);
    var ls := Strings.LStrip(s, sc);
    var st := Strings.Strip(s, sc);
    assert st == s[n..][..|st|];
    FirstOccurrenceAfterStripped(s, sc, n, st);
    FirstOccurrenceAfterStripped(s, sc, n, ls);
    var rs := Strings.RStrip(s, sc);
    assert Strings.OccursAt(s, rs, 0);
  }

  /** A piece that starts right after the stripped prefix is first found there. */
  lemma FirstOccurrenceAfterStripped(s: string, sc: Strings.StripChars, n: nat, piece: string)
    requires n == Strings.LeadingCount(s, sc)
    requires n + |piece| <= |s| && s[n..n + |piece|] == piece
    ensures piece != "" ==> Strings.Find(s, piece, 0) == n
    ensures piece == "" ==> Strings.Find(s, piece, 0) == 0
  {
    assert Strings.OccursAt(s, piece, n);
    if piece != "" {
      forall j | 0 <= j < n
        ensures !Strings.OccursAt(s, piece, j)
      {
        assert Strings.Strips(sc, s[j]);
        assert piece[0] == s[n];
        if j + |piece| <= |s| {
          assert s[j..j + |piece|][0] == s[j];
        }
      }
    } else {
      assert Strings.OccursAt(s, piece, 0);
    }
  }

  /** Concatenation keeps both operands recoverable: slicing the sum at the left
      operand's length gives back the left operand, and, when the right operand
      started where the left one ended, the right operand too. */
  lemma AddThenSlice(t: Token, u: Token)
    ensures Slice(Add(t, u), Some(0), Some(|t.text|)) == t
    ensures u.position == t.position + |t.text| ==> Slice(Add(t, u), Some(|t.text|), None) == u
  {
    var s := t.text + u.text;
    assert Strings.PySlice(s, Some(0), Some(|t.text|)) == t.text by {
      if |t.text| > 0 { assert s[0..|t.text|] == t.text; }
    }
    assert Strings.PySlice(s, Some(|t.text|), None) == u.text by {
      if |u.text| > 0 { assert s[|t.text|..|s|] == u.text; }
    }
  }

  /** `s + t` starts `|s|` characters before `t`, so slicing it at `|s|` gives `t` back. */
  lemma RAddThenSlice(s: string, t: Token)
    ensures Slice(RAdd(s, t), Some(|s|), None) == t
    ensures RAdd(s, t).position + |s| == t.position
  {
    var w := s + t.text;
    assert Strings.PySlice(w, Some(|s|), None) == t.text by {
      if |t.text| > 0 { assert w[|s|..|w|] == t.text; }
    }
  }

  /** The doctests of `__add__`, `__radd__` and `__iadd__`. */
  lemma AddDoctests()
    ensures Add(Token("as", 0), Token("df", 1)) == Token("asdf", 0)
    ensures AddText(Token("as", 1), "df") == Token("asdf", 1)
    ensures Add(Token("as", 2), Token("dfg", 2)) == Token("asdfg", 2)
    ensures RAdd("as", Token("dfg", 2)) == Token("asdfg", 0)
    ensures AddText(Token("as", 0), "df") == Token("asdf", 0)
  {
  }

  /** Equality and hashing look at the text only: a token equals any token
      with its text wherever that one sits, equal tokens hash alike, equality
      is an equivalence, and at one position it is plain identity. */
  lemma EqualityIgnoresPosition(a: Token, b: Token, c: Token, p: int)
    ensures Equal(a, Token(a.text, p))
    ensures Equal(a, b) ==> HashKey(a) == HashKey(b)
    ensures Equal(a, b) ==> Equal(b, a)
    ensures Equal(a, b) && Equal(b, c) ==> Equal(a, c)
    ensures a.position == b.position ==> (Equal(a, b) <==> a == b)
    ensures Equal(Token("asdf", 0), Token("asdf", 2))
    ensures !Equal(Token("asdf", 0), Token("asd", 0))
  {
  }

  /** Character `k` of a token sits at position `position + k`, whether reached by
      iteration, by a non-negative index, or by the matching negative index. */
  lemma CharsAreIndexed(t: Token, k: int)
    requires 0 <= k < |t.text|
    ensures Chars(t)[k] == At(t, k).value
    ensures At(t, k - |t.text|) == At(t, k)
    ensures At(t, k).value == Token([t.text[k]], t.position + k)
  {
  }

  /** Indexing outside `[-len, len)` is an IndexError. */
  lemma AtOutOfRange(t: Token, i: int)
    ensures At(t, i).Failure? <==> (i < -|t.text| || i >= |t.text|)
  {
  }

  /** `item in t`, for a string or a token `item`: a test on the texts. */
  function Contains(t: Token, item: string): bool
  {
    Strings.Find(t.text, item, 0) != -1
  }

  /** `item in t` for a token `item`: its text, wherever it sits, is looked for. */
  function ContainsToken(t: Token, item: Token): (r: bool)
    ensures r <==> exists k :: Strings.OccursAt(t.text, item.text, k)
  {
    ContainsIsOccurrence(t, item.text);
    Contains(t, item.text)
  }

  lemma ContainsIsOccurrence(t: Token, item: string)
    ensures Contains(t, item) <==> exists k :: Strings.OccursAt(t.text, item, k)
  {
    if exists k :: Strings.OccursAt(t.text, item, k) {
      var k :| Strings.OccursAt(t.text, item, k);
      assert Strings.Find(t.text, item, 0) != -1;
    }
  }

  /** The doctests of `__contains__`. */
  lemma ContainsDoctests(t: Token)
    requires t == Token("corgi", 0)
    ensures Contains(t, "rg")
    ensures !Contains(t, "reg")
    ensures ContainsToken(t, Token("rg", 0))
  {
    assert Strings.OccursAt(t.text, "rg", 2) by {
      assert t.text[2..4] == "rg";
    }
    ContainsIsOccurrence(t, "rg");
    forall k | 0 <= k
      ensures !Strings.OccursAt(t.text, "reg", k)
    {
      if k + 3 <= |t.text| {
        assert t.text[k..k + 3][1] == t.text[k + 1] != 'e';
      }
    }
    ContainsIsOccurrence(t, "reg");
  }
}
