/**
 * The tokenizer of TexSoup/tokens.py (and its copy in TexSoup/reader.py),
 * stated on a source string: every recogniser is a function from the
 * cursor to the end of the token it takes, or `None` when it does not
 * apply.  The methods of module `Tokenizer` run the same recognisers on a
 * `Buffer` of the string's characters and are proved to agree with these
 * functions.
 */
module Tokens {

  import opened Wrappers
  import opened Strings
  import opened Positioned
  import Data
  import opened Buffers

  // ---------------------------------------------------------------------
  // Token tables
  // ---------------------------------------------------------------------

  const CommandTokens: seq<string> := ["\\"]
  const MathSwitchTokens: seq<string> := ["$", "$$"]
  const MathStartTokens: seq<string> := ["\\[", "\\("]
  const MathEndTokens: seq<string> := ["\\]", "\\)"]
  const MathTokens: seq<string> := MathSwitchTokens + MathStartTokens + MathEndTokens
  const CommentTokens: seq<string> := ["%"]

  /** `itertools.chain` of a sequence of sequences. */
  function Flatten<T>(xss: seq<seq<T>>): (r: seq<T>)
  {
    if xss == [] then [] else xss[0] + Flatten(xss[1..])
  }

  /** The delimiter pairs of the argument types, flattened in their order. */
  function ArgTokens(): seq<string>
  {
    Flatten(seq(|Data.ArgTypes|, k requires 0 <= k < |Data.ArgTypes| => Data.Delims(Data.ArgTypes[k])))
  }

  /** `xs[::2]` and `xs[1::2]`. */
  function Evens<T>(xs: seq<T>): (r: seq<T>)
    ensures |r| == (|xs| + 1) / 2
    ensures forall k :: 0 <= k < |r| ==> r[k] == xs[2 * k]
  {
    if |xs| <= 1 then xs else [xs[0]] + Evens(xs[2..])
  }

  function Odds<T>(xs: seq<T>): (r: seq<T>)
    ensures |r| == |xs| / 2
    ensures forall k :: 0 <= k < |r| ==> r[k] == xs[2 * k + 1]
  {
    if |xs| <= 1 then [] else Evens(xs[1..])
  }

  function ArgStartTokens(): seq<string> { Evens(ArgTokens()) }
  function ArgEndTokens(): seq<string> { Odds(ArgTokens()) }

  function AllTokens(): seq<string>
  {
    CommandTokens + ArgTokens() + MathTokens + CommentTokens
  }

  /** The flattened delimiters: the brackets, then the braces. */
  lemma ArgTokensAre()
    ensures ArgTokens() == ["[", "]", "{", "}"]
  {
    Data.DelimsAre(Data.Optional);
    Data.DelimsAre(Data.Required);
    var pairs := seq(|Data.ArgTypes|, k requires 0 <= k < |Data.ArgTypes| => Data.Delims(Data.ArgTypes[k]));
    assert |pairs| == 2 && pairs[0] == ["[", "]"] && pairs[1] == ["{", "}"];
    var rest := pairs[1..];
    assert |rest| == 1 && rest[0] == ["{", "}"] && rest[1..] == [];
    assert Flatten(rest) == ["{", "}"] + Flatten(rest[1..]);
  }

  /** `ALL_TOKENS` spelled out. */
  lemma AllTokensAre()
    ensures AllTokens() == ["\\", "[", "]", "{", "}", "$", "$$", "\\[", "\\(", "\\]", "\\)", "%"]
  {
    ArgTokensAre();
    assert MathTokens == ["$", "$$", "\\[", "\\(", "\\]", "\\)"];
  }

  /** The flattened delimiters are the brackets then the braces; the starts
      are the even entries and the ends the odd ones, so the `k`-th start and
      the `k`-th end are the two delimiters of the `k`-th argument type. */
  lemma ArgTables()
    ensures ArgTokens() == ["[", "]", "{", "}"]
    ensures ArgStartTokens() == ["[", "{"] && ArgEndTokens() == ["]", "}"]
    ensures forall k :: 0 <= k < |Data.ArgTypes| ==>
      ArgStartTokens()[k] == Data.Open(Data.ArgTypes[k]) && ArgEndTokens()[k] == Data.Close(Data.ArgTypes[k])
    ensures AllTokens() == ["\\", "[", "]", "{", "}", "$", "$$", "\\[", "\\(", "\\]", "\\)", "%"]
  {
    ArgTokensAre();
    var a := ArgTokens();
    var e, o := Evens(a), Odds(a);
    assert |e| == 2 && e[0] == a[0] && e[1] == a[2];
    assert e == ["[", "{"];
    assert |o| == 2 && o[0] == a[1] && o[1] == a[3];
    assert o == ["]", "}"];
    Data.DelimsAre(Data.Optional);
    Data.DelimsAre(Data.Required);
    AllTokensAre();
  }

  /** Environments whose body is taken as one unparsed chunk. */
  const SkipEnvs: seq<string> := ["verbatim", "equation", "lstlisting", "align", "alignat",
    "equation*", "align*", "math", "displaymath", "split", "array",
    "eqnarray", "eqnarray*", "multline", "multline*", "gather",
    "gather*", "flalign", "flalign*",
    "$", "$$", "\\[", "\\]", "\\(", "\\)"]

  const SizePrefix: seq<string> := ["left", "right", "big", "Big", "bigg", "Bigg"]

  /** `BRACKETS_DELIMITERS` of tokens.py as Python evaluates it: `'.' '|'` is
      the one string `.|`, and the non-raw `'\rfloor'` starts with a carriage
      return. */
  const BracketsDelimiters: set<string> := {"(", ")", "<", ">", "[", "]", "{", "}",
    "\\{", "\\}", ".|", "\\langle", "\\rangle",
    "\\lfloor", "\rfloor", "\\lceil", "\\rceil",
    "\\ulcorner", "\\urcorner", "\\lbrack", "\\rbrack"}

  /** The same table in reader.py: there `'\rangle'`, `'\rfloor'`, `'\rceil'`
      and `'\rbrack'` are all non-raw and start with a carriage return, while
      `'\{'`, `'\langle'` and the other non-escapes keep their backslash. */
  const ReaderBracketsDelimiters: set<string> := {"(", ")", "<", ">", "[", "]", "{", "}",
    "\\{", "\\}", ".|", "\\langle", "\rangle",
    "\\lfloor", "\rfloor", "\\lceil", "\rceil",
    "\\ulcorner", "\\urcorner", "\\lbrack", "\rbrack"}

  /** The table with every entry raw, as the backslash names evidently intend. */
  const RawBracketsDelimiters: set<string> := {"(", ")", "<", ">", "[", "]", "{", "}",
    "\\{", "\\}", ".|", "\\langle", "\\rangle",
    "\\lfloor", "\\rfloor", "\\lceil", "\\rceil",
    "\\ulcorner", "\\urcorner", "\\lbrack", "\\rbrack"}

  /** `PUNCTUATION_COMMANDS`: every size prefix followed by every bracket,
      `|` and `.` included. */
  function PunctuationCommands(brackets: set<string>): (r: set<string>)
  {
    set c, b | c in SizePrefix && b in brackets + {"|", "."} :: c + b
  }

  /** No entry of a bracket table is empty or ends with a backslash. */
  predicate PlainBrackets(brackets: set<string>)
  {
    forall b :: b in brackets ==> b != "" && b[|b| - 1] != '\\'
  }

  /** The recogniser order of a punctuation table: the order `for point in
      PUNCTUATION_COMMANDS` visits it, which Python's sets leave open. */
  ghost predicate Enumerates(points: seq<string>, table: set<string>)
  {
    forall pt :: pt in points <==> pt in table
  }

  /** Neither an empty nor a backslash-ended point, as every table entry is. */
  predicate ProperPoints(points: seq<string>)
  {
    forall k :: 0 <= k < |points| ==> points[k] != "" && points[k][|points[k]| - 1] != '\\'
  }

  lemma TablesArePlain()
    ensures PlainBrackets(BracketsDelimiters)
    ensures PlainBrackets(ReaderBracketsDelimiters)
    ensures PlainBrackets(RawBracketsDelimiters)
  {
  }

  /** Every punctuation command is a size prefix and a bracket. */
  lemma PunctuationCommandShape(brackets: set<string>, pt: string)
    requires pt in PunctuationCommands(brackets)
    ensures exists c, b :: c in SizePrefix && b in brackets + {"|", "."} && pt == c + b
  {
  }

  /** So an ordering of a table of plain brackets has proper points. */
  lemma EnumeratedPointsAreProper(brackets: set<string>, points: seq<string>)
    requires PlainBrackets(brackets) && Enumerates(points, PunctuationCommands(brackets))
    ensures ProperPoints(points)
  {
    forall k | 0 <= k < |points|
      ensures points[k] != "" && points[k][|points[k]| - 1] != '\\'
    {
      assert points[k] in PunctuationCommands(brackets);
      var c, b :| c in SizePrefix && b in brackets + {"|", "."} && points[k] == c + b;
      assert b != "" && b[|b| - 1] != '\\';
      assert points[k][|points[k]| - 1] == b[|b| - 1];
    }
  }

  /** Points that start with an ASCII letter, as every punctuation command
      does: its size prefix is a word. */
  predicate LetterLed(points: seq<string>)
  {
    forall k :: 0 <= k < |points| ==> points[k] != "" && IsAsciiLetter(points[k][0])
  }

  predicate IsAsciiLetter(c: char)
  {
    ('a' <= c <= 'z') || ('A' <= c <= 'Z')
  }

  lemma EnumeratedPointsAreLetterLed(brackets: set<string>, points: seq<string>)
    requires Enumerates(points, PunctuationCommands(brackets))
    ensures LetterLed(points)
  {
    forall k | 0 <= k < |points|
      ensures points[k] != "" && IsAsciiLetter(points[k][0])
    {
      assert points[k] in PunctuationCommands(brackets);
      var c, b :| c in SizePrefix && b in brackets + {"|", "."} && points[k] == c + b;
      assert c != "" && IsAsciiLetter(c[0]);
      assert points[k][0] == c[0];
    }
  }

  /** The bracket `\rfloor` is in no table as Python evaluates the
      non-raw literals, so `\right\rfloor` is no punctuation command. */
  lemma RightFloorMissing()
    ensures "right\\rfloor" !in PunctuationCommands(BracketsDelimiters)
    ensures "right\\rfloor" !in PunctuationCommands(ReaderBracketsDelimiters)
  {
    var t := "right\\rfloor";
    assert t == "right" + "\\rfloor";
    SplitPoint(BracketsDelimiters, t);
    SplitPoint(ReaderBracketsDelimiters, t);
  }

  /** With raw literals `\right\rfloor`, and every other sized closer of the
      table, is a punctuation command. */
  lemma RawTableHasRightFloor()
    ensures "right\\rfloor" in PunctuationCommands(RawBracketsDelimiters)
    ensures forall c :: c in SizePrefix ==> c + "\\rangle" in PunctuationCommands(RawBracketsDelimiters)
    ensures forall c :: c in SizePrefix ==> c + "\\rceil" in PunctuationCommands(RawBracketsDelimiters)
    ensures forall c :: c in SizePrefix ==> c + "\\rbrack" in PunctuationCommands(RawBracketsDelimiters)
  {
    assert "right\\rfloor" == "right" + "\\rfloor";
    assert "\\rangle" in RawBracketsDelimiters && "\\rceil" in RawBracketsDelimiters;
    assert "\\rbrack" in RawBracketsDelimiters && "\\rfloor" in RawBracketsDelimiters;
  }

  /** An entry spelling `right` and a tail uses that tail as its bracket. */
  lemma SplitPoint(brackets: set<string>, t: string)
    requires t == "right\\rfloor"
    requires "\\rfloor" !in brackets
    ensures t !in PunctuationCommands(brackets)
  {
    forall c, b | c in SizePrefix && b in brackets + {"|", "."}
      ensures c + b != t
    {
      assert t[0] == 'r' && t[5..] == "\\rfloor";
      if c == "right" {
        assert (c + b)[5..] == b;
      } else {
        assert (c + b)[0] == c[0] != 'r';
      }
    }
  }

  // ---------------------------------------------------------------------
  // Character classes
  // ---------------------------------------------------------------------

  /** `string.punctuation`: the ASCII characters that are neither letters,
      digits, whitespace nor control characters. */
  predicate IsPunctuation(c: char)
  {
    ('!' <= c <= '/') || (':' <= c <= '@') || ('[' <= c <= '`') || ('{' <= c <= '~')
  }

  /** The characters that end a command name: punctuation other than `*`,
      and `string.whitespace`. */
  predicate IsStop(c: char)
  {
    (IsPunctuation(c) && c != '*') || IsAsciiWhitespace(c)
  }

  /** The text between two non-negative offsets, clipped to the string:
      what `peek((a, b))` on a buffer of the string's characters spells. */
  function Peeked(s: string, a: nat, b: nat): (r: string)
    ensures |r| <= |s|
  {
    if a < b && a < |s| then s[a..Min(b, |s|)] else ""
  }

  lemma PeekedPair(s: string, a: nat, pat: string)
    requires |pat| == 2
    ensures Peeked(s, a, a + 2) == pat <==> a + 2 <= |s| && s[a] == pat[0] && s[a + 1] == pat[1]
  {
    if a + 2 <= |s| && s[a] == pat[0] && s[a + 1] == pat[1] {
      assert s[a..a + 2] == pat;
    }
  }

  /** The rule that lets `$` (and, corrected, `%`) start a token: the
      cursor is at the start, or the character before is no backslash, or
      the two before are a line break `\\`. */
  predicate Unescaped(s: string, p: nat)
  {
    p == 0 || p >= |s| || s[p - 1] != '\\' || (p >= 2 && s[p - 2] == '\\')
  }

  /** An offset where no `$` or `%` waits behind a lone backslash. */
  predicate Unstuck(s: string, p: nat)
  {
    p >= |s| || (s[p] != '$' && s[p] != '%') || Unescaped(s, p)
  }

  // ---------------------------------------------------------------------
  // The recognisers
  // ---------------------------------------------------------------------

  /** `tokenize_punctuation_command`: a backslash followed by the first
      point, in the table's order, that the text continues with. */
  function PunctuationEnd(s: string, p: nat, points: seq<string>): (r: Option<nat>)
    ensures r.Some? ==> p < r.value <= |s|
  {
    if p < |s| && s[p] == '\\' then
      var k := FirstPoint(s, p, points, 0);
      if k.Some? then Some(p + 1 + |points[k.value]|) else None
    else None
  }

  /** The index of the first point from `from` on that the text after the
      backslash at `p` continues with. */
  function FirstPoint(s: string, p: nat, points: seq<string>, from: nat): (r: Option<nat>)
    requires p < |s|
    ensures r.Some? ==> from <= r.value < |points| && Peeked(s, p + 1, p + 1 + |points[r.value]|) == points[r.value]
    ensures r.Some? ==> p + 1 + |points[r.value]| <= |s|
    ensures forall j :: from <= j < |points| && (r.None? || j < r.value) ==>
      Peeked(s, p + 1, p + 1 + |points[j]|) != points[j]
    decreases |points| - from
  {
    if from >= |points| then None
    else if Peeked(s, p + 1, p + 1 + |points[from]|) == points[from] then Some(from)
    else FirstPoint(s, p, points, from + 1)
  }

  /** `tokenize_command`: the scan of the command name `c = s[p..e]` from
      offset `e`, `s[p]` being the backslash. The loop goes on while `c` is
      the lone backslash or the next character is no stop, and `c` is not in
      `MATH_TOKENS`; `CommandConditions` shows these are the tests below. */
  function CommandScan(s: string, p: nat, e: nat): (r: nat)
    requires p < e <= |s| && s[p] == '\\'
    ensures e <= r <= |s|
    decreases |s| - e
  {
    if e < |s| && (e == p + 1 || !IsStop(s[e])) && !(e == p + 2 && IsMathBracket(s[p + 1]))
    then CommandScan(s, p, e + 1)
    else e
  }

  /** The characters that follow a backslash in the math tokens. */
  predicate IsMathBracket(c: char)
  {
    c == '[' || c == '(' || c == ']' || c == ')'
  }

  /** The one-character entries of `ALL_TOKENS`. */
  predicate IsDelimiterChar(c: char)
  {
    c == '\\' || c == '[' || c == ']' || c == '{' || c == '}' || c == '$' || c == '%'
  }

  /** On a name that starts with a backslash, `c == '\\'` and
      `c in MATH_TOKENS` are the tests `CommandScan` makes. */
  lemma CommandConditions(s: string, p: nat, e: nat)
    requires p < e <= |s| && s[p] == '\\'
    ensures s[p..e] == "\\" <==> e == p + 1
    ensures s[p..e] in MathTokens <==> e == p + 2 && IsMathBracket(s[p + 1])
  {
    var c := s[p..e];
    assert c[0] == '\\';
    if e == p + 2 {
      assert c == [s[p], s[p + 1]];
    }
    if c in MathTokens {
      assert |c| == 2 && c[1] == s[p + 1];
    }
  }

  /** Membership in `ALL_TOKENS` of a character, and of a backslash with a
      character, by the entries themselves. */
  lemma DelimiterTable(c: char)
    ensures [c] in AllTokens() <==> IsDelimiterChar(c)
    ensures "\\" + [c] in AllTokens() <==> IsMathBracket(c)
    ensures "" !in AllTokens()
  {
    SingleInTable(c);
    PairInTable(c);
    ArgTables();
  }

  lemma SingleInTable(c: char)
    ensures [c] in AllTokens() <==> IsDelimiterChar(c)
  {
    ArgTables();
    if [c] in AllTokens() {
      assert [c][0] == c;
    }
  }

  lemma PairInTable(c: char)
    ensures "\\" + [c] in AllTokens() <==> IsMathBracket(c)
  {
    ArgTables();
    var pair := "\\" + [c];
    assert pair == ['\\', c];
    if pair in AllTokens() {
      assert pair[1] == c;
    }
  }

  /** Two given characters at `k` and `k + 1`: `peek((0, 2)) == a + b`. */
  predicate PairAt(s: string, k: nat, a: char, b: char)
  {
    k + 2 <= |s| && s[k] == a && s[k + 1] == b
  }

  function CommandEnd(s: string, p: nat): (r: Option<nat>)
    ensures r.Some? ==> p < r.value <= |s|
  {
    if p < |s| && s[p] == '\\' then Some(CommandScan(s, p, p + 1)) else None
  }

  /** The two readings of the comment guard: as written it is only "the
      element before is no backslash", where at the start the element before
      is the last one queued; corrected it is the rule `tokenize_math` uses. */
  datatype Variant = AsWritten | Corrected

  function PreviousElement(s: string, p: nat): string
    requires p < |s|
  {
    if p > 0 then [s[p - 1]] else [s[Min(|s|, 2) - 1]]
  }

  predicate CommentGuard(v: Variant, s: string, p: nat)
    requires p < |s|
  {
    match v
    case AsWritten => PreviousElement(s, p) != "\\"
    case Corrected => Unescaped(s, p)
  }

  /** `tokenize_line_comment`: from `%` up to the next line break. */
  function CommentScan(s: string, e: nat): (r: nat)
    requires e <= |s|
    ensures e <= r <= |s|
    ensures forall k :: e <= k < r ==> s[k] != '\n'
    ensures r == |s| || s[r] == '\n'
    decreases |s| - e
  {
    if e < |s| && s[e] != '\n' then CommentScan(s, e + 1) else e
  }

  function CommentEnd(v: Variant, s: string, p: nat): (r: Option<nat>)
    ensures r.Some? ==> p < r.value <= |s|
  {
    if p < |s| && s[p] == '%' && CommentGuard(v, s, p) then Some(CommentScan(s, p + 1)) else None
  }

  /** `tokenize_argument`: one bracket or brace. */
  function ArgumentEnd(s: string, p: nat): (r: Option<nat>)
    ensures r.Some? ==> r.value == p + 1 <= |s|
  {
    if p < |s| && [s[p]] in ArgTokens() then Some(p + 1) else None
  }

  /** `tokenize_math`: `$$` or `$` where the dollar is not escaped. */
  function MathEnd(s: string, p: nat): (r: Option<nat>)
    ensures r.Some? ==> p < r.value <= |s|
  {
    if p < |s| && s[p] == '$' && Unescaped(s, p) then
      Some(if p + 1 < |s| && s[p + 1] == '$' then p + 2 else p + 1)
    else None
  }

  /** A backslash in running text that takes the next character with it:
      the next character is a delimiter and the pair is not one (by
      `DelimiterTable`, `str(text.peek()) in delimiters` and
      `str(c + text.peek()) not in delimiters`). */
  predicate Absorbs(s: string, k: nat)
  {
    k + 1 < |s| && IsDelimiterChar(s[k + 1]) && !IsMathBracket(s[k + 1])
  }

  /** `tokenize_string` from cursor `k`: characters and absorbed pairs are
      taken up to the first other delimiter, which is left in place; a `\\`
      coming next is taken along, and a `\n\n` coming next is taken and ends
      the token. */
  function StringScan(s: string, k: nat): (r: nat)
    requires k <= |s|
    ensures k <= r <= |s|
    decreases |s| - k
  {
    if k == |s| then k
    else if s[k] != '\\' && IsDelimiterChar(s[k]) then k
    else if s[k] == '\\' && !Absorbs(s, k) then k
    else
      var m := if s[k] == '\\' then k + 2 else k + 1;
      var m1 := if PairAt(s, m, '\\', '\\') then m + 2 else m;
      if PairAt(s, m1, '\n', '\n') then m1 + 2 else StringScan(s, m1)
  }

  /** `next_token` at offset `p`: the first recogniser that applies, in
      registration order; the string recogniser always applies. */
  function NextEnd(v: Variant, s: string, p: nat, points: seq<string>): (r: nat)
    requires p < |s|
    ensures p <= r <= |s|
  {
    var punct := PunctuationEnd(s, p, points);
    if punct.Some? then punct.value
    else
      var cmd := CommandEnd(s, p);
      if cmd.Some? then cmd.value
      else
        var comment := CommentEnd(v, s, p);
        if comment.Some? then comment.value
        else
          var arg := ArgumentEnd(s, p);
          if arg.Some? then arg.value
          else
            var math := MathEnd(s, p);
            if math.Some? then math.value
            else StringScan(s, p)
  }

  /** The token `next_token` returns at `p`. */
  function NextToken(v: Variant, s: string, p: nat, points: seq<string>): Token
    requires p < |s|
  {
    Token(s[p..NextEnd(v, s, p, points)], p)
  }

  /** `tokenize`: the tokens up to the end of the text, or up to the first
      empty token. At an empty token the cursor does not move, so from there
      on the generator yields the empty string forever: that is reported as
      `stuck`, with the tokens before it. */
  function TokenizeFrom(v: Variant, s: string, p: nat, points: seq<string>): (r: (seq<Token>, bool))
    requires p <= |s|
    decreases |s| - p
  {
    if p == |s| then ([], false)
    else
      var e := NextEnd(v, s, p, points);
      if e == p then ([], true)
      else
        var rest := TokenizeFrom(v, s, e, points);
        ([Token(s[p..e], p)] + rest.0, rest.1)
  }

  function Tokenize(v: Variant, s: string, points: seq<string>): (seq<Token>, bool)
  {
    TokenizeFrom(v, s, 0, points)
  }

  // ---------------------------------------------------------------------
  // Properties
  // ---------------------------------------------------------------------

  /** Consecutive tokens: each starts where the one before ends and carries
      that offset as its position. */
  predicate Tiles(ts: seq<Token>, s: string, p: nat, q: nat)
    decreases |ts|
  {
    if ts == [] then p == q
    else
      var e := p + |ts[0].text|;
      ts[0].position == p && e <= q && q <= |s| && ts[0].text == s[p..e] && ts[0].text != ""
      && Tiles(ts[1..], s, e, q)
  }

  /** The end of the text the tokens reach. */
  function Reach(v: Variant, s: string, p: nat, points: seq<string>): (q: nat)
    requires p <= |s|
    ensures p <= q <= |s|
    decreases |s| - p
  {
    if p == |s| then p
    else
      var e := NextEnd(v, s, p, points);
      if e == p then p else Reach(v, s, e, points)
  }

  /** The tokens are non-empty, positioned at their own offsets, and spell
      the text from `p` to where tokenizing stops: the whole rest of the text
      unless some token came out empty. */
  lemma {:induction false} TokensTile(v: Variant, s: string, p: nat, points: seq<string>)
    requires p <= |s|
    ensures Tiles(TokenizeFrom(v, s, p, points).0, s, p, Reach(v, s, p, points))
    ensures !TokenizeFrom(v, s, p, points).1 <==> Reach(v, s, p, points) == |s|
    decreases |s| - p
  {
    if p < |s| {
      var e := NextEnd(v, s, p, points);
      if e > p {
        TokensTile(v, s, e, points);
        var rest := TokenizeFrom(v, s, e, points);
        assert TokenizeFrom(v, s, p, points) == ([Token(s[p..e], p)] + rest.0, rest.1);
        assert Reach(v, s, p, points) == Reach(v, s, e, points);
        TilesCons(s, p, e, rest.0, Reach(v, s, e, points));
      }
    }
  }

  lemma TilesCons(s: string, p: nat, e: nat, ts: seq<Token>, q: nat)
    requires p < e <= q <= |s| && Tiles(ts, s, e, q)
    ensures Tiles([Token(s[p..e], p)] + ts, s, p, q)
  {
    var us := [Token(s[p..e], p)] + ts;
    assert us[1..] == ts;
    assert |us[0].text| == e - p;
  }

  /** Tiling tokens put back together give the text they cover. */
  lemma {:induction false} TilesSpell(ts: seq<Token>, s: string, p: nat, q: nat)
    requires Tiles(ts, s, p, q)
    ensures p <= q <= |s| || ts == []
    ensures ts != [] ==> Concat(ts) == s[p..q]
    decreases |ts|
  {
    if ts != [] {
      var e := p + |ts[0].text|;
      TilesSpell(ts[1..], s, e, q);
      if ts[1..] == [] {
        assert Texts(ts) == [ts[0].text];
      } else {
        assert Texts(ts) == [ts[0].text] + Texts(ts[1..]);
        assert s[p..q] == s[p..e] + s[e..q];
      }
    }
  }

  /** Where the string recogniser stops at once, and only there, a token is
      empty: at a `$` or `%` that no earlier recogniser took. */
  lemma EmptyTokenIsStuckDelimiter(v: Variant, s: string, p: nat, points: seq<string>)
    requires p < |s|
    ensures NextEnd(v, s, p, points) == p <==>
      ((s[p] == '$' && !Unescaped(s, p)) || (s[p] == '%' && !CommentGuard(v, s, p)))
  {
    ArgTables();
    var c := s[p];
    if c == '\\' {
      assert CommandEnd(s, p).Some?;
    }
  }

  /** The corrected guard admits every `%` the tokenizer reaches, so no token
      is empty: every character that ends a token leaves the next offset
      unescaped. */
  lemma {:induction false} CorrectedNeverStuck(s: string, p: nat, points: seq<string>)
    requires p <= |s| && Unstuck(s, p)
    requires ProperPoints(points)
    ensures !TokenizeFrom(Corrected, s, p, points).1
    decreases |s| - p
  {
    if p < |s| {
      var e := NextEnd(Corrected, s, p, points);
      EmptyTokenIsStuckDelimiter(Corrected, s, p, points);
      assert e > p;
      EndsUnescaped(s, p, points);
      CorrectedNeverStuck(s, e, points);
    }
  }

  /** Every token ends at an offset where a `$` or `%` would be unescaped. */
  lemma EndsUnescaped(s: string, p: nat, points: seq<string>)
    requires p < |s| && Unstuck(s, p) && ProperPoints(points)
    ensures Unstuck(s, NextEnd(Corrected, s, p, points))
  {
    if PunctuationEnd(s, p, points).Some? {
      PunctuationEndsUnescaped(s, p, points);
    } else if CommandEnd(s, p).Some? {
      CommandEndsUnescaped(s, p, p + 1);
    } else if CommentEnd(Corrected, s, p).Some? {
    } else if ArgumentEnd(s, p).Some? {
    } else if MathEnd(s, p).Some? {
    } else {
      StringEndsUnescaped(s, p);
    }
  }

  /** A punctuation command ends in the last character of its point, which
      is no backslash. */
  lemma PunctuationEndsUnescaped(s: string, p: nat, points: seq<string>)
    requires p < |s| && ProperPoints(points) && PunctuationEnd(s, p, points).Some?
    ensures Unstuck(s, PunctuationEnd(s, p, points).value)
  {
    var k := FirstPoint(s, p, points, 0).value;
    var e := p + 1 + |points[k]|;
    assert s[p + 1..e] == points[k];
    assert s[e - 1] == points[k][|points[k]| - 1];
  }

  /** A command name only ends in a backslash when it is the `\\\\` pair. */
  lemma {:induction false} CommandEndsUnescaped(s: string, p: nat, e: nat)
    requires p < e <= |s| && s[p] == '\\'
    requires e <= p + 2 || s[e - 1] != '\\'
    ensures Unstuck(s, CommandScan(s, p, e))
    decreases |s| - e
  {
    if e < |s| && (e == p + 1 || !IsStop(s[e])) && !(e == p + 2 && IsMathBracket(s[p + 1])) {
      CommandEndsUnescaped(s, p, e + 1);
    }
  }

  /** Running text only ends in a backslash when it ends in `\\\\`. */
  lemma {:induction false} StringEndsUnescaped(s: string, k: nat)
    requires k <= |s| && Unstuck(s, k)
    ensures Unstuck(s, StringScan(s, k))
    decreases |s| - k
  {
    if k < |s| && !(s[k] != '\\' && IsDelimiterChar(s[k])) && !(s[k] == '\\' && !Absorbs(s, k)) {
      var m := if s[k] == '\\' then k + 2 else k + 1;
      var m1 := if PairAt(s, m, '\\', '\\') then m + 2 else m;
      if !PairAt(s, m1, '\n', '\n') {
        StringEndsUnescaped(s, m1);
      }
    }
  }

  /** No letter-led point follows a backslash that a non-letter follows. */
  lemma NoPoint(s: string, p: nat, points: seq<string>)
    requires p + 1 < |s| && !IsAsciiLetter(s[p + 1]) && LetterLed(points)
    ensures FirstPoint(s, p, points, 0).None?
  {
    forall j | 0 <= j < |points|
      ensures Peeked(s, p + 1, p + 1 + |points[j]|) != points[j]
    {
      var pk := Peeked(s, p + 1, p + 1 + |points[j]|);
      if pk != "" {
        assert pk[0] == s[p + 1];
      }
    }
  }

  /** A comment right after a line break `\\`: the guard as written sees
      the backslash before `%`, no recogniser takes it, and the tokenizer
      is stuck there; corrected, the comment is a token of its own. */
  lemma CommentAfterLineBreak(s: string, points: seq<string>)
    requires |s| == 3 && s[0] == '\\' && s[1] == '\\' && s[2] == '%'
    requires LetterLed(points)
    ensures Tokenize(AsWritten, s, points) == ([Token(s[0..2], 0)], true)
    ensures Tokenize(Corrected, s, points) == ([Token(s[0..2], 0), Token(s[2..3], 2)], false)
  {
    NoPoint(s, 0, points);
    ArgTables();
    assert CommandScan(s, 0, 2) == 2;
    assert NextEnd(AsWritten, s, 0, points) == 2 && NextEnd(Corrected, s, 0, points) == 2;
    assert NextEnd(AsWritten, s, 2, points) == 2;
    assert NextEnd(Corrected, s, 2, points) == 3;
    assert TokenizeFrom(AsWritten, s, 2, points) == ([], true);
    assert TokenizeFrom(Corrected, s, 3, points) == ([], false);
    var e := NextEnd(Corrected, s, 2, points);
    var rest := TokenizeFrom(Corrected, s, e, points);
    assert TokenizeFrom(Corrected, s, 2, points) == ([Token(s[2..e], 2)] + rest.0, rest.1);
    assert e == 3;
    assert rest == ([], false);
    assert [Token(s[2..e], 2)] + rest.0 == [Token(s[2..3], 2)];
    assert TokenizeFrom(Corrected, s, 2, points) == ([Token(s[2..3], 2)], false);
    var w := TokenizeFrom(AsWritten, s, 2, points);
    assert TokenizeFrom(AsWritten, s, 0, points) == ([Token(s[0..2], 0)] + w.0, w.1);
    assert [Token(s[0..2], 0)] + w.0 == [Token(s[0..2], 0)];
    var c := TokenizeFrom(Corrected, s, 2, points);
    assert TokenizeFrom(Corrected, s, 0, points) == ([Token(s[0..2], 0)] + c.0, c.1);
    assert [Token(s[0..2], 0)] + c.0 == [Token(s[0..2], 0), Token(s[2..3], 2)];
  }

  /** A comment ending in a backslash at the very start: as written, `peek(-1)`
      at the start reads the last character queued, which is that backslash. */
  lemma CommentBeforeBackslash(s: string, points: seq<string>)
    requires |s| == 2 && s[0] == '%' && s[1] == '\\'
    ensures Tokenize(AsWritten, s, points) == ([], true)
    ensures Tokenize(Corrected, s, points) == ([Token(s, 0)], false)
  {
    ArgTables();
    assert NextEnd(AsWritten, s, 0, points) == 0;
    assert CommentScan(s, 1) == 2;
    assert NextEnd(Corrected, s, 0, points) == 2;
    assert s[0..2] == s;
    var c := TokenizeFrom(Corrected, s, 2, points);
    assert c == ([], false);
    assert TokenizeFrom(Corrected, s, 0, points) == ([Token(s[0..2], 0)] + c.0, c.1);
    assert [Token(s[0..2], 0)] + c.0 == [Token(s, 0)];
  }
}
