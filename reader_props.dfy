/**
 * What the readers of TexSoup/reader.py and `read` of TexSoup/tex.py
 * promise, proved about the functions of module `ReaderSpec` (and so, by the
 * contracts of module `Reader`, about the methods that run on a `Buffer`).
 */
module ReaderProps {

  import opened Wrappers
  import opened Strings
  import opened Positioned
  import opened ReaderSpec
  import Data
  import Tokens
  import Buffers
  import Reader

  // ---------------------------------------------------------------------
  // The token tables the reader uses
  // ---------------------------------------------------------------------

  /** The reader's `ARG_START_TOKENS` and `ARG_END_TOKENS`, built from the
      argument types, are `{'[', '{'}` and `{']', '}'}`; and the opener of
      each type is the `k`-th start of the tokenizer's table. */
  lemma ArgSetsAre()
    ensures ArgStarts() == {"[", "{"} && ArgEnds() == {"]", "}"}
    ensures forall s :: s in ArgStarts() <==> OpensArg(s)
    ensures forall s :: s in ArgEnds() <==> ClosesArg(s)
    ensures forall s :: OpensArg(s) <==> s in Tokens.ArgStartTokens()
    ensures forall s :: ClosesArg(s) <==> s in Tokens.ArgEndTokens()
  {
    ArgStartsAre();
    ArgEndsAre();
    Tokens.ArgTables();
  }

  lemma ArgStartsAre()
    ensures ArgStarts() == {"[", "{"}
  {
    Data.DelimsAre(Data.Optional);
    Data.DelimsAre(Data.Required);
    assert Data.Open(Data.Optional) == "[" && Data.Open(Data.Required) == "{";
  }

  lemma ArgEndsAre()
    ensures ArgEnds() == {"]", "}"}
  {
    Data.DelimsAre(Data.Optional);
    Data.DelimsAre(Data.Required);
    assert Data.Close(Data.Optional) == "]" && Data.Close(Data.Required) == "}";
  }

  // ---------------------------------------------------------------------
  // read_tex
  // ---------------------------------------------------------------------

  /** The kind of expression `read_tex` returns is decided by its first
      token: a comment is kept as it is, `$`, `$$`, `\[` and `\(` open math
      environments of those names, `\begin` an environment, any other
      backslash a command named by the rest of the token, an opener an
      argument, and anything else is text. Names are stripped: the
      environment's is that of the token after `{`. Every expression uses
      at least that token. */
  lemma TexKinds(ts: seq<Token>, i: nat, skip: seq<string>)
    requires TexAt(ts, i, skip).Ok?
    ensures i < |ts| && i < TexAt(ts, i, skip).value.1 && KindOf(ts[i], ts, i, TexAt(ts, i, skip).value.0)
  {
    var c := ts[i];
    if IsCommand(c.text) {
      TexAtCommand(ts, i, skip);
      CommandBranchKinds(ts, i, c, skip);
    } else {
      OtherKinds(ts, i, skip);
    }
  }

  /** What the first token `c` of an expression read at `i` decides about
      the expression `n`. */
  predicate KindOf(c: Token, ts: seq<Token>, i: nat, n: Node)
  {
    var t := c.text;
    (n.Tok? <==> StartsWith(t, "%"))
    && (n.Math? <==> !StartsWith(t, "%") && (StartsWith(t, "$") || StartsWith(t, "\\[") || StartsWith(t, "\\(")))
    && (n.Math? ==> n.name == (if StartsWith(t, "$$") then "$$" else if StartsWith(t, "$") then "$"
                               else if StartsWith(t, "\\[") then "displaymath" else "math"))
    && (n.Env? <==> IsCommand(t) && t[1..] == "begin")
    && (n.Cmd? <==> IsCommand(t) && t[1..] != "begin")
    && (n.Env? ==> i + 2 < |ts| && n.name == EnvName(ts[i + 2]))
    && (n.Cmd? ==> n.command == Named(Token(t[1..], c.position + 1)))
    && (n.Group? <==> OpensArg(t))
    && (n.Text? <==> !StartsWith(t, "%") && !StartsWith(t, "$") && !StartsWith(t, "\\") && !OpensArg(t))
    && (n.Text? ==> n.tok == c)
  }

  /** The command branch of `read_tex`, after the command token `c` at `i`. */
  lemma CommandBranchKinds(ts: seq<Token>, i: nat, c: Token, skip: seq<string>)
    requires IsCommand(c.text) && CommandAt(ts, i + 1, c, skip).Ok?
    ensures KindOf(c, ts, i, CommandAt(ts, i + 1, c, skip).value.0)
  {
    CommandKinds(ts, i + 1, c, skip);
    SliceFromOne(c);
    CommandKind(c, ts, i, CommandAt(ts, i + 1, c, skip).value.0);
  }

  lemma SliceFromOne(c: Token)
    requires c.text != ""
    ensures Slice(c, Some(1), None) == Token(c.text[1..], c.position + 1)
  {
  }

  lemma TexAtCommand(ts: seq<Token>, i: nat, skip: seq<string>)
    requires i < |ts| && IsCommand(ts[i].text)
    ensures TexAt(ts, i, skip) == CommandAt(ts, i + 1, ts[i], skip)
  {
  }

  /** An environment or a command named as the command branch names them
      has the kind its first token decides. */
  lemma CommandKind(c: Token, ts: seq<Token>, i: nat, n: Node)
    requires IsCommand(c.text)
    requires (n.Env? <==> c.text[1..] == "begin") && (n.Cmd? <==> c.text[1..] != "begin")
    requires n.Env? ==> i + 2 < |ts| && n.name == EnvName(ts[i + 2])
    requires n.Cmd? ==> n.command == Named(Token(c.text[1..], c.position + 1))
    ensures KindOf(c, ts, i, n)
  {
  }

  /** Every branch of `read_tex` but the command one. */
  lemma OtherKinds(ts: seq<Token>, i: nat, skip: seq<string>)
    requires i < |ts| && !IsCommand(ts[i].text) && TexAt(ts, i, skip).Ok?
    ensures i < TexAt(ts, i, skip).value.1 && KindOf(ts[i], ts, i, TexAt(ts, i, skip).value.0)
  {
  }

  /** The command branch builds an environment exactly for `\begin`, named
      by the stripped token after `{`, and otherwise a command named by the
      stripped rest of the command token. */
  lemma CommandKinds(ts: seq<Token>, i: nat, c: Token, skip: seq<string>)
    requires CommandAt(ts, i, c, skip).Ok?
    ensures var n := CommandAt(ts, i, c, skip).value.0;
      (n.Env? <==> Slice(c, Some(1), None).text == "begin")
      && (n.Cmd? <==> Slice(c, Some(1), None).text != "begin")
      && (n.Env? ==> i + 1 < |ts| && n.name == EnvName(ts[i + 1]))
      && (n.Cmd? ==> n.command == Named(Slice(c, Some(1), None)))
  {
  }

  /** A backslash command that opens no math: what the command branch of
      `read_tex` takes. */
  predicate IsCommand(c: string)
  {
    StartsWith(c, "\\") && !StartsWith(c, "\\[") && !StartsWith(c, "\\(")
  }

  // ---------------------------------------------------------------------
  // read_math_env
  // ---------------------------------------------------------------------

  /** Tokens `i` to `j - 1` are one math body: none before `j - 1` is
      empty or the closing switch, and token `j - 1` is one of them. */
  predicate OneChunk(ts: seq<Token>, i: nat, j: nat, end: string)
  {
    i < j <= |ts| && (ts[j - 1].text == end || ts[j - 1].text == "")
    && forall k :: i <= k < j - 1 ==> ts[k].text != "" && ts[k].text != end
  }

  /** A math environment's body is one raw chunk: the tokens from the
      cursor up to the first that is the closing switch (or empty), joined
      and placed at the first; that token is then passed. */
  lemma MathBodyIsOneChunk(ts: seq<Token>, i: nat, name: string, begin: string, end: string)
    requires end != "" && MathAt(ts, i, name, begin, end).Ok?
    ensures var j := MathAt(ts, i, name, begin, end).value.1;
      OneChunk(ts, i, j, end)
      && MathAt(ts, i, name, begin, end).value.0 == Math(name, begin, end, Token(Buffers.Concat(ts[i..j - 1]), ts[i].position))
  {
    var m := MathStops(ts, i, name, begin, end);
    RunIsChunk(ts, i, m, end);
  }

  lemma RunIsChunk(ts: seq<Token>, i: nat, m: nat, end: string)
    requires i <= m < |ts| && m == i + Buffers.Run(ts, i, Buffers.Is(end))
    ensures OneChunk(ts, i, m + 1, end)
  {
    RunUpTo(ts, i, end);
  }

  /** The run up to a closing text: no token before it is empty or closes,
      and the token it stops at is empty or closes. */
  lemma RunUpTo(ts: seq<Token>, i: nat, end: string)
    ensures var m := i + Buffers.Run(ts, i, Buffers.Is(end));
      (forall k :: i <= k < m ==> ts[k].text != "" && ts[k].text != end)
      && (m < |ts| ==> ts[m].text == "" || ts[m].text == end)
  {
    Buffers.RunStopsAtFirstMatch(ts, i, Buffers.Is(end));
  }

  /** Where `read_math_env` stops: one past the end of the run. */
  lemma MathStops(ts: seq<Token>, i: nat, name: string, begin: string, end: string) returns (m: nat)
    requires end != "" && MathAt(ts, i, name, begin, end).Ok?
    ensures m == i + Buffers.Run(ts, i, Buffers.Is(end)) && i <= m < |ts|
    ensures MathAt(ts, i, name, begin, end) == Ok((Math(name, begin, end, Token(Buffers.Concat(ts[i..m]), ts[i].position)), m + 1))
  {
    m := i + Buffers.Run(ts, i, Buffers.Is(end));
    MathHasTokens(ts, i, name, begin, end);
    var body := Token(Buffers.Concat(ts[i..m]), ts[i].position);
    UntilIs(ts, i, m, end);
    MathClosed(ts, i, m, body, name, begin, end);
    StartsInside(ts, m, end);
    MathFound(ts, i, m, body, name, begin, end);
  }

  lemma MathHasTokens(ts: seq<Token>, i: nat, name: string, begin: string, end: string)
    requires MathAt(ts, i, name, begin, end).Ok?
    ensures i < |ts|
  {
  }

  /** A body was read only if the run ended at the closing text. */
  lemma MathClosed(ts: seq<Token>, i: nat, m: nat, body: Token, name: string, begin: string, end: string)
    requires UntilAt(ts, i, Buffers.Is(end)) == Some((body, m)) && MathAt(ts, i, name, begin, end).Ok?
    ensures StartsAt(ts, m, end)
  {
  }

  /** When the run ends at the closing text, the body is the run joined. */
  lemma MathFound(ts: seq<Token>, i: nat, m: nat, body: Token, name: string, begin: string, end: string)
    requires UntilAt(ts, i, Buffers.Is(end)) == Some((body, m)) && StartsAt(ts, m, end)
    ensures MathAt(ts, i, name, begin, end) == Ok((Math(name, begin, end, body), m + 1))
  {
  }

  /** When the run does not end at the closing text, EOFError. */
  lemma MathUnclosed(ts: seq<Token>, i: nat, m: nat, body: Token, name: string, begin: string, end: string)
    requires UntilAt(ts, i, Buffers.Is(end)) == Some((body, m)) && !StartsAt(ts, m, end)
    ensures MathAt(ts, i, name, begin, end) == Failure(EOFError)
  {
  }

  /** A non-empty text can only start where tokens are left. */
  lemma StartsInside(ts: seq<Token>, m: nat, s: string)
    requires s != "" && StartsAt(ts, m, s)
    ensures m < |ts|
  {
    assert m >= |ts| ==> PySlice(ts, Some(m), Some(m + |s|)) == [];
  }

  /** The three outcomes of `read_math_env`: nothing under the cursor, a
      missing closing switch, or the body. */
  lemma MathOutcomes(ts: seq<Token>, i: nat, name: string, begin: string, end: string)
    ensures MathAt(ts, i, name, begin, end) == Failure(AttributeError) <==> i >= |ts|
    ensures MathAt(ts, i, name, begin, end) == Failure(EOFError) <==>
              i < |ts| && !StartsAt(ts, i + Buffers.Run(ts, i, Buffers.Is(end)), end)
  {
    if i < |ts| {
      MathWithTokens(ts, i, name, begin, end);
    }
  }

  /** `read_math_env` with a token under the cursor fails only with
      EOFError, exactly when the run does not end at the closing text. */
  lemma MathWithTokens(ts: seq<Token>, i: nat, name: string, begin: string, end: string)
    requires i < |ts|
    ensures MathAt(ts, i, name, begin, end) != Failure(AttributeError)
    ensures MathAt(ts, i, name, begin, end) == Failure(EOFError) <==> !StartsAt(ts, i + Buffers.Run(ts, i, Buffers.Is(end)), end)
  {
    var m := i + Buffers.Run(ts, i, Buffers.Is(end));
    var body := Token(Buffers.Concat(ts[i..m]), ts[i].position);
    UntilIs(ts, i, m, end);
    if StartsAt(ts, m, end) {
      MathFound(ts, i, m, body, name, begin, end);
    } else {
      MathUnclosed(ts, i, m, body, name, begin, end);
    }
  }

  /** The chunk `read_math_env` collects, from the cursor to the run's end. */
  lemma UntilIs(ts: seq<Token>, i: nat, m: nat, end: string)
    requires i < |ts| && m == i + Buffers.Run(ts, i, Buffers.Is(end))
    ensures UntilAt(ts, i, Buffers.Is(end)) == Some((Token(Buffers.Concat(ts[i..m]), ts[i].position), m))
  {
  }

  /** With no closing switch among the tokens left (and no empty token),
      `read_math_env` raises EOFError. */
  lemma UnclosedMath(ts: seq<Token>, i: nat, name: string, begin: string, end: string)
    requires i < |ts| && end != ""
    requires forall k :: i <= k < |ts| ==> ts[k].text != end && ts[k].text != ""
    ensures MathAt(ts, i, name, begin, end) == Failure(EOFError)
  {
    RunToEnd(ts, i, Buffers.Is(end));
    assert PySlice(ts, Some(|ts|), Some(|ts| + |end|)) == [];
  }

  /** A run over tokens that all pass reaches the end of the stream. */
  lemma {:induction false} RunToEnd(ts: seq<Token>, i: nat, cond: Buffers.Condition)
    requires i <= |ts|
    requires forall k :: i <= k < |ts| ==> ts[k].text != "" && !Buffers.Meets(cond, ts[k].text)
    ensures i + Buffers.Run(ts, i, cond) == |ts|
    decreases |ts| - i
  {
    if i < |ts| {
      RunToEnd(ts, i + 1, cond);
    }
  }

  // ---------------------------------------------------------------------
  // read_arg
  // ---------------------------------------------------------------------

  /** An item that is a closing delimiter: a token or text `]` or `}`. */
  predicate Closing(n: Node)
  {
    (n.Tok? || n.Text?) && ClosesArg(n.tok.text)
  }

  /** `read_tex` at a token that is not a closing delimiter never yields a
      closing item. */
  lemma ReadNotClosing(ts: seq<Token>, i: nat, skip: seq<string>)
    requires TexAt(ts, i, skip).Ok? && !ClosesArg(ts[i].text)
    ensures !Closing(TexAt(ts, i, skip).value.0)
  {
    TexKinds(ts, i, skip);
  }

  /** The loop of `read_arg` adds items up to the first closing token: it
      ends either on that token, added as the last item, or where the
      tokens run out; no item it adds before the last closes. */
  lemma ArgItemsEnd(ts: seq<Token>, i: nat, items: seq<Node>)
    requires items != [] && !Closing(items[|items| - 1])
    requires ArgItems(ts, i, items).Ok?
    ensures var (r, j) := (ArgItems(ts, i, items).value.0, ArgItems(ts, i, items).value.1);
      ArgEnded(ts, i, items, r, j)
  {
    var (r, j) := ArgItems(ts, i, items).value;
    ArgItemsEndAt(ts, i, items, r, j);
  }

  /** What `ArgItemsEnd` states about the items `r` read before `j`. */
  predicate ArgEnded(ts: seq<Token>, i: nat, items: seq<Node>, r: seq<Node>, j: nat)
  {
    0 < |items| <= |r| && r[..|items|] == items
    && (forall k :: |items| <= k < |r| - 1 ==> !Closing(r[k]))
    && (Closing(r[|r| - 1]) ==> i < j <= |ts| && r[|r| - 1] == Tok(ts[j - 1]))
    && (!Closing(r[|r| - 1]) ==> !More(ts, j))
  }

  lemma {:induction false} ArgItemsEndAt(ts: seq<Token>, i: nat, items: seq<Node>, r: seq<Node>, j: nat)
    requires items != [] && !Closing(items[|items| - 1])
    requires ArgItems(ts, i, items) == Ok((r, j))
    ensures ArgEnded(ts, i, items, r, j)
    decreases Left(ts, i)
  {
    if !More(ts, i) {
      assert r == items;
    } else if ClosesArg(ts[i].text) {
      assert r == items + [Tok(ts[i])] && j == i + 1;
    } else {
      var n, m := ArgItemsTurn(ts, i, items);
      ArgItemsEndAt(ts, m, items + [n], r, j);
      assert r[..|items|] == (r[..|items| + 1])[..|items|];
    }
  }

  /** One turn of the loop of `read_arg` at a token that does not close:
      a non-closing item `n` is added and the loop goes on at `m`. */
  lemma ArgItemsTurn(ts: seq<Token>, i: nat, items: seq<Node>) returns (n: Node, m: nat)
    requires More(ts, i) && !ClosesArg(ts[i].text)
    requires ArgItems(ts, i, items).Ok?
    ensures i < m && Left(ts, m) < Left(ts, i) && !Closing(n)
    ensures ArgItems(ts, i, items) == ArgItems(ts, m, items + [n])
  {
    assert TexAt(ts, i, []).Ok?;
    n, m := TexAt(ts, i, []).value.0, TexAt(ts, i, []).value.1;
    ReadNotClosing(ts, i, []);
  }

  /** `read_arg` on an opener `c` succeeds only with the argument of `c`'s
      type closed by that type's closing token, the last token it takes:
      an unclosed or mismatched argument raises TypeError. The argument
      holds the items in between. */
  lemma ArgIsDelimited(ts: seq<Token>, i: nat, c: Token)
    requires OpensArg(c.text) && ArgAt(ts, i, c).Ok?
    ensures var (g, j) := (ArgAt(ts, i, c).value.0, ArgAt(ts, i, c).value.1);
      var items := ArgItems(ts, i, [Tok(c)]).value.0;
      g.Group? && Data.Open(g.kind) == c.text
      && i < j <= |ts| && ts[j - 1].text == Data.Close(g.kind)
      && g.items == items[1..|items| - 1]
  {
    var (items, j) := ArgItems(ts, i, [Tok(c)]).value;
    var g := ParseGroup(items).value;
    assert ArgAt(ts, i, c) == Ok((g, j));
    GroupIsDelimited(ts, i, c, items, j, g);
  }

  lemma GroupIsDelimited(ts: seq<Token>, i: nat, c: Token, items: seq<Node>, j: nat, g: Node)
    requires OpensArg(c.text)
    requires ArgItems(ts, i, [Tok(c)]) == Ok((items, j)) && items != [] && ParseGroup(items) == Some(g)
    ensures g.Group? && Data.Open(g.kind) == c.text
      && i < j <= |ts| && ts[j - 1].text == Data.Close(g.kind)
      && g.items == items[1..|items| - 1]
  {
    ArgItemsEndAt(ts, i, [Tok(c)], items, j);
    ParseGroupIs(items);
    assert items[0] == Tok(c);
    assert Closing(items[|items| - 1]);
  }

  /** A list that parses to an argument has at least the two delimiters of
      its type, first and last, around the argument's items. */
  lemma ParseGroupIs(items: seq<Node>)
    requires items != [] && ParseGroup(items).Some?
    ensures var g := ParseGroup(items).value;
      g.Group? && 2 <= |items| && g.items == items[1..|items| - 1]
      && IsDelimiter(items[0], Data.Open(g.kind))
      && IsDelimiter(items[|items| - 1], Data.Close(g.kind))
  {
    var g := ParseGroup(items).value;
    DelimitersAre(g.kind);
  }

  /** With no closing token left (and no empty one), an argument cannot be
      read. */
  lemma UnclosedArgFails(ts: seq<Token>, i: nat, c: Token)
    requires OpensArg(c.text)
    requires forall k :: i <= k < |ts| ==> !ClosesArg(ts[k].text)
    ensures !ArgAt(ts, i, c).Ok?
  {
    if ArgAt(ts, i, c).Ok? {
      ArgIsDelimited(ts, i, c);
      Data.DelimsAre(Data.Optional);
      Data.DelimsAre(Data.Required);
    }
  }

  // ---------------------------------------------------------------------
  // read_env
  // ---------------------------------------------------------------------

  /** The body of an environment to skip is one chunk: the tokens up to the
      first `\end` (or empty) token, joined and placed at the first. */
  lemma SkipIsOneChunk(ts: seq<Token>, i: nat, name: string, skip: seq<string>)
    requires InSkip(name, skip) && i < |ts|
    ensures var j := i + Buffers.Run(ts, i, Buffers.Is("\\end"));
      SkipAt(ts, i, name, skip) == Ok(([Tok(Token(Buffers.Concat(ts[i..j]), ts[i].position))], j))
      && (forall k :: i <= k < j ==> ts[k].text != "" && ts[k].text != "\\end")
      && (j < |ts| ==> ts[j].text == "" || ts[j].text == "\\end")
  {
    Buffers.RunStopsAtFirstMatch(ts, i, Buffers.Is("\\end"));
  }

  /** `verbatim`, `equation` and `align` are skipped, whatever else is. */
  lemma SkipsVerbatimEquationAlign(name: Token, skip: seq<string>)
    requires Strings.Strip(name.text, Whitespace) in ["verbatim", "equation", "align"]
    ensures InSkip(EnvName(name), skip)
  {
  }

  /** The loop of `read_env` stops only where the tokens run out or the end
      pattern follows; the contents it starts with are kept in front. */
  lemma {:induction false} EnvBodyStops(ts: seq<Token>, i: nat, pat: string, contents: seq<Node>)
    requires EnvBody(ts, i, pat, contents).Ok?
    ensures var k := EnvBody(ts, i, pat, contents).value.1;
      contents <= EnvBody(ts, i, pat, contents).value.0
      && (!More(ts, k) || StartsAt(ts, k, pat))
    decreases Left(ts, i)
  {
    if More(ts, i) && !StartsAt(ts, i, pat) {
      EnvBodyStops(ts, TexAt(ts, i, []).value.1, pat, contents + [TexAt(ts, i, []).value.0]);
    }
  }

  /** `read_env` succeeds only after `\end{name}`, whose four tokens are
      the last it takes. */
  lemma EnvEndsWithPattern(ts: seq<Token>, i: nat, name: string, skip: seq<string>)
    requires EnvAt(ts, i, name, skip).Ok?
    ensures var k := EnvAt(ts, i, name, skip).value.1;
      i + 4 <= k && StartsAt(ts, k - 4, EndPattern(name))
  {
    var (c, j) := SkipAt(ts, i, name, skip).value;
    var (body, k) := EnvBody(ts, j, EndPattern(name), c).value;
    assert StartsAt(ts, k, EndPattern(name));
    assert EnvAt(ts, i, name, skip) == Ok((body, k + 4));
  }

  /** An end pattern that follows nowhere makes `read_env` fail. */
  lemma UnclosedEnvFails(ts: seq<Token>, i: nat, name: string, skip: seq<string>)
    requires forall k :: i <= k ==> !StartsAt(ts, k, EndPattern(name))
    ensures !EnvAt(ts, i, name, skip).Ok?
  {
    if EnvAt(ts, i, name, skip).Ok? {
      EnvEndsWithPattern(ts, i, name, skip);
    }
  }

  /** When the environment's body reads to its end, a missing end pattern
      is the EOFError. */
  lemma UnclosedEnvIsEOF(ts: seq<Token>, i: nat, name: string)
    requires !InSkip(name, [])
    requires EnvBody(ts, i, EndPattern(name), []).Ok?
    requires !StartsAt(ts, EnvBody(ts, i, EndPattern(name), []).value.1, EndPattern(name))
    ensures EnvAt(ts, i, name, []) == Failure(EOFError)
  {
  }

  /** An environment whose end pattern follows at once is empty, and its
      four end tokens are passed. */
  lemma EnvClosesAtOnce(ts: seq<Token>, i: nat, name: string, skip: seq<string>)
    requires !InSkip(name, skip) && StartsAt(ts, i, EndPattern(name))
    ensures EnvAt(ts, i, name, skip) == Ok(([], i + 4))
  {
    assert SkipAt(ts, i, name, skip) == Ok(([], i));
    assert EnvBody(ts, i, EndPattern(name), []) == Ok(([], i));
  }

  /** `\begin{name}` is closed by `\end{}` around the stripped name: with no
      arguments and the end pattern right after `{ name }`, the command
      branch reads an empty environment of that name. */
  lemma BeginReadsStrippedName(ts: seq<Token>, i: nat, c: Token, skip: seq<string>)
    requires Slice(c, Some(1), None).text == "begin" && i + 1 < |ts|
    requires ArgsAt(ts, i + 3, []) == Ok(([], i + 3))
    requires !InSkip(EnvName(ts[i + 1]), skip) && StartsAt(ts, i + 3, EndPattern(EnvName(ts[i + 1])))
    ensures CommandAt(ts, i, c, skip) == Ok((Env(EnvName(ts[i + 1]), [], []), i + 7))
  {
    EnvClosesAtOnce(ts, i + 3, EnvName(ts[i + 1]), skip);
  }

  /** `\begin` with no token after `{` is the AttributeError of `TexEnv(None)`. */
  lemma BeginWithoutName(ts: seq<Token>, i: nat, c: Token, skip: seq<string>)
    requires Slice(c, Some(1), None).text == "begin" && |ts| <= i + 1
    ensures CommandAt(ts, i, c, skip) == Failure(AttributeError)
  {
  }

  /** The name token ` b ` names environment `b`, closed by `\end{b}`, and
      ` verbatim ` is skipped. */
  lemma PaddedNames()
    ensures EnvName(Token(" b ", 7)) == "b"
    ensures EndPattern(EnvName(Token(" b ", 7))) == EndPattern("b")
    ensures InSkip(EnvName(Token(" verbatim ", 7)), [])
  {
    PaddedB();
    PaddedVerbatim();
  }

  lemma PaddedB()
    ensures Strings.Strip(" b ", Whitespace) == "b"
  {
    PaddedWord("b");
    assert " " + "b" + " " == " b ";
  }

  lemma PaddedVerbatim()
    ensures Strings.Strip(" verbatim ", Whitespace) == "verbatim"
  {
    PaddedWord("verbatim");
    assert " " + "verbatim" + " " == " verbatim ";
  }

  /** One blank on each side of a word is what `strip` removes. */
  lemma PaddedWord(w: string)
    requires w != [] && !IsSpaceChar(w[0]) && !IsSpaceChar(w[|w| - 1])
    ensures Strings.Strip(" " + w + " ", Whitespace) == w
  {
    var s := " " + w + " ";
    assert s[0] == ' ' && s[1] == w[0];
    var l := Strings.LStrip(s, Whitespace);
    assert l == w + " ";
    assert l[|l| - 1] == ' ' && l[|l| - 2] == w[|w| - 1];
    assert Strings.RStrip(l, Whitespace) == l[..|l| - 1];
    assert l[..|l| - 1] == w;
  }

  // ---------------------------------------------------------------------
  // read_args
  // ---------------------------------------------------------------------

  /** The first loop of `read_args` reads every whitespace expression: it
      ends at a token that is not whitespace. */
  lemma {:induction false} LeadingArgsReadAllSpace(ts: seq<Token>, i: nat, args: seq<Node>)
    requires LeadingArgs(ts, i, args).Ok?
    ensures !IsSpace(PeekText(ts, LeadingArgs(ts, i, args).value.1))
    decreases Left(ts, i)
  {
    if IsSpace(PeekText(ts, i)) {
      LeadingArgsReadAllSpace(ts, TexAt(ts, i, []).value.1, args + [TexAt(ts, i, []).value.0]);
    }
  }

  /** With no arguments found the cursor is where it started: the roll-back
      of `read_args` is then over no whitespace, so it never fails itself;
      `read_args` fails only where one of its reads fails. */
  lemma ArgsRollbackIsNoOp(ts: seq<Token>, i: nat)
    ensures ArgsAt(ts, i, []).Ok? && ArgsAt(ts, i, []).value.0 == [] ==> ArgsAt(ts, i, []).value.1 == i
    ensures ArgsAt(ts, i, []).Failure? ==>
      LeadingArgs(ts, i, []).Failure?
      || ArgChain(ts, LeadingArgs(ts, i, []).value.1, 0, LeadingArgs(ts, i, []).value.0).Failure?
  {
    match LeadingArgs(ts, i, [])
    case Failure(_) =>
    case Ok((args1, j)) =>
      if IsSpace(PeekText(ts, i)) {
        assert args1 != [];
      } else {
        assert Buffers.Run(ts, i, Buffers.NotSpace) == 0;
      }
  }

  /** A stretch of whitespace, `space` tokens long, holding two line breaks
      or more ends the chain of arguments, which stays where it is. (A
      stretch right after a skipped one ends it whatever it holds:
      `Reader.ArgChainEnds`.) */
  lemma BlankLineEndsArgs(ts: seq<Token>, i: nat, space: nat, args: seq<Node>)
    requires IsSpace(PeekText(ts, i)) && space == Buffers.Run(ts, i, Buffers.NotSpace)
    requires CountChar(Ahead(ts, i, i + space).Text(), '\n') > 1
    ensures ArgChain(ts, i, 0, args) == Ok((args, i))
  {
    var _ := SpaceRuns(ts, i);
    BlankIsNoGap(ts, i, space);
    Reader.ArgChainStopsAtGap(ts, i, space, args);
  }

  lemma BlankIsNoGap(ts: seq<Token>, i: nat, space: nat)
    requires CountChar(Ahead(ts, i, i + space).Text(), '\n') > 1
    ensures !GapLeads(ts, i, space)
  {
  }

  /** Whitespace under the cursor is no opener and starts a run of
      whitespace. */
  lemma SpaceRuns(ts: seq<Token>, i: nat) returns (space: nat)
    requires IsSpace(PeekText(ts, i))
    ensures space == Buffers.Run(ts, i, Buffers.NotSpace) && space > 0
    ensures !OpensArg(PeekText(ts, i))
  {
    Reader.OpenerIsNotSpace(ts, i);
    space := Buffers.Run(ts, i, Buffers.NotSpace);
  }

  /** One whitespace token with at most one line break, then an opener:
      both are read, and the chain goes on after the argument. */
  lemma OneBreakKeepsArgs(ts: seq<Token>, i: nat, args: seq<Node>)
    requires i + 1 < |ts| && IsSpace(ts[i].text)
    requires CountChar(ts[i].text, '\n') <= 1 && OpensArg(ts[i + 1].text)
    requires TexAt(ts, i + 1, []).Ok?
    ensures ArgChain(ts, i, 0, args)
      == ArgChain(ts, TexAt(ts, i + 1, []).value.1, 0, args + [Text(ts[i]), TexAt(ts, i + 1, []).value.0])
  {
    Reader.OpenerIsNotSpace(ts, i + 1);
    ReadGapToken(ts, i, args);
    Reader.ArgChainAtOpener(ts, i + 1, 1, args + [Text(ts[i])]);
    assert args + [Text(ts[i])] + [TexAt(ts, i + 1, []).value.0]
      == args + [Text(ts[i]), TexAt(ts, i + 1, []).value.0];
  }

  /** The whitespace token before the opener is read as text. */
  lemma ReadGapToken(ts: seq<Token>, i: nat, args: seq<Node>)
    requires i + 1 < |ts| && IsSpace(ts[i].text)
    requires CountChar(ts[i].text, '\n') <= 1 && OpensArg(ts[i + 1].text)
    requires Buffers.Run(ts, i, Buffers.NotSpace) == 1
    ensures ArgChain(ts, i, 0, args) == ArgChain(ts, i + 1, 1, args + [Text(ts[i])])
  {
    Buffers.WindowOne(ts, i);
    SpaceIsText(ts, i);
    Reader.ArgChainReadsGap(ts, i, 1, args);
  }

  /** `read_tex` at whitespace reads it as text. */
  lemma SpaceIsText(ts: seq<Token>, i: nat)
    requires i < |ts| && IsSpace(ts[i].text)
    ensures TexAt(ts, i, []) == Ok((Text(ts[i]), i + 1))
  {
    SpaceIsUnmarked(ts[i].text);
    TexAtText(ts, i);
  }

  /** A whitespace token starts with none of the texts `read_tex` dispatches on. */
  lemma SpaceIsUnmarked(c: string)
    requires IsSpace(c)
    ensures Unmarked(c)
  {
    SpaceIsPlain(c[0]);
    NotLedBy(c, "%");
    NotLedBy(c, "$");
    NotLedBy(c, "\\");
    NotLedBy(c, "\\[");
    NotLedBy(c, "\\(");
    assert !OpensArg(c) by { NotLedBy(c, "["); NotLedBy(c, "{"); }
  }

  /** A token that is no comment, math switch, backslash or opener. */
  predicate Unmarked(c: string)
  {
    !StartsWith(c, "%") && !StartsWith(c, "$") && !StartsWith(c, "\\[") && !StartsWith(c, "\\(")
    && !StartsWith(c, "\\") && !OpensArg(c)
  }

  /** `read_tex` reads an unmarked token as text. */
  lemma TexAtText(ts: seq<Token>, i: nat)
    requires i < |ts| && Unmarked(ts[i].text)
    ensures TexAt(ts, i, []) == Ok((Text(ts[i]), i + 1))
  {
  }

  lemma NotLedBy(s: string, p: string)
    requires s != [] && p != [] && s[0] != p[0]
    ensures !StartsWith(s, p) && s != p
  {
    if |p| <= |s| {
      assert s[..|p|][0] == s[0];
    }
  }

  /** No whitespace character is one `read_tex` dispatches on. */
  lemma SpaceIsPlain(x: char)
    requires IsSpaceChar(x)
    ensures x !in {'%', '$', '\\', '[', '{'}
  {
  }

  // ---------------------------------------------------------------------
  // read_item
  // ---------------------------------------------------------------------

  /** The test of the loop of `read_item`. */
  predicate ItemGoesOn(ts: seq<Token>, i: nat, last: Node, extra: seq<Node>)
  {
    More(ts, i) && !StartsAt(ts, i, "\\item") && !StartsAt(ts, i, "\\end")
    && !(EndsParagraph(last) && |extra| > 1)
  }

  lemma ItemBodyStep(ts: seq<Token>, i: nat, last: Node, extra: seq<Node>)
    requires ItemGoesOn(ts, i, last, extra) && TexAt(ts, i, []).Ok?
    ensures ItemBody(ts, i, last, extra)
      == ItemBody(ts, TexAt(ts, i, []).value.1, TexAt(ts, i, []).value.0, extra + [TexAt(ts, i, []).value.0])
  {
  }

  /** A turn of the loop that goes on and succeeds reads an expression `n`
      up to `j` and goes on from there. */
  lemma ItemBodyTurn(ts: seq<Token>, i: nat, last: Node, extra: seq<Node>) returns (n: Node, j: nat)
    requires ItemGoesOn(ts, i, last, extra) && ItemBody(ts, i, last, extra).Ok?
    ensures i < j && Left(ts, j) < Left(ts, i)
    ensures ItemBody(ts, i, last, extra) == ItemBody(ts, j, n, extra + [n])
  {
    n, j := TexAt(ts, i, []).value.0, TexAt(ts, i, []).value.1;
    ItemBodyStep(ts, i, last, extra);
  }

  lemma ItemBodyEnd(ts: seq<Token>, i: nat, last: Node, extra: seq<Node>)
    requires !ItemGoesOn(ts, i, last, extra)
    ensures ItemBody(ts, i, last, extra) == Ok((extra, i))
  {
  }

  /** Where the loop of `read_item` may stop with contents `r`: the
      tokens run out, `\\item` or `\\end` follows, or the last expression
      read ends a paragraph. */
  predicate ItemStopped(ts: seq<Token>, j: nat, r: seq<Node>)
  {
    !More(ts, j) || StartsAt(ts, j, "\\item") || StartsAt(ts, j, "\\end")
    || (|r| > 1 && EndsParagraph(r[|r| - 1]))
  }

  /** No expression of `r` from `from` on, the last excepted, ends a paragraph. */
  predicate NoParagraphBefore(r: seq<Node>, from: nat)
  {
    forall k :: from <= k < |r| - 1 ==> !EndsParagraph(r[k])
  }

  /** The loop of `read_item` stops only where the tokens run out, `\\item`
      or `\\end` follows, or the last expression read ends a paragraph; an
      expression read before the last never ends one. */
  lemma ItemBodyStops(ts: seq<Token>, i: nat, last: Node, extra: seq<Node>)
    requires extra != [] && (EndsParagraph(last) ==> last == extra[|extra| - 1])
    requires ItemBody(ts, i, last, extra).Ok?
    ensures extra <= ItemBody(ts, i, last, extra).value.0
    ensures ItemStopped(ts, ItemBody(ts, i, last, extra).value.1, ItemBody(ts, i, last, extra).value.0)
    ensures NoParagraphBefore(ItemBody(ts, i, last, extra).value.0, |extra|)
  {
    var (r, k) := ItemBody(ts, i, last, extra).value;
    ItemBodyStopsAt(ts, i, last, extra, r, k);
  }

  /** The same, for the contents `r` and the cursor `k` the loop ends with. */
  lemma {:induction false} ItemBodyStopsAt(ts: seq<Token>, i: nat, last: Node, extra: seq<Node>, r: seq<Node>, k: nat)
    requires extra != [] && (EndsParagraph(last) ==> last == extra[|extra| - 1])
    requires ItemBody(ts, i, last, extra) == Ok((r, k))
    ensures extra <= r && ItemStopped(ts, k, r) && NoParagraphBefore(r, |extra|)
    decreases Left(ts, i)
  {
    if ItemGoesOn(ts, i, last, extra) {
      var n, j := ItemBodyTurn(ts, i, last, extra);
      ItemBodyStopsAt(ts, j, n, extra + [n], r, k);
      ParagraphStops(ts, j, n, extra);
      NoParagraphGrows(r, |extra|);
    } else {
      ItemBodyEnd(ts, i, last, extra);
    }
  }

  /** After an expression that ends a paragraph the loop stops. */
  lemma ParagraphStops(ts: seq<Token>, j: nat, n: Node, extra: seq<Node>)
    requires extra != []
    ensures EndsParagraph(n) ==> ItemBody(ts, j, n, extra + [n]) == Ok((extra + [n], j))
  {
    if EndsParagraph(n) {
      ItemBodyEnd(ts, j, n, extra + [n]);
    }
  }

  lemma NoParagraphGrows(r: seq<Node>, from: nat)
    requires from < |r| && NoParagraphBefore(r, from + 1)
    requires EndsParagraph(r[from]) ==> |r| == from + 1
    ensures NoParagraphBefore(r, from)
  {
  }

  // ---------------------------------------------------------------------
  // tex.read
  // ---------------------------------------------------------------------

  /** An iterable source is read as the concatenation of its strings. */
  lemma ReadOfPieces(parts: seq<string>, points: seq<string>)
    ensures ReadOf(Pieces(parts), points) == ReadOf(Str(JoinWith(parts, "")), points)
  {
  }

  /** `read` returns the global environment `[tex]`, with no arguments,
      and the source text. */
  lemma ReadOfShape(tex: TexSource, points: seq<string>)
    requires ReadOf(tex, points).Ok?
    ensures ReadOf(tex, points).value.0.Env? && ReadOf(tex, points).value.0.name == "[tex]"
    ensures ReadOf(tex, points).value.0.args == [] && ReadOf(tex, points).value.1 == SourceText(tex)
  {
  }

  /** The loop of `read` reads one expression per turn, in order, until the
      tokens run out: each child is `read_tex` at the cursor the previous
      one left. */
  lemma {:induction false} ChildrenInOrder(ts: seq<Token>, i: nat, children: seq<Node>)
    requires Children(ts, i, children).Ok? && More(ts, i)
    ensures TexAt(ts, i, []).Ok?
    ensures var r := Children(ts, i, children).value;
      |children| < |r| && r[|children|] == TexAt(ts, i, []).value.0
      && r == Children(ts, TexAt(ts, i, []).value.1, children + [r[|children|]]).value
  {
  }
}
