/**
 * The readers of TexSoup/reader.py and the top-level `read` of
 * TexSoup/tex.py, run on a `Buffer` of tokens as the source runs them: each
 * method moves the shared cursor and appends to its lists in the source's
 * loops, and is proved to compute what the function of the same reader in
 * module `ReaderSpec` states.
 */
module Reader {

  import opened Wrappers
  import opened Strings
  import opened Positioned
  import opened ReaderSpec
  import Tokens
  import Buffers
  import Tokenizer

  /** A method's outcome is the one its reader function gives from the same
      cursor: the value, with the cursor left where the function says, or the
      same exception. */
  predicate Agrees<T(==)>(r: Result<T, ReadError>, spec: Read<T>, i: nat)
  {
    match spec
    case Ok(p) => r == Ok(p.0) && i == p.1
    case Failure(e) => r == Failure(e)
  }

  /** `src.peek()` as a string: the token under the cursor, or `''`. */
  method Peeked(b: Buffers.Buffer) returns (s: string)
    requires b.Valid()
    modifies b
    ensures b.Valid() && b.i == old(b.i)
    ensures s == PeekText(b.stream, b.i)
  {
    var p := b.PeekOne();
    s := p.Text();
  }

  /** `read_tex(src, skip_envs)`. */
  method ReadTex(b: Buffers.Buffer, skip: seq<string>) returns (r: Result<Node, ReadError>)
    requires b.Valid()
    modifies b
    ensures b.Valid()
    ensures Agrees(r, TexAt(b.stream, old(b.i), skip), b.i)
    decreases Left(b.stream, b.i), 0, 0
  {
    var next := b.Next();
    if next.None? {
      return Failure(StopIteration);
    }
    var c := next.value;
    if StartsWith(c.text, "%") {
      return Ok(Tok(c));
    } else if StartsWith(c.text, "$") {
      var name := if StartsWith(c.text, "$$") then "$$" else "$";
      r := ReadMathEnv(b, name, name, name);
    } else if StartsWith(c.text, "\\[") {
      r := ReadMathEnv(b, "displaymath", "\\[", "\\]");
    } else if StartsWith(c.text, "\\(") {
      r := ReadMathEnv(b, "math", "\\(", "\\)");
    } else if StartsWith(c.text, "\\") {
      r := ReadCommand(b, c, skip);
    } else if OpensArg(c.text) {
      r := ReadArg(b, c);
    } else {
      return Ok(Text(c));
    }
  }

  /** The command branch of `read_tex`, after the command token `c`. */
  method ReadCommand(b: Buffers.Buffer, c: Token, skip: seq<string>) returns (r: Result<Node, ReadError>)
    requires b.Valid()
    modifies b
    ensures b.Valid()
    ensures Agrees(r, CommandAt(b.stream, old(b.i), c, skip), b.i)
    decreases Left(b.stream, b.i), 3, 1
  {
    var command := Slice(c, Some(1), None);
    if command.text == "item" {
      r := ReadItemCommand(b, c);
    } else if command.text == "begin" {
      r := ReadBegin(b, c, skip);
    } else {
      r := ReadPlainCommand(b, c, skip);
    }
  }

  /** `\item`: the item, then its arguments after the item's own. */
  method ReadItemCommand(b: Buffers.Buffer, c: Token) returns (r: Result<Node, ReadError>)
    requires b.Valid() && Slice(c, Some(1), None).text == "item"
    modifies b
    ensures b.Valid()
    ensures forall skip :: Agrees(r, CommandAt(b.stream, old(b.i), c, skip), b.i)
    decreases Left(b.stream, b.i), 3, 0
  {
    var item := ReadItem(b);
    if item.Failure? {
      return Failure(item.error);
    }
    var args := ReadArgs(b, item.value.1);
    if args.Failure? {
      return Failure(args.error);
    }
    return Ok(Cmd(Named(Slice(c, Some(1), None)), args.value, item.value.0));
  }

  /** `\begin`: the name token after `{`, stripped (none there is the
      AttributeError), the arguments after `{ name }`, then the body. */
  method ReadBegin(b: Buffers.Buffer, c: Token, skip: seq<string>) returns (r: Result<Node, ReadError>)
    requires b.Valid() && Slice(c, Some(1), None).text == "begin"
    modifies b
    ensures b.Valid()
    ensures Agrees(r, CommandAt(b.stream, old(b.i), c, skip), b.i)
    decreases Left(b.stream, b.i), 3, 0
  {
    var peeked := BeginName(b);
    if peeked.None? {
      return Failure(AttributeError);
    }
    var name := EnvName(peeked.value);
    var args := ReadArgs(b, []);
    if args.Failure? {
      return Failure(args.error);
    }
    var contents := ReadEnv(b, name, skip);
    if contents.Failure? {
      return Failure(contents.error);
    }
    return Ok(Env(name, args.value, contents.value));
  }

  /** Any other command: its arguments. */
  method ReadPlainCommand(b: Buffers.Buffer, c: Token, skip: seq<string>) returns (r: Result<Node, ReadError>)
    requires b.Valid()
    requires Slice(c, Some(1), None).text != "item" && Slice(c, Some(1), None).text != "begin"
    modifies b
    ensures b.Valid()
    ensures Agrees(r, CommandAt(b.stream, old(b.i), c, skip), b.i)
    decreases Left(b.stream, b.i), 3, 0
  {
    var args := ReadArgs(b, []);
    if args.Failure? {
      return Failure(args.error);
    }
    return Ok(Cmd(Named(Slice(c, Some(1), None)), args.value, []));
  }

  /** `read_math_env(src, expr)`. */
  method ReadMathEnv(b: Buffers.Buffer, name: string, begin: string, end: string) returns (r: Result<Node, ReadError>)
    requires b.Valid()
    modifies b
    ensures b.Valid()
    ensures Agrees(r, MathAt(b.stream, old(b.i), name, begin, end), b.i)
  {
    var content := UntilNow(b, Buffers.Is(end));
    if content.None? {
      return Failure(AttributeError);
    }
    var closed := PassClosing(b, end, 1);
    if !closed {
      return Failure(EOFError);
    }
    return Ok(Math(name, begin, end, content.value));
  }

  /** `src.peek(1)` then `src.forward(3)`: the name token of `\begin{name}`,
      and the cursor past `{ name }`; with no name token, `TexEnv(None)`
      raises before the cursor moves. */
  method BeginName(b: Buffers.Buffer) returns (name: Option<Token>)
    requires b.Valid()
    modifies b
    ensures b.Valid()
    ensures name == PyIndex(b.stream, old(b.i) + 1)
    ensures name.Some? ==> b.i == old(b.i) + 3
  {
    name := b.Peek(1);
    if name.Some? {
      var _ := b.Forward(3);
    }
  }

  /** `src.forward_until(cond)` as the readers use it: the token and where
      the cursor stops, or nothing under the cursor. */
  method UntilNow(b: Buffers.Buffer, cond: Buffers.Condition) returns (r: Option<Token>)
    requires b.Valid()
    modifies b
    ensures b.Valid()
    ensures r.None? ==> UntilAt(b.stream, old(b.i), cond).None?
    ensures r.Some? ==> UntilAt(b.stream, old(b.i), cond) == Some((r.value, b.i))
  {
    var t := b.ForwardUntil(cond);
    if t.Failure? {
      return None;
    }
    return Some(t.value);
  }

  /** The closing tokens of `s` are passed when they follow:
      `if src.startswith(s): src.forward(n)`. */
  method PassClosing(b: Buffers.Buffer, s: string, n: nat) returns (closed: bool)
    requires b.Valid()
    modifies b
    ensures b.Valid()
    ensures closed == StartsAt(b.stream, old(b.i), s)
    ensures closed ==> b.i == old(b.i) + n
  {
    closed := StartsNow(b, s);
    if closed {
      var _ := b.Forward(n);
    }
  }

  /** `read_env(src, expr, skip_envs)`, after the arguments. */
  method ReadEnv(b: Buffers.Buffer, name: string, skip: seq<string>) returns (r: Result<seq<Node>, ReadError>)
    requires b.Valid()
    modifies b
    ensures b.Valid()
    ensures Agrees(r, EnvAt(b.stream, old(b.i), name, skip), b.i)
    decreases Left(b.stream, b.i), 2, 0
  {
    ghost var ts := b.stream;
    ghost var i := b.i;
    var start := SkippedChunk(b, name, skip);
    if start.Failure? {
      return Failure(start.error);
    }
    var pat := EndPattern(name);
    var contents := EnvBodyLoop(b, pat, start.value);
    if contents.Failure? {
      return Failure(contents.error);
    }
    var closed := CloseEnv(b, pat);
    if !closed {
      return Failure(EOFError);
    }
    return Ok(contents.value);
  }

  /** The body of an environment to skip, as one chunk up to `\end`;
      nothing for any other environment. */
  method SkippedChunk(b: Buffers.Buffer, name: string, skip: seq<string>) returns (r: Result<seq<Node>, ReadError>)
    requires b.Valid()
    modifies b
    ensures b.Valid()
    ensures Agrees(r, SkipAt(b.stream, old(b.i), name, skip), b.i)
  {
    if !InSkip(name, skip) {
      return Ok([]);
    }
    ghost var i := b.i;
    var chunk := b.ForwardUntil(Buffers.Is("\\end"));
    if chunk.Failure? {
      return Failure(AttributeError);
    }
    assert UntilAt(b.stream, i, Buffers.Is("\\end")) == Some((chunk.value, b.i));
    return Ok([Tok(chunk.value)]);
  }

  /** The loop of `read_env`. */
  method EnvBodyLoop(b: Buffers.Buffer, pat: string, start: seq<Node>) returns (r: Result<seq<Node>, ReadError>)
    requires b.Valid()
    modifies b
    ensures b.Valid()
    ensures Agrees(r, EnvBody(b.stream, old(b.i), pat, start), b.i)
    decreases Left(b.stream, b.i), 1, 0
  {
    ghost var ts := b.stream;
    ghost var i := b.i;
    var contents := start;
    while true
      invariant b.Valid() && b.stream == ts && i <= b.i
      invariant EnvBody(ts, i, pat, start) == EnvBody(ts, b.i, pat, contents)
      decreases Left(ts, b.i)
    {
      var goes := EnvGoesOn(b, pat);
      if !goes {
        assert EnvBody(ts, b.i, pat, contents) == Ok((contents, b.i));
        break;
      }
      var n := ReadTex(b, []);
      if n.Failure? {
        return Failure(n.error);
      }
      contents := contents + [n.value];
    }
    return Ok(contents);
  }

  /** The test of the loop of `read_env`. */
  method EnvGoesOn(b: Buffers.Buffer, pat: string) returns (goes: bool)
    requires b.Valid()
    modifies b
    ensures b.Valid() && b.i == old(b.i)
    ensures goes <==> More(b.stream, b.i) && !StartsAt(b.stream, b.i, pat)
  {
    goes := b.HasNext();
    if goes {
      var ended := StartsNow(b, pat);
      goes := !ended;
    }
  }

  /** `read_args(src, args)`. */
  method ReadArgs(b: Buffers.Buffer, args0: seq<Node>) returns (r: Result<seq<Node>, ReadError>)
    requires b.Valid()
    modifies b
    ensures b.Valid()
    ensures Agrees(r, ArgsAt(b.stream, old(b.i), args0), b.i)
    decreases Left(b.stream, b.i), 2, 0
  {
    ghost var ts := b.stream;
    ghost var i := b.i;
    var candidate := b.NumForwardUntil(Buffers.NotSpace);
    var args := LeadingArgsLoop(b, args0);
    if args.Failure? {
      return Failure(args.error);
    }
    args := ArgChainLoop(b, args.value);
    if args.Failure? {
      return Failure(args.error);
    }
    if args.value == [] {
      var back := b.Backward(candidate);
      if back.Failure? {
        return Failure(AssertionError);
      }
    }
    return Ok(args.value);
  }

  /** The first loop of `read_args`. */
  method LeadingArgsLoop(b: Buffers.Buffer, args0: seq<Node>) returns (r: Result<seq<Node>, ReadError>)
    requires b.Valid()
    modifies b
    ensures b.Valid()
    ensures Agrees(r, LeadingArgs(b.stream, old(b.i), args0), b.i)
    decreases Left(b.stream, b.i), 1, 0
  {
    ghost var ts := b.stream;
    ghost var i := b.i;
    var args := args0;
    while true
      invariant b.Valid() && b.stream == ts && i <= b.i
      invariant LeadingArgs(ts, i, args0) == LeadingArgs(ts, b.i, args)
      decreases Left(ts, b.i)
    {
      var p := Peeked(b);
      if !IsSpace(p) {
        assert LeadingArgs(ts, b.i, args) == Ok((args, b.i));
        break;
      }
      var n := ReadTex(b, []);
      if n.Failure? {
        return Failure(n.error);
      }
      args := args + [n.value];
    }
    return Ok(args);
  }

  /** The second loop of `read_args`, with its count of line breaks. */
  method ArgChainLoop(b: Buffers.Buffer, args0: seq<Node>) returns (r: Result<seq<Node>, ReadError>)
    requires b.Valid()
    modifies b
    ensures b.Valid()
    ensures Agrees(r, ArgChain(b.stream, old(b.i), 0, args0), b.i)
    decreases Left(b.stream, b.i), 1, 2
  {
    ghost var ts := b.stream;
    ghost var i := b.i;
    var args := args0;
    var lineBreaks := 0;
    while true
      invariant b.Valid() && b.stream == ts && i <= b.i && lineBreaks <= 1
      invariant ArgChain(ts, i, 0, args0) == ArgChain(ts, b.i, lineBreaks, args)
      decreases Left(ts, b.i), 1 - lineBreaks
    {
      var p := Peeked(b);
      if !(OpensArg(p) || (IsSpace(p) && lineBreaks == 0)) {
        assert ArgChain(ts, b.i, lineBreaks, args) == Ok((args, b.i));
        break;
      }
      var turn := ArgChainTurn(b, lineBreaks, args);
      if turn.Failure? {
        return Failure(turn.error);
      }
      lineBreaks, args := turn.value.0, turn.value.1;
    }
    return Ok(args);
  }

  /** One turn of the second loop of `read_args`: the new count of line
      breaks and the arguments read. */
  method ArgChainTurn(b: Buffers.Buffer, lineBreaks: nat, args: seq<Node>) returns (r: Result<(nat, seq<Node>), ReadError>)
    requires b.Valid() && lineBreaks <= 1
    requires OpensArg(PeekText(b.stream, b.i)) || (IsSpace(PeekText(b.stream, b.i)) && lineBreaks == 0)
    modifies b
    ensures b.Valid() && ChainStep(b.stream, old(b.i), lineBreaks, args, r, b.i)
    decreases Left(b.stream, b.i), 1, 1
  {
    var space := b.NumForwardUntil(Buffers.NotSpace);
    OpenerIsNotSpace(b.stream, b.i);
    if space > 0 {
      assert lineBreaks == 0;
      r := GapTurn(b, space, args);
    } else {
      r := ArgTurn(b, lineBreaks, args);
    }
  }

  /** A turn at whitespace: the line break is counted, and the whitespace
      is read only when an opener follows it across at most one line break. */
  method GapTurn(b: Buffers.Buffer, space: nat, args: seq<Node>) returns (r: Result<(nat, seq<Node>), ReadError>)
    requires b.Valid() && space > 0 && space == Buffers.Run(b.stream, b.i, Buffers.NotSpace)
    requires IsSpace(PeekText(b.stream, b.i))
    modifies b
    ensures b.Valid() && ChainStep(b.stream, old(b.i), 0, args, r, b.i)
    decreases Left(b.stream, b.i), 1, 0
  {
    var next := GapOpens(b, space);
    if next {
      r := GapRead(b, space, args);
    } else {
      GapSkipped(b.stream, b.i, space, args);
      r := Ok((1, args));
    }
  }

  /** What a turn of the second loop of `read_args` promises, from `i` to
      `j`: a failure is the chain's own failure; otherwise the chain goes on
      from `j` with the new count of line breaks and the arguments read,
      and either the cursor moved or only the count grew. */
  ghost predicate ChainStep(ts: seq<Token>, i: nat, lineBreaks: nat, args: seq<Node>,
                            r: Result<(nat, seq<Node>), ReadError>, j: nat)
    requires lineBreaks <= 1
  {
    match r
    case Failure(e) => ArgChain(ts, i, lineBreaks, args) == Failure(e)
    case Ok((n, next)) =>
      n <= 1 && i <= j && (Left(ts, j) < Left(ts, i) || (j == i && lineBreaks < n))
      && ArgChain(ts, i, lineBreaks, args) == ArgChain(ts, j, n, next)
  }

  /** A turn at whitespace that is read: an opener follows it across at
      most one line break. */
  method GapRead(b: Buffers.Buffer, ghost space: nat, args: seq<Node>) returns (r: Result<(nat, seq<Node>), ReadError>)
    requires b.Valid() && space > 0 && space == Buffers.Run(b.stream, b.i, Buffers.NotSpace)
    requires IsSpace(PeekText(b.stream, b.i))
    requires GapLeads(b.stream, b.i, space)
    modifies b
    ensures b.Valid() && ChainStep(b.stream, old(b.i), 0, args, r, b.i)
    ensures r.Ok? ==> r.value.0 == 1
    decreases Left(b.stream, b.i), 0, 1
  {
    ghost var ts := b.stream;
    ghost var i := b.i;
    ArgChainReadsGap(ts, i, space, args);
    var n := ReadTex(b, []);
    ghost var t := TexAt(ts, i, []);
    if n.Failure? {
      assert t == Failure(n.error);
      return Failure(n.error);
    }
    assert t == Ok((n.value, b.i));
    return Ok((1, args + [n.value]));
  }

  /** A turn at an opener, or at whitespace with no spaces counted. */
  method ArgTurn(b: Buffers.Buffer, lineBreaks: nat, args: seq<Node>) returns (r: Result<(nat, seq<Node>), ReadError>)
    requires b.Valid() && lineBreaks <= 1 && Buffers.Run(b.stream, b.i, Buffers.NotSpace) == 0
    requires OpensArg(PeekText(b.stream, b.i)) || (IsSpace(PeekText(b.stream, b.i)) && lineBreaks == 0)
    modifies b
    ensures b.Valid() && ChainStep(b.stream, old(b.i), lineBreaks, args, r, b.i)
    ensures r.Ok? ==> r.value.0 == 0 && old(b.i) < b.i
    decreases Left(b.stream, b.i), 1, 0
  {
    ghost var ts := b.stream;
    ghost var i := b.i;
    ArgChainAtOpener(ts, i, lineBreaks, args);
    var n := ReadTex(b, []);
    if n.Failure? {
      return Failure(n.error);
    }
    return Ok((0, args + [n.value]));
  }

  /** `ArgChain` at whitespace that is not read: it only counts a break. */
  lemma ArgChainSkipsGap(ts: seq<Token>, i: nat, space: nat, args: seq<Node>)
    requires IsSpace(PeekText(ts, i)) && space == Buffers.Run(ts, i, Buffers.NotSpace) && space > 0
    requires !GapLeads(ts, i, space)
    ensures ArgChain(ts, i, 0, args) == ArgChain(ts, i, 1, args)
  {
    OpenerIsNotSpace(ts, i);
    ArgChainEnds(ts, i, 1, args);
  }

  /** The turn at whitespace that is not read, as a turn. */
  lemma GapSkipped(ts: seq<Token>, i: nat, space: nat, args: seq<Node>)
    requires IsSpace(PeekText(ts, i)) && space == Buffers.Run(ts, i, Buffers.NotSpace) && space > 0
    requires !GapLeads(ts, i, space)
    ensures ChainStep(ts, i, 0, args, Ok((1, args)), i)
  {
    ArgChainSkipsGap(ts, i, space, args);
  }

  /** Whitespace at the start of the chain that is not read ends the chain
      where it is. */
  lemma ArgChainStopsAtGap(ts: seq<Token>, i: nat, space: nat, args: seq<Node>)
    requires IsSpace(PeekText(ts, i)) && space == Buffers.Run(ts, i, Buffers.NotSpace) && space > 0
    requires !GapLeads(ts, i, space)
    ensures ArgChain(ts, i, 0, args) == Ok((args, i))
  {
    ArgChainSkipsGap(ts, i, space, args);
    ArgChainEnds(ts, i, 1, args);
  }

  /** Where the loop test of the chain fails, the chain ends. */
  lemma ArgChainEnds(ts: seq<Token>, i: nat, lineBreaks: nat, args: seq<Node>)
    requires lineBreaks <= 1
    requires !(OpensArg(PeekText(ts, i)) || (IsSpace(PeekText(ts, i)) && lineBreaks == 0))
    ensures ArgChain(ts, i, lineBreaks, args) == Ok((args, i))
  {
  }

  /** `ArgChain` at whitespace that is read. */
  lemma ArgChainReadsGap(ts: seq<Token>, i: nat, space: nat, args: seq<Node>)
    requires IsSpace(PeekText(ts, i)) && space == Buffers.Run(ts, i, Buffers.NotSpace) && space > 0
    requires GapLeads(ts, i, space)
    ensures var t := TexAt(ts, i, []);
      ArgChain(ts, i, 0, args) == if t.Failure? then Failure(t.error) else ArgChain(ts, t.value.1, 1, args + [t.value.0])
  {
  }

  /** `ArgChain` where no whitespace is ahead. */
  lemma ArgChainAtOpener(ts: seq<Token>, i: nat, lineBreaks: nat, args: seq<Node>)
    requires lineBreaks <= 1 && Buffers.Run(ts, i, Buffers.NotSpace) == 0
    requires OpensArg(PeekText(ts, i)) || (IsSpace(PeekText(ts, i)) && lineBreaks == 0)
    ensures var t := TexAt(ts, i, []);
      ArgChain(ts, i, lineBreaks, args) == if t.Failure? then Failure(t.error) else ArgChain(ts, t.value.1, 0, args + [t.value.0])
  {
  }

  /** An argument opener is no whitespace: `num_forward_until` stops at once. */
  lemma OpenerIsNotSpace(ts: seq<Token>, i: nat)
    ensures OpensArg(PeekText(ts, i)) ==> Buffers.Run(ts, i, Buffers.NotSpace) == 0
  {
    if OpensArg(PeekText(ts, i)) {
      assert !IsSpace(ts[i].text) by {
        assert !IsSpaceChar(ts[i].text[0]);
      }
    }
  }

  /** The test in the second loop of `read_args` on the whitespace ahead:
      at most one line break in it, and an argument opener after it. */
  method GapOpens(b: Buffers.Buffer, space: nat) returns (r: bool)
    requires b.Valid()
    modifies b
    ensures b.Valid() && b.i == old(b.i)
    ensures r == GapLeads(b.stream, b.i, space)
  {
    var gap := PeekGap(b, space);
    r := GapThenOpens(b, space, gap);
  }

  /** The second half of the gap test: the token after the whitespace. */
  method GapThenOpens(b: Buffers.Buffer, space: nat, gap: Joined) returns (r: bool)
    requires b.Valid() && gap == Ahead(b.stream, b.i, b.i + space)
    modifies b
    ensures b.Valid() && b.i == old(b.i)
    ensures r == GapLeads(b.stream, b.i, space)
  {
    ghost var ts, i := b.stream, b.i;
    var after := b.Peek(space);
    r := CountChar(gap.Text(), '\n') <= 1 && after.Some? && OpensArg(after.value.text);
    GapLeadsIs(ts, i, space, gap, after);
  }

  /** `src.peek((0, space))`: the whitespace ahead, joined. */
  method PeekGap(b: Buffers.Buffer, space: nat) returns (gap: Joined)
    requires b.Valid()
    modifies b
    ensures b.Valid() && b.i == old(b.i)
    ensures gap == Ahead(b.stream, b.i, b.i + space)
  {
    gap := b.PeekRange(0, space);
  }

  /** The gap test computed from the peeked whitespace and the peeked token
      after it. */
  lemma GapLeadsIs(ts: seq<Token>, i: nat, space: nat, gap: Joined, after: Option<Token>)
    requires gap == Ahead(ts, i, i + space) && after == PyIndex(ts, i + space)
    ensures GapLeads(ts, i, space) == (CountChar(gap.Text(), '\n') <= 1 && after.Some? && OpensArg(after.value.text))
  {
  }

  /** `read_arg(src, c)`. */
  method ReadArg(b: Buffers.Buffer, c: Token) returns (r: Result<Node, ReadError>)
    requires b.Valid()
    modifies b
    ensures b.Valid()
    ensures Agrees(r, ArgAt(b.stream, old(b.i), c), b.i)
    decreases Left(b.stream, b.i), 2, 0
  {
    ghost var ts := b.stream;
    ghost var i := b.i;
    var content := [Tok(c)];
    while true
      invariant b.Valid() && b.stream == ts && i <= b.i && content != []
      invariant ArgItems(ts, i, [Tok(c)]) == ArgItems(ts, b.i, content)
      decreases Left(ts, b.i)
    {
      var more := b.HasNext();
      if !more {
        assert ArgItems(ts, b.i, content) == Ok((content, b.i));
        break;
      }
      var p := Peeked(b);
      if ClosesArg(p) {
        var close := b.Next();
        content := content + [Tok(close.value)];
        assert ArgItems(ts, i, [Tok(c)]) == Ok((content, b.i));
        break;
      }
      var n := ReadTex(b, []);
      if n.Failure? {
        return Failure(n.error);
      }
      content := content + [n.value];
    }
    var g := ParseGroup(content);
    if g.None? {
      return Failure(TypeError);
    }
    return Ok(g.value);
  }

  /** `read_item(src)`: the pair (contents, arguments). */
  method ReadItem(b: Buffers.Buffer) returns (r: Result<(seq<Node>, seq<Node>), ReadError>)
    requires b.Valid()
    modifies b
    ensures b.Valid()
    ensures Agrees(r, ItemAt(b.stream, old(b.i)), b.i)
    decreases Left(b.stream, b.i), 2, 1
  {
    var arg := ReadItemArg(b);
    if arg.Failure? {
      return Failure(arg.error);
    }
    var more := b.HasNext();
    if !more {
      return Ok(([], arg.value));
    }
    var t := ForwardUntilNew(b);
    var pieces := Positioned.Split(t.value, " ");
    var last := Join(pieces.value, " ");
    var extra := ItemBodyLoop(b, last.tok);
    if extra.Failure? {
      return Failure(extra.error);
    }
    return Ok((extra.value, arg.value));
  }

  /** The optional argument of `read_item`. */
  method ReadItemArg(b: Buffers.Buffer) returns (r: Result<seq<Node>, ReadError>)
    requires b.Valid()
    modifies b
    ensures b.Valid()
    ensures Agrees(r, ItemArgAt(b.stream, old(b.i)), b.i)
    decreases Left(b.stream, b.i), 2, 0
  {
    var arg: seq<Node> := [];
    var p := Peeked(b);
    if OpensArg(p) {
      var c := b.Next();
      var a := ReadArg(b, c.value);
      if a.Failure? {
        return Failure(a.error);
      }
      arg := [a.value];
    }
    return Ok(arg);
  }

  /** `forward_until_new`, the helper of `read_item`: with nothing under the
      cursor, `peek().position` fails. */
  method ForwardUntilNew(b: Buffers.Buffer) returns (r: Result<Token, ReadError>)
    requires b.Valid()
    modifies b
    ensures b.Valid()
    ensures old(b.i) >= |b.stream| ==> r == Failure(AttributeError)
    ensures old(b.i) < |b.stream| ==>
              r.Ok? && (r.value, b.i) == LeadingSpace(b.stream, old(b.i), Token("", b.stream[old(b.i)].position))
  {
    var p := b.PeekOne();
    if p.Empty? {
      return Failure(AttributeError);
    }
    var t := LeadingSpaceLoop(b, Token("", p.tok.position));
    return Ok(t);
  }

  /** The loop of `forward_until_new`, from the token `t0` built so far. */
  method LeadingSpaceLoop(b: Buffers.Buffer, t0: Token) returns (t: Token)
    requires b.Valid()
    modifies b
    ensures b.Valid()
    ensures (t, b.i) == LeadingSpace(b.stream, old(b.i), t0)
  {
    ghost var ts := b.stream;
    ghost var i := b.i;
    t := t0;
    ghost var all := LeadingSpace(ts, i, t);
    while true
      invariant b.Valid() && b.stream == ts && i <= b.i
      invariant all == LeadingSpace(ts, b.i, t)
      decreases Left(ts, b.i)
    {
      var goes := LeadGoesOn(b, t);
      if !goes {
        LeadingSpaceStops(ts, b.i, t);
        assert all == (t, b.i);
        break;
      }
      LeadingSpaceGoesOn(ts, b.i, t);
      t := LeadStep(b, t);
    }
  }

  lemma LeadingSpaceGoesOn(ts: seq<Token>, i: nat, t: Token)
    requires More(ts, i) && StartsWithWhitespace(ts[i].text) && !EndsWith(Strings.Strip(t.text, Chars({' '})), "\n")
    ensures LeadingSpace(ts, i, t) == LeadingSpace(ts, i + 1, AddText(t, ts[i].text))
  {
  }

  lemma LeadingSpaceStops(ts: seq<Token>, i: nat, t: Token)
    requires !(More(ts, i) && StartsWithWhitespace(ts[i].text) && !EndsWith(Strings.Strip(t.text, Chars({' '})), "\n"))
    ensures LeadingSpace(ts, i, t) == (t, i)
  {
  }

  /** The body of the loop of `forward_until_new`: `t += s.forward(1)`. */
  method LeadStep(b: Buffers.Buffer, t: Token) returns (t': Token)
    requires b.Valid() && b.i < |b.stream|
    modifies b
    ensures b.Valid() && b.i == old(b.i) + 1
    ensures t' == AddText(t, b.stream[old(b.i)].text)
  {
    Buffers.WindowOne(b.stream, b.i);
    var f := b.Forward(1);
    t' := AddJoined(t, f.value);
  }

  /** The test of the loop of `forward_until_new`. */
  method LeadGoesOn(b: Buffers.Buffer, t: Token) returns (goes: bool)
    requires b.Valid()
    modifies b
    ensures b.Valid() && b.i == old(b.i)
    ensures goes <==> More(b.stream, b.i) && StartsWithWhitespace(b.stream[b.i].text)
                      && !EndsWith(Strings.Strip(t.text, Chars({' '})), "\n")
  {
    goes := b.HasNext();
    if goes {
      var s := Peeked(b);
      goes := StartsWithWhitespace(s) && !EndsWith(Strings.Strip(t.text, Chars({' '})), "\n");
    }
  }

  /** The loop of `read_item`, from the first piece `first`. */
  method ItemBodyLoop(b: Buffers.Buffer, first: Token) returns (r: Result<seq<Node>, ReadError>)
    requires b.Valid()
    modifies b
    ensures b.Valid()
    ensures Agrees(r, ItemBody(b.stream, old(b.i), Tok(first), [Tok(Positioned.LStrip(first, Chars({' '})))]), b.i)
    decreases Left(b.stream, b.i), 1, 0
  {
    ghost var ts := b.stream;
    ghost var i := b.i;
    var last := Tok(first);
    var extra := [Tok(Positioned.LStrip(first, Chars({' '})))];
    while true
      invariant b.Valid() && b.stream == ts && i <= b.i
      invariant ItemBody(ts, i, Tok(first), [Tok(Positioned.LStrip(first, Chars({' '})))]) == ItemBody(ts, b.i, last, extra)
      decreases Left(ts, b.i)
    {
      var goes := ItemGoesOn(b, last, |extra|);
      if !goes {
        assert ItemBody(ts, b.i, last, extra) == Ok((extra, b.i));
        break;
      }
      var n := ReadTex(b, []);
      if n.Failure? {
        return Failure(n.error);
      }
      last := n.value;
      extra := extra + [n.value];
    }
    return Ok(extra);
  }

  /** The test of the loop of `read_item`, after `last` with `count` pieces. */
  method ItemGoesOn(b: Buffers.Buffer, last: Node, count: nat) returns (goes: bool)
    requires b.Valid()
    modifies b
    ensures b.Valid() && b.i == old(b.i)
    ensures goes <==> More(b.stream, b.i) && !StartsAt(b.stream, b.i, "\\item") && !StartsAt(b.stream, b.i, "\\end")
                      && !(EndsParagraph(last) && count > 1)
  {
    goes := b.HasNext();
    if goes {
      var isItem := StartsNow(b, "\\item");
      goes := !isItem;
    }
    if goes {
      var isEnd := StartsNow(b, "\\end");
      goes := !isEnd && !(EndsParagraph(last) && count > 1);
    }
  }

  /** `src.startswith(s)`. */
  method StartsNow(b: Buffers.Buffer, s: string) returns (r: bool)
    requires b.Valid()
    modifies b
    ensures b.Valid() && b.i == old(b.i)
    ensures r == StartsAt(b.stream, b.i, s)
  {
    r := b.StartsWith(s);
  }

  /** The end of `read_env`: the four tokens of the end pattern are passed
      when they follow. */
  method CloseEnv(b: Buffers.Buffer, pat: string) returns (closed: bool)
    requires b.Valid()
    modifies b
    ensures b.Valid()
    ensures closed == StartsAt(b.stream, old(b.i), pat)
    ensures closed ==> b.i == old(b.i) + 4
  {
    closed := PassClosing(b, pat, 4);
  }

  /** The tokens a tokenizer yields, as elements of a `Buffer`. */
  function PlacedAll(ts: seq<Token>): (r: seq<Buffers.Elem>)
    ensures |r| == |ts| && Buffers.Stamped(r) == ts
  {
    seq(|ts|, k requires 0 <= k < |ts| => Buffers.Placed(ts[k]))
  }

  /** `read(tex)` of TexSoup/tex.py: the source text, its tokens in a
      `Buffer`, and `read_tex` while the buffer has a next token. `tex.py`
      takes `tokenize` from `from TexSoup.reader import *`, so `points` is to
      enumerate reader.py's table,
      `Tokens.PunctuationCommands(Tokens.ReaderBracketsDelimiters)`. */
  method Read(tex: TexSource, points: seq<string>) returns (r: Result<(Node, string), ReadError>)
    ensures r == ReadOf(tex, points)
  {
    var s := SourceText(tex);
    var ts, _ := Tokenizer.Tokenize(s, points, Tokens.Corrected);
    var b := new Buffers.Buffer(PlacedAll(ts));
    var children: seq<Node> := [];
    while true
      invariant b.Valid() && b.stream == ts
      invariant Children(ts, 0, []) == Children(ts, b.i, children)
      decreases Left(ts, b.i)
    {
      var more := b.HasNext();
      if !more {
        break;
      }
      var content := ReadTex(b, []);
      if content.Failure? {
        return Failure(content.error);
      }
      children := children + [content.value];
    }
    return Ok((Env("[tex]", [], children), s));
  }
}
