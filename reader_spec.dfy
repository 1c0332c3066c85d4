/**
 * What the recursive-descent reader of TexSoup/reader.py computes, stated
 * on the sequence of tokens its `Buffer` holds: every reader is a function
 * from a cursor to the value it builds and the cursor after it, or to the
 * exception it raises.  The methods of module `Reader` run the source's
 * loops on a `Buffer` and are proved to agree with these functions.
 *
 * The reader builds objects of a data model other than the one in
 * TexSoup/data.py (`TexText`, `TexEnv(..., begin=, end=)`, `expr.append`,
 * `expr.end`), so the tree below records what the reader hands to those
 * constructors, in the order it hands it over.
 */
module ReaderSpec {

  import opened Wrappers
  import opened Strings
  import opened Positioned
  import Data
  import Tokens
  import Buffers

  /** What a reader returns.
      - `Tok`: a token kept as it is (a comment, the delimiters of an
        argument, the first piece of an item, the chunk of a skipped body);
      - `Text`: `TexText(c)`, running text;
      - `Math`: a math environment (`$`, `$$`, `\[`, `\(`) with its body as
        one raw token;
      - `Env`: `\begin{name}` with its arguments and contents;
      - `Cmd`: a command with its arguments and, for `\item`, the item's
        contents as its extra part;
      - `Group`: what `Arg.parse` makes of an argument's items. */
  datatype Node =
    | Tok(tok: Token)
    | Text(tok: Token)
    | Math(name: string, begin: string, end: string, body: Token)
    | Env(name: string, args: seq<Node>, contents: seq<Node>)
    | Cmd(command: Token, args: seq<Node>, extra: seq<Node>)
    | Group(kind: Data.ArgKind, items: seq<Node>)

  /** The exceptions the readers raise: an unterminated environment
      (`EOFError`), a malformed argument (`TypeError`), `forward_until` with
      nothing under the cursor (`AttributeError`), `next` at the end
      (`StopIteration`), and `backward` before the start (`AssertionError`). */
  datatype ReadError = EOFError | TypeError | AttributeError | StopIteration | AssertionError

  /** A value read and the cursor after it, or the exception. */
  type Read<T> = Result<(T, nat), ReadError>

  // ---------------------------------------------------------------------
  // The buffer's queries, on the token sequence
  // ---------------------------------------------------------------------

  /** Tokens left after the cursor: what every read uses up. */
  function Left(ts: seq<Token>, i: nat): nat
  {
    if i < |ts| then |ts| - i else 0
  }

  /** `peek((a, c))`: the tokens between two offsets, joined. */
  function Ahead(ts: seq<Token>, a: nat, c: nat): Joined
  {
    Join(PySlice(ts, Some(a), Some(c)), "")
  }

  /** The text of `peek()`: the token under the cursor, or the empty string. */
  function PeekText(ts: seq<Token>, i: nat): string
  {
    if i < |ts| then ts[i].text else ""
  }

  /** `hasNext()`: a non-empty token under the cursor. */
  predicate More(ts: seq<Token>, i: nat)
  {
    i < |ts| && ts[i].text != ""
  }

  /** `startswith(s)`: the next `|s|` tokens, joined, start with `s`. */
  predicate StartsAt(ts: seq<Token>, i: nat, s: string)
  {
    StartsWith(Ahead(ts, i, i + |s|).Text(), s)
  }

  /** `ARG_START_TOKENS` and `ARG_END_TOKENS` of the reader: the opening and
      the closing delimiter of each argument type. */
  function ArgStarts(): set<string>
  {
    set k | k in Data.ArgTypes :: Data.Open(k)
  }

  function ArgEnds(): set<string>
  {
    set k | k in Data.ArgTypes :: Data.Close(k)
  }

  /** The delimiters of each argument type, spelled out: `Data.Open` and
      `Data.Close` are these (`DelimitersAre`). */
  function OpenOf(k: Data.ArgKind): string
  {
    if k.Optional? then "[" else "{"
  }

  function CloseOf(k: Data.ArgKind): string
  {
    if k.Optional? then "]" else "}"
  }

  lemma DelimitersAre(k: Data.ArgKind)
    ensures Data.Open(k) == OpenOf(k) && Data.Close(k) == CloseOf(k)
  {
    Data.DelimsAre(k);
  }

  /** `x in ARG_START_TOKENS` and `x in ARG_END_TOKENS`, spelled out (by
      `ArgSetsAre`). */
  predicate OpensArg(s: string)
  {
    s == "[" || s == "{"
  }

  predicate ClosesArg(s: string)
  {
    s == "]" || s == "}"
  }

  /** `peek(k) in ARG_START_TOKENS` for an integer peek, `None` past the end. */
  predicate OpensAt(ts: seq<Token>, k: nat)
  {
    k < |ts| && OpensArg(ts[k].text)
  }

  /** `forward_until(condition)`: the tokens up to the first that is empty or
      meets the condition, as one token placed at the first; with nothing
      under the cursor `peek().position` fails. */
  function UntilAt(ts: seq<Token>, i: nat, cond: Buffers.Condition): (r: Option<(Token, nat)>)
    ensures r.Some? ==> i <= r.value.1 <= |ts|
  {
    if i < |ts| then
      var n := Buffers.Run(ts, i, cond);
      Some((Token(Buffers.Concat(ts[i..i + n]), ts[i].position), i + n))
    else None
  }

  // ---------------------------------------------------------------------
  // read_tex
  // ---------------------------------------------------------------------

  /** `read_tex(src, skip_envs)`: take one token and dispatch on it. */
  function TexAt(ts: seq<Token>, i: nat, skip: seq<string>): (r: Read<Node>)
    ensures r.Ok? ==> i < |ts| && i < r.value.1
    decreases Left(ts, i), 0, 0
  {
    if i >= |ts| then Failure(StopIteration)
    else
      var c := ts[i];
      if StartsWith(c.text, "%") then Ok((Tok(c), i + 1))
      else if StartsWith(c.text, "$") then
        var name := if StartsWith(c.text, "$$") then "$$" else "$";
        MathAt(ts, i + 1, name, name, name)
      else if StartsWith(c.text, "\\[") then MathAt(ts, i + 1, "displaymath", "\\[", "\\]")
      else if StartsWith(c.text, "\\(") then MathAt(ts, i + 1, "math", "\\(", "\\)")
      else if StartsWith(c.text, "\\") then CommandAt(ts, i + 1, c, skip)
      else if OpensArg(c.text) then ArgAt(ts, i + 1, c)
      else Ok((Text(c), i + 1))
  }

  /** The command branch of `read_tex`, after the command token `c`: its
      name is `c[1:]`, placed one after the backslash, tested against
      `item` and `begin` as it is and stripped by the constructor it goes
      to. `\item` reads the item first; `\begin` takes the name token after
      `{`, whose absence is the AttributeError of `None.strip()`, and moves
      over `{ name }`; then the arguments, then for `\begin` the body. */
  function CommandAt(ts: seq<Token>, i: nat, c: Token, skip: seq<string>): (r: Read<Node>)
    ensures r.Ok? ==> i <= r.value.1
    decreases Left(ts, i), 3, 0
  {
    var command := Slice(c, Some(1), None);
    if command.text == "item" then
      match ItemAt(ts, i)
      case Failure(e) => Failure(e)
      case Ok(((extra, arg), j)) =>
        match ArgsAt(ts, j, arg)
        case Failure(e) => Failure(e)
        case Ok((args, k)) => Ok((Cmd(Named(command), args, extra), k))
    else if command.text == "begin" then
      var peeked := PyIndex(ts, i + 1);
      if peeked.None? then Failure(AttributeError)
      else
        var name := EnvName(peeked.value);
        match ArgsAt(ts, i + 3, [])
        case Failure(e) => Failure(e)
        case Ok((args, j)) =>
          match EnvAt(ts, j, name, skip)
          case Failure(e) => Failure(e)
          case Ok((contents, k)) => Ok((Env(name, args, contents), k))
    else
      match ArgsAt(ts, i, [])
      case Failure(e) => Failure(e)
      case Ok((args, k)) => Ok((Cmd(Named(command), args, []), k))
  }

  // ---------------------------------------------------------------------
  // read_math_env
  // ---------------------------------------------------------------------

  /** `read_math_env`: the tokens up to the closing one, as one chunk; then
      the closing token is passed. */
  function MathAt(ts: seq<Token>, i: nat, name: string, begin: string, end: string): (r: Read<Node>)
    ensures r.Ok? ==> i < r.value.1
  {
    var u := UntilAt(ts, i, Buffers.Is(end));
    if u.None? then Failure(AttributeError)
    else if !StartsAt(ts, u.value.1, end) then Failure(EOFError)
    else Ok((Math(name, begin, end, u.value.0), u.value.1 + 1))
  }

  // ---------------------------------------------------------------------
  // read_env
  // ---------------------------------------------------------------------

  /** `TexExpr.__init__` keeps `name.strip()`: the token less its leading
      and trailing whitespace, placed after what was removed. */
  function Named(t: Token): (r: Token)
    ensures r.text == Strings.Strip(t.text, Whitespace)
  {
    StripPlacesPiece(t, Whitespace);
    Positioned.Strip(t, Whitespace)
  }

  /** The name of an environment as `read_env` uses it: `expr.name`, the
      stripped text of the name token. */
  function EnvName(t: Token): string
  {
    Named(t).text
  }

  /** `expr.name in SKIP_ENVS + skip_envs`. */
  predicate InSkip(name: string, skip: seq<string>)
  {
    name in Tokens.SkipEnvs || name in skip
  }

  /** `'\\end{%s}' % expr.name`. */
  function EndPattern(name: string): string
  {
    "\\end{" + name + "}"
  }

  /** `read_env`: a body to skip is first taken as one chunk up to `\end`;
      then expressions are read up to `\end{name}`, whose four tokens are
      passed. */
  function EnvAt(ts: seq<Token>, i: nat, name: string, skip: seq<string>): (r: Read<seq<Node>>)
    ensures r.Ok? ==> i <= r.value.1
    decreases Left(ts, i), 2, 0
  {
    match SkipAt(ts, i, name, skip)
    case Failure(e) => Failure(e)
    case Ok((contents, j)) =>
      match EnvBody(ts, j, EndPattern(name), contents)
      case Failure(e) => Failure(e)
      case Ok((body, k)) =>
        if !StartsAt(ts, k, EndPattern(name)) then Failure(EOFError) else Ok((body, k + 4))
  }

  /** What `read_env` starts its contents with: the chunk up to `\end` for
      an environment to skip, nothing otherwise. */
  function SkipAt(ts: seq<Token>, i: nat, name: string, skip: seq<string>): (r: Read<seq<Node>>)
    ensures r.Ok? ==> i <= r.value.1
  {
    if InSkip(name, skip) then
      match UntilAt(ts, i, Buffers.Is("\\end"))
      case None => Failure(AttributeError)
      case Some((chunk, j)) => Ok(([Tok(chunk)], j))
    else Ok(([], i))
  }

  /** The loop of `read_env`: expressions while there are tokens and the
      end pattern does not follow. */
  function EnvBody(ts: seq<Token>, i: nat, pat: string, contents: seq<Node>): (r: Read<seq<Node>>)
    ensures r.Ok? ==> i <= r.value.1
    decreases Left(ts, i), 1, 0
  {
    if More(ts, i) && !StartsAt(ts, i, pat) then
      match TexAt(ts, i, [])
      case Failure(e) => Failure(e)
      case Ok((n, j)) => EnvBody(ts, j, pat, contents + [n])
    else Ok((contents, i))
  }

  // ---------------------------------------------------------------------
  // read_args
  // ---------------------------------------------------------------------

  /** `read_args(src, args)`: whitespace expressions first, then arguments
      with at most one line break between them; with no arguments at all
      the cursor goes back over the whitespace counted at the start. */
  function ArgsAt(ts: seq<Token>, i: nat, args: seq<Node>): (r: Read<seq<Node>>)
    ensures r.Ok? ==> i <= r.value.1
    decreases Left(ts, i), 2, 0
  {
    var candidate := Buffers.Run(ts, i, Buffers.NotSpace);
    match LeadingArgs(ts, i, args)
    case Failure(e) => Failure(e)
    case Ok((args1, j)) =>
      match ArgChain(ts, j, 0, args1)
      case Failure(e) => Failure(e)
      case Ok((args2, k)) =>
        if args2 != [] then Ok((args2, k))
        else if k < candidate then Failure(AssertionError)
        else Ok(([], k - candidate))
  }

  /** The first loop of `read_args`: `while src.peek().isspace()`. */
  function LeadingArgs(ts: seq<Token>, i: nat, args: seq<Node>): (r: Read<seq<Node>>)
    ensures r.Ok? ==> i <= r.value.1 && args <= r.value.0
    ensures r.Ok? && r.value.0 == args ==> r.value.1 == i
    ensures r.Ok? && IsSpace(PeekText(ts, i)) ==> |args| < |r.value.0|
    decreases Left(ts, i), 1, 0
  {
    if IsSpace(PeekText(ts, i)) then
      match TexAt(ts, i, [])
      case Failure(e) => Failure(e)
      case Ok((n, j)) => LeadingArgs(ts, j, args + [n])
    else Ok((args, i))
  }

  /** The test of the second loop of `read_args` on the `space` whitespace
      tokens at `i`: at most one line break in them, and an argument opener
      right after them. */
  predicate GapLeads(ts: seq<Token>, i: nat, space: nat)
  {
    CountChar(Ahead(ts, i, i + space).Text(), '\n') <= 1 && OpensAt(ts, i + space)
  }

  /** The second loop of `read_args`, with its count of line breaks: an
      argument opener is read; whitespace is read only when at most one
      line break is in it and an opener follows it, and a second stretch of
      whitespace in a row ends the chain. */
  function ArgChain(ts: seq<Token>, i: nat, lineBreaks: nat, args: seq<Node>): (r: Read<seq<Node>>)
    requires lineBreaks <= 1
    ensures r.Ok? ==> i <= r.value.1 && args <= r.value.0
    ensures r.Ok? && r.value.0 == args ==> r.value.1 == i
    decreases Left(ts, i), 1, 1 - lineBreaks
  {
    var p := PeekText(ts, i);
    if OpensArg(p) || (IsSpace(p) && lineBreaks == 0) then
      var space := Buffers.Run(ts, i, Buffers.NotSpace);
      if space > 0 then
        if GapLeads(ts, i, space) then
          match TexAt(ts, i, [])
          case Failure(e) => Failure(e)
          case Ok((n, j)) => ArgChain(ts, j, lineBreaks + 1, args + [n])
        else ArgChain(ts, i, lineBreaks + 1, args)
      else
        match TexAt(ts, i, [])
        case Failure(e) => Failure(e)
        case Ok((n, j)) => ArgChain(ts, j, 0, args + [n])
    else Ok((args, i))
  }

  // ---------------------------------------------------------------------
  // read_arg
  // ---------------------------------------------------------------------

  /** `read_arg(src, c)`: the items from the opener `c` up to and including
      the first closing token, given to `Arg.parse`. */
  function ArgAt(ts: seq<Token>, i: nat, c: Token): (r: Read<Node>)
    ensures r.Ok? ==> i <= r.value.1
    decreases Left(ts, i), 2, 0
  {
    match ArgItems(ts, i, [Tok(c)])
    case Failure(e) => Failure(e)
    case Ok((items, j)) =>
      match ParseGroup(items)
      case None => Failure(TypeError)
      case Some(g) => Ok((g, j))
  }

  /** The loop of `read_arg`. */
  function ArgItems(ts: seq<Token>, i: nat, items: seq<Node>): (r: Read<seq<Node>>)
    ensures r.Ok? ==> i <= r.value.1 && items <= r.value.0
    decreases Left(ts, i), 1, 0
  {
    if !More(ts, i) then Ok((items, i))
    else if ClosesArg(ts[i].text) then Ok((items + [Tok(ts[i])], i + 1))
    else
      match TexAt(ts, i, [])
      case Failure(e) => Failure(e)
      case Ok((n, j)) => ArgItems(ts, j, items + [n])
  }

  /** `==` between an item and a delimiter string: a token or a text
      compares by its text; commands and environments equal no string. */
  predicate IsDelimiter(n: Node, s: string)
  {
    (n.Tok? || n.Text?) && n.tok.text == s
  }

  /** `[s[0], s[-1]] == arg.delims()`: the first and last items are the
      delimiters of argument type `k`. */
  predicate Delimits(first: Node, last: Node, k: Data.ArgKind)
  {
    IsDelimiter(first, OpenOf(k)) && IsDelimiter(last, CloseOf(k))
  }

  /** `Arg.parse` of a list: the first type, in the order `OArg`, `RArg`,
      whose delimiters are the first and the last item, over the items in
      between; `None` is the TypeError. */
  function ParseGroup(items: seq<Node>): (r: Option<Node>)
    requires items != []
  {
    var last := items[|items| - 1];
    if Delimits(items[0], last, Data.Optional) then
      Some(Group(Data.Optional, PySlice(items, Some(1), Some(-1))))
    else if Delimits(items[0], last, Data.Required) then
      Some(Group(Data.Required, PySlice(items, Some(1), Some(-1))))
    else None
  }

  // ---------------------------------------------------------------------
  // read_item
  // ---------------------------------------------------------------------

  /** `read_item`: an optional argument; then, if tokens are left, the
      leading whitespace up to a line break as the first piece (spaces on
      its left stripped), then expressions up to `\item`, `\end` or a text
      that ends a paragraph. The result is the pair (contents, arguments). */
  function ItemAt(ts: seq<Token>, i: nat): (r: Read<(seq<Node>, seq<Node>)>)
    ensures r.Ok? ==> i <= r.value.1
    decreases Left(ts, i), 2, 1
  {
    match ItemArgAt(ts, i)
    case Failure(e) => Failure(e)
    case Ok((arg, j)) =>
      if !More(ts, j) then Ok((([], arg), j))
      else
        var lead := LeadingSpace(ts, j, Token("", ts[j].position));
        match ItemBody(ts, lead.1, Tok(lead.0), [Tok(Positioned.LStrip(lead.0, Chars({' '})))])
        case Failure(e) => Failure(e)
        case Ok((extra, m)) => Ok(((extra, arg), m))
  }

  /** The optional argument of an item, as a list of at most one. */
  function ItemArgAt(ts: seq<Token>, i: nat): (r: Read<seq<Node>>)
    ensures r.Ok? ==> i <= r.value.1 && |r.value.0| <= 1
    decreases Left(ts, i), 2, 0
  {
    if OpensArg(PeekText(ts, i)) then
      match ArgAt(ts, i + 1, ts[i])
      case Failure(e) => Failure(e)
      case Ok((g, j)) => Ok(([g], j))
    else Ok(([], i))
  }

  /** `any(peek().startswith(w) for w in string.whitespace)`. */
  predicate StartsWithWhitespace(s: string)
  {
    |s| > 0 && IsAsciiWhitespace(s[0])
  }

  /** `forward_until_new`: tokens that start with whitespace are added
      while the text so far, spaces stripped, does not end in a line break. */
  function LeadingSpace(ts: seq<Token>, i: nat, t: Token): (r: (Token, nat))
    ensures i <= r.1
    decreases Left(ts, i)
  {
    if More(ts, i) && StartsWithWhitespace(ts[i].text) && !EndsWith(Strings.Strip(t.text, Chars({' '})), "\n")
    then LeadingSpace(ts, i + 1, AddText(t, ts[i].text))
    else (t, i)
  }

  /** The last expression ends a paragraph: a text whose end, spaces
      stripped, is a blank line. */
  predicate EndsParagraph(n: Node)
  {
    n.Text? && EndsWith(Strings.Strip(n.tok.text, Chars({' '})), "\n\n")
  }

  /** The loop of `read_item`. The test on `str(src)` is left out: a
      `Buffer` prints as its default representation, which never starts with
      a line break. */
  function ItemBody(ts: seq<Token>, i: nat, last: Node, extra: seq<Node>): (r: Read<seq<Node>>)
    ensures r.Ok? ==> i <= r.value.1 && extra <= r.value.0
    decreases Left(ts, i), 1, 0
  {
    if More(ts, i) && !StartsAt(ts, i, "\\item") && !StartsAt(ts, i, "\\end")
       && !(EndsParagraph(last) && |extra| > 1)
    then
      match TexAt(ts, i, [])
      case Failure(e) => Failure(e)
      case Ok((n, j)) => ItemBody(ts, j, n, extra + [n])
    else Ok((extra, i))
  }

  // ---------------------------------------------------------------------
  // tex.read
  // ---------------------------------------------------------------------

  /** What `read` is given: a string, or an iterable of strings whose
      characters `itertools.chain` runs through. */
  datatype TexSource = Str(s: string) | Pieces(parts: seq<string>)

  function SourceText(tex: TexSource): string
  {
    match tex
    case Str(s) => s
    case Pieces(parts) => JoinWith(parts, "")
  }

  /** The loop of `read`: expressions while tokens are left, in order. */
  function Children(ts: seq<Token>, i: nat, children: seq<Node>): (r: Result<seq<Node>, ReadError>)
    ensures r.Ok? ==> children <= r.value
    decreases Left(ts, i)
  {
    if More(ts, i) then
      match TexAt(ts, i, [])
      case Failure(e) => Failure(e)
      case Ok((n, j)) => Children(ts, j, children + [n])
    else Ok(children)
  }

  /** `read(tex)`: the global environment `[tex]` over the children of the
      corrected tokenizer's tokens, and the source text. */
  function ReadOf(tex: TexSource, points: seq<string>): Result<(Node, string), ReadError>
  {
    var s := SourceText(tex);
    match Children(Tokens.Tokenize(Tokens.Corrected, s, points).0, 0, [])
    case Failure(e) => Failure(e)
    case Ok(children) => Ok((Env("[tex]", [], children), s))
  }
}
