# TexSoup's LaTeX front end, modelled in Dafny

This project models the front end of TexSoup, a Python library that parses
LaTeX into a navigable tree, and proves properties of that model. It covers:

- the position-tracking pieces of `TexSoup/utils.py`:
  - `TokenWithPosition`, a string that knows its offset in the source
    (module `Positioned`, positioned.dfy);
  - `Buffer`, the seekable cursor with a lazily filled queue (module
    `Buffers`, buffer.dfy: a `class` with `queue` and cursor `i` fields);
  - `CharToLineOffset` (module `LineOffsets`, lineoffset.dfy);
- the category-code table and `categorize` of `TexSoup/category.py`
  (module `Categories`, category.dfy);
- the tokenizer of `TexSoup/tokens.py`:
  - module `Tokens` (tokens.dfy) states every recogniser as a function on the
    source string;
  - module `Tokenizer` (tokenizer.dfy) runs the recognisers as methods on a
    `Buffer` and proves that they agree with those functions;
  - `TexSoup/reader.py` repeats the same functions over tables of its own.
    They are sets where tokens.py has tuples, which changes nothing for
    membership. Its `MATH_TOKENS` has no `$$`, which no test on one character
    or a backslash pair can tell apart. Its `PUNCTUATION_COMMANDS` also loses
    `\rangle`, `\rceil` and `\rbrack` to non-raw literals
    (`Tokens.ReaderBracketsDelimiters`);
- the recursive-descent reader of `TexSoup/reader.py` and the top-level
  `read` of `TexSoup/tex.py`:
  - module `ReaderSpec` (reader_spec.dfy) gives each reader as a function
    from a cursor to what it builds and where it stops;
  - module `Reader` (reader.dfy) runs each reader's loops on a `Buffer`
    and proves that they agree with those functions;
  - module `ReaderProps` (reader_props.dfy) proves what the readers promise;
- the argument and expression data model of `TexSoup/data.py`:
  - module `Data` covers `Arg.parse`, `TexArgs` and the string forms;
  - module `DataTree` covers content mutation, children, descendants and
    search;
  - module `DataExamples` proves the documented examples;
- the stack-based `MathModeTracker` of `TexSoup/math_config.py` (module
  `MathMode`, mathmode.dfy);
- `rreplace` of `v1/utils.py` (module `RReplace`, rreplace.dfy);
- the first version's command splitter of `v1/texSoup.py`:
  - `Command` with `fromLatexIter`, `fromLatex`, `__str__`, `__iter__` and
    `update` (module `V1Commands`, v1command.dfy);
  - `TexNode.stripCommand` and `TexNode.expandDescendants` (module
    `V1Nodes`, v1node.dfy).

Modules `Wrappers` (`Option`, `Result`) and `Strings` model the Python
built-ins the source relies on: `find`, `rfind`, `split`, `rsplit`,
`replace`, `strip`, `join`, slicing and indexing with negative bounds.

A few conventions run through the model:

- **Errors.** Python exceptions are `Failure` values. The reader raises
  `EOFError`, `TypeError`, and an `AttributeError` where `peek` gives
  `None` past the end (`None.position`, or `None.strip()` when no name
  token follows `\begin{`); `backward` raises an `AssertionError`.
- **Names.** `TexExpr.__init__` keeps `name.strip()`
  (`TexSoup/data.py:199`). So a command's or an environment's name is
  stripped, and `read_env` looks for `\end{name}` with the stripped name.
- **Set order.** The order in which Python visits the set
  `PUNCTUATION_COMMANDS` is not fixed. The model takes it as a parameter
  `points`. The tokenizer and reader members hold for every `points`, so for
  whatever order Python picks. Only the lemmas about the points themselves
  (`Tokens.EnumeratedPointsAreProper`, `Tokens.EnumeratedPointsAreLetterLed`)
  require that `points` lists exactly the set's members.
- **Variants.** Where the source is evidently wrong (see "## Findings"), the
  model keeps both behaviours, in one of two ways:
  - `Tokens`, `Tokenizer` and `V1Commands` take a `Variant` parameter,
    `AsWritten` or `Corrected`;
  - `Buffers`, `Positioned`, `LineOffsets` and `RReplace` have separate
    members: `PullAsWritten` beside `Stamped`, `SplitAsWritten` beside
    `Split`, `LocateAsWritten` beside `Locate`, `RReplaceAsWritten` beside
    `RReplace`.

  The pipeline from source text to tree (`Reader.Read`) uses the corrected
  tokenizer.
- **Snapshot mismatch.** The reader builds objects that the `data.py` shown
  does not define: `TexText`, `TexEnv(..., begin=, end=)`, `expr.append`
  and `arg_type`. `ReaderSpec` therefore records what the reader hands to
  those constructors, in order, on a tree type of its own (`Node`). The
  argument types are taken to be `(OArg, RArg)` from `TexSoup/data.py:448`.
  For `\item` the reader calls `TexCmd(command, contents, arg)`
  (`TexSoup/reader.py:255-256`). The `TexCmd` of `TexSoup/data.py:323`
  takes `(name, args=(), extra='')`, so by position the item's contents
  would be the arguments. The model follows the reader's evident meaning:
  the item's one argument starts `read_args`, and its contents are the
  command's extra part.
- **Cut-off literals.** Literals are kept as Python evaluates them:
  - `'.' '|'` is the single string `.|`;
  - the non-raw `'\rfloor'` (and in reader.py also `'\rangle'`, `'\rceil'`
    and `'\rbrack'`) starts with a carriage return.

## Model

| member | source | states |
|---|---|---|
| Positioned.Chars | TexSoup/utils.py:164-173 | iterating a token gives one token per character, character `k` at position `position + k` |
| Positioned.CharsAreIndexed | TexSoup/utils.py:164-194 | character `k` sits at `position + k` whether reached by iteration, by index `k` or by index `k - len` |
| Positioned.AtOutOfRange | TexSoup/utils.py:175-194 | an index outside `[-len, len)` is an IndexError |
| Positioned.AddThenSlice | TexSoup/utils.py:80-101 | `t1 + t2` keeps the left operand's position; slicing the sum at `len(t1)` gives `t1` back, and gives `t2` back when it started where `t1` ended |
| Positioned.RAddThenSlice | TexSoup/utils.py:103-122 | `s + t` is placed `len(s)` before `t`, so slicing it at `len(s)` gives `t` back |
| Positioned.AddDoctests | TexSoup/utils.py:80-138 | the documented results of `__add__`, `__radd__` and `__iadd__`, texts and positions (`'as' + TokenWithPosition('dfg', 2)` at 0) |
| Positioned.EqualityIgnoresPosition | TexSoup/utils.py:65-78 | a token equals any token with its text at any position; equal tokens hash alike; equality is symmetric and transitive, and at one position it is identity; the two documented answers |
| Positioned.ContainsIsOccurrence | TexSoup/utils.py:151-162 | `x in t` holds exactly when the text of `x` occurs in the token's text |
| Positioned.ContainsToken | TexSoup/utils.py:160-161 | `item in t` for a token `item` holds exactly when the item's text occurs somewhere in `t`'s text |
| Positioned.ContainsDoctests | TexSoup/utils.py:151-159 | the three documented answers of `in` on `corgi`: `'rg'` and the token `rg` are in it, `'reg'` is not |
| Positioned.SplitAsWritten | TexSoup/utils.py:196-204 | an empty separator is the ValueError; otherwise piece `k` gets the position where `find` meets it when started from the previous piece's offset |
| Positioned.SplitAsWrittenMisplaces | TexSoup/utils.py:200-203 | as written, splitting `a,a` at `,` places both pieces at offset 0 |
| Positioned.Split | TexSoup/utils.py:196-204 | corrected: the texts are `str.split`'s pieces, they lie end to end one separator apart from the token's position, and joining them with the separator gives the token back |
| Positioned.SplitJoin | TexSoup/utils.py:198 | joining the pieces of `str.split` with the separator gives the text back |
| Positioned.FoundAtOffset | TexSoup/utils.py:202 | searching for a piece from its own offset finds it right there |
| Positioned.StripPlacesPiece | TexSoup/utils.py:206-219 | `strip`, `lstrip` and `rstrip` keep the texts `str.strip` and its kin give, placed after the removed leading characters (at the token's start when nothing is left) |
| Positioned.FirstOccurrenceAfterStripped | TexSoup/utils.py:207-209 | the `find` of the stripped text returns the number of leading characters removed |
| Buffers.Stamped | TexSoup/utils.py:345-350 | the stream the queue fills from has one token per element, each at its own index |
| Buffers.CharsOf | TexSoup/utils.py:249-259 | a buffer over a string iterates its characters one at a time |
| Buffers.RunStopsAtFirstMatch | TexSoup/utils.py:292-316 | how far `num_forward_until` and `forward_until` move: to the first element that is empty or meets the condition, or to the end |
| Buffers.Buffer.constructor | TexSoup/utils.py:249-259 | a new buffer has an empty queue and its cursor at 0 |
| Buffers.Buffer.Next | TexSoup/utils.py:345-350 | `next` returns the element under the cursor and moves past it; at the end it is StopIteration and the whole stream is queued |
| Buffers.Buffer.Fill | TexSoup/utils.py:372-381 | the fill loop of `__getitem__` queues elements up to the stop (or the end of the stream) and restores the cursor |
| Buffers.Buffer.GetItem | TexSoup/utils.py:352-384 | `b[k]` for an integer is element `k` of the stream, or counts from the end of the queue for negative `k`; None is the IndexError |
| Buffers.Buffer.GetSlice | TexSoup/utils.py:352-384 | `b[a:c]` joins the queued elements of that slice; for non-negative bounds it is the slice of the stream |
| Buffers.Buffer.Peek | TexSoup/utils.py:333-343 | `peek(j)` does not move the cursor and returns element `i + j`, or None past the end |
| Buffers.Buffer.PeekRange | TexSoup/utils.py:333-343 | `peek((a, c))` does not move the cursor and joins the elements between the two offsets |
| Buffers.Buffer.HasNext | TexSoup/utils.py:262-264 | `hasNext` holds exactly when an element under the cursor exists and is non-empty |
| Buffers.Buffer.StartsWith | TexSoup/utils.py:266-270 | `startswith(s)` holds exactly when the next `len(s)` elements spell a text starting with `s` |
| Buffers.Buffer.EndsWith | TexSoup/utils.py:272-276 | `endswith(s)` tests the `len(s)` elements before the cursor, with Python's negative slice bound close to the start |
| Buffers.Buffer.Forward | TexSoup/utils.py:278-290 | `forward(j)` moves the cursor `j` places and returns the elements passed; a negative `j` moves backward, failing before the start |
| Buffers.Buffer.Backward | TexSoup/utils.py:318-331 | `backward(j)` moves back `j` places and returns the elements passed; moving before index 0 is the AssertionError, which leaves the buffer as it was |
| Buffers.Buffer.ForwardThenBackward | TexSoup/utils.py:278-331 | `forward(j)` then `backward(j)` restores the cursor, and both calls return the same `j` elements |
| Buffers.Buffer.NumForwardUntil | TexSoup/utils.py:292-302 | returns the number of elements before the first that is empty or meets the condition, leaves the cursor where it was, and the source's closing assertion holds |
| Buffers.Buffer.ForwardUntil | TexSoup/utils.py:304-316 | moves over those same elements and returns them as one token placed at the first; with nothing under the cursor, `peek().position` is the AttributeError |
| Buffers.ForwardDoctest | TexSoup/utils.py:281-285 | on `abcdef`, `forward(3)` passes `abc` at 0, and `forward(-2)` then passes `bc` at 1 |
| Buffers.BackwardDoctest | TexSoup/utils.py:321-325 | on `abcdef`, `backward(-3)` passes `abc` at 0, and `backward(2)` then passes `bc` at 1 |
| Buffers.ClassDoctestMoves | TexSoup/utils.py:226-232 | on `012345`, `next` gives `0`, `forward()` passes `1`, and the buffer then ends with `1` |
| Buffers.ClassDoctestBack | TexSoup/utils.py:226-234 | after those two moves, `backward(2)` passes `01` at 0 |
| Buffers.ClassDoctestPeeks | TexSoup/utils.py:235-240 | with the cursor at the start, `peek()` is `0`, `peek(2)` is `2` and `peek((0, 2))` joins `01` |
| Buffers.ClassDoctestSlices | TexSoup/utils.py:241-244 | the buffer starts with `01`, and `b1[2:4]` is `23` at 2 |
| Buffers.ClassDoctestClipped | TexSoup/utils.py:245-246 | `Buffer('asdf')[:10]` is clipped to `asdf` |
| Buffers.PullAsWritten | TexSoup/utils.py:345-350 | `__next__` as written stamps each pulled element with the cursor; the queue only grows, and by at most what the stream holds |
| Buffers.PullAsWrittenWithinQueue | TexSoup/utils.py:345-350 | while the cursor does not run ahead of the queue, the as-written stamping agrees with the element's own index |
| Buffers.ForwardAsWrittenMisstamps | TexSoup/utils.py:278-290 | as written, `Buffer('abcdef').forward(3)` places `abc` at 3, where the stream places it at 0 |
| LineOffsets.BreaksFrom | TexSoup/utils.py:411-412 | the offsets of the line breaks, ascending, every one of them and nothing else |
| LineOffsets.Index | TexSoup/utils.py:411-413 | `CharToLineOffset(src)` records every line break of `src`, ascending, and its length |
| LineOffsets.BisectRight | TexSoup/utils.py:416 | `bisect.bisect` counts the entries at or below the offset |
| LineOffsets.BisectLeft | TexSoup/utils.py:416 | `bisect_left` counts the entries strictly below the offset |
| LineOffsets.LocateSpansLine | TexSoup/utils.py:415-424 | corrected conversion: every offset in the source lies on the line it names, with a column between 0 and that line's length, and line `n` starts after `n` breaks |
| LineOffsets.LocateAsWrittenOnBreak | TexSoup/utils.py:416-424 | as written, the `\n` of `a\nb` is at line 1, column -1; corrected, at line 0, column 1 |
| LineOffsets.LocateAgreesOffBreaks | TexSoup/utils.py:416-424 | away from the line breaks themselves, the conversion as written and the corrected one agree |
| LineOffsets.ThreeLines | TexSoup/utils.py:411-412 | three break-free lines joined by `\n` have exactly those two breaks |
| LineOffsets.DocExample | TexSoup/utils.py:401-410 | the documented results `(3) -> (0, 3)`, `(6) -> (1, 0)` and `(12) -> (2, 0)` of the corrected conversion |
| LineOffsets.DocExampleAsWritten | TexSoup/utils.py:401-410 | the same three results for `__call__` as written, whose `bisect` differs only at a line break |
| Categories.Letters | TexSoup/category.py:21 | `tuple(string.ascii_letters)`: the 26 lower-case letters, then the 26 upper-case ones |
| Categories.Table | TexSoup/category.py:9-26 | the sixteen entries of `CATEGORY_CODES`, in dictionary order |
| Categories.FirstEntry | TexSoup/category.py:48-51 | the index of the first entry whose values contain the character, or none when no entry does |
| Categories.Categorize | TexSoup/category.py:45-56 | one token per character: token `k` has character `k`, position `k` and that character's category |
| Categories.LetterEntry | TexSoup/category.py:21 | the letter entry holds exactly the ASCII letters |
| Categories.CategoryAt | TexSoup/category.py:47-56 | an entry containing the character, with no earlier entry containing it, gives that entry's category |
| Categories.FirstMatchWins | TexSoup/category.py:47-56 | a category other than `Other` is that of an entry containing the character with no earlier one containing it; a character no entry contains is `Other` |
| Categories.OtherIsFallback | TexSoup/category.py:22 | `Other` holds nothing, so a character is `Other` exactly when no entry contains it |
| Categories.EscapeIsCommand | TexSoup/category.py:10 | a backslash is `Command` |
| Categories.BracesAreGroups | TexSoup/category.py:11-12 | `{` is `GroupStart` and `}` is `GroupEnd` |
| Categories.DollarIsMathSwitch | TexSoup/category.py:13 | `$` is `MathSwitch` |
| Categories.LineEndsAreEndOfLine | TexSoup/category.py:15 | `\n` and `\r` are `EndOfLine` |
| Categories.BlanksAreSpacers | TexSoup/category.py:20 | a space and a tab are `Spacer` |
| Categories.PercentIsComment | TexSoup/category.py:24 | `%` is `Comment` |
| Categories.AsciiLettersAreLetters | TexSoup/category.py:21 | every ASCII letter is `Letter` |
| Categories.TextbfExample | TexSoup/category.py:35-43 | `\textbf{` gives eight tokens: `Command`, six `Letter`s, then `{` as `GroupStart` at 7 |
| Tokens.ArgTables | TexSoup/tokens.py:37-39 | the flattened delimiters are `[`, `]`, `{`, `}`; the starts are the even entries and the ends the odd ones, so start `k` and end `k` belong to argument type `k` |
| Tokens.PunctuationCommandShape | TexSoup/tokens.py:55-57 | every punctuation command is a size prefix followed by a bracket, `|` or `.` |
| Tokens.EnumeratedPointsAreProper | TexSoup/tokens.py:50-57 | every punctuation command is non-empty and does not end in a backslash |
| Tokens.EnumeratedPointsAreLetterLed | TexSoup/tokens.py:54-57 | every punctuation command starts with a letter |
| Tokens.RightFloorMissing | TexSoup/tokens.py:50-57 | as Python evaluates the literals, `\right\rfloor` is no punctuation command, in tokens.py or in reader.py |
| Tokens.RawTableHasRightFloor | TexSoup/tokens.py:50-57 | with raw literals, every size prefix followed by `\rfloor`, `\rangle`, `\rceil` or `\rbrack` is a punctuation command |
| Tokens.PunctuationEnd | TexSoup/tokens.py:131-143 | a backslash followed by the first point in table order that the text continues with is one token; elsewhere the recogniser does not apply |
| Tokens.FirstPoint | TexSoup/tokens.py:141-143 | the index of the first point the text continues with, none earlier matching |
| Tokens.CommandScan | TexSoup/tokens.py:146-158 | a command is the backslash, always the next character, then characters up to the first punctuation or whitespace other than `*`, stopping once it is a math delimiter |
| Tokens.CommandConditions | TexSoup/tokens.py:154-156 | on a name starting with a backslash, `c == '\\'` and `c in MATH_TOKENS` are the tests the scan makes |
| Tokens.DelimiterTable | TexSoup/tokens.py:42 | which characters, and which backslash pairs, belong to `ALL_TOKENS` |
| Tokens.CommentScan | TexSoup/tokens.py:176-177 | a comment runs up to, not including, the next `\n` |
| Tokens.ArgumentEnd | TexSoup/tokens.py:181-189 | a bracket or brace is a token of one character |
| Tokens.MathEnd | TexSoup/tokens.py:192-208 | an unescaped dollar gives `$$` when doubled and `$` otherwise |
| Tokens.StringScan | TexSoup/tokens.py:211-244 | text runs to the first delimiter it does not absorb, which stays for the next token; a backslash absorbs a delimiter it escapes; `\\` coming next is taken along; `\n\n` coming next is taken and ends the token |
| Tokens.NextEnd | TexSoup/tokens.py:62-91 | `next_token` uses the first recogniser that applies, in registration order; the string recogniser always applies |
| Tokens.TokensTile | TexSoup/tokens.py:94-108 | the tokens are non-empty, each sits at its own offset, and they spell the rest of the text unless an empty token stopped them |
| Tokens.TilesSpell | TexSoup/tokens.py:94-108 | tiling tokens put back together are the text they cover |
| Tokens.EmptyTokenIsStuckDelimiter | TexSoup/tokens.py:228-237 | a token is empty exactly at a `$` that is escaped or a `%` the comment guard rejects |
| Tokens.EndsUnescaped | TexSoup/tokens.py:174 | every token ends where a `$` or `%` that follows would count as unescaped |
| Tokens.CorrectedNeverStuck | TexSoup/tokens.py:174 | with the corrected comment guard, tokenizing never produces an empty token |
| Tokens.CommentAfterLineBreak | TexSoup/tokens.py:174 | on `\\%`, the guard as written leaves the tokenizer stuck after `\\`; corrected, `%` is a comment token |
| Tokens.CommentBeforeBackslash | TexSoup/tokens.py:174 | on `%\` at the start, the guard as written reads the queued backslash and no token comes out; corrected, the whole text is one comment |
| Tokenizer.TokenizePunctuationCommand | TexSoup/tokens.py:131-143 | on a buffer over the text, takes exactly what `Tokens.PunctuationEnd` says and leaves the cursor after it |
| Tokenizer.FindPoint | TexSoup/tokens.py:141-143 | the loop over the table returns the index of the first point the text continues with |
| Tokenizer.TokenizeCommand | TexSoup/tokens.py:146-158 | takes exactly the command `Tokens.CommandScan` describes |
| Tokenizer.CommandName | TexSoup/tokens.py:155-157 | the loop extends the name to the end `Tokens.CommandScan` gives |
| Tokenizer.TokenizeLineComment | TexSoup/tokens.py:161-178 | takes exactly the comment `Tokens.CommentScan` describes, under the guard of the chosen variant |
| Tokenizer.CommentRest | TexSoup/tokens.py:176-177 | the loop takes everything up to the line break |
| Tokenizer.TokenizeArgument | TexSoup/tokens.py:181-189 | takes exactly the bracket `Tokens.ArgumentEnd` describes |
| Tokenizer.TokenizeMath | TexSoup/tokens.py:192-208 | takes exactly the switch `Tokens.MathEnd` describes |
| Tokenizer.TokenizeString | TexSoup/tokens.py:211-244 | returns the text up to `Tokens.StringScan`, placed at the start, with the cursor there |
| Tokenizer.StringPiece | TexSoup/tokens.py:231-237 | the head of the loop: the next character or an absorbing backslash pair; at another delimiter the cursor is pushed back |
| Tokenizer.StringBreaks | TexSoup/tokens.py:239-243 | the tail of the loop: a `\\` next is taken along, and a `\n\n` next is taken and ends the token |
| Tokenizer.NextToken | TexSoup/tokens.py:62-91 | returns the token `Tokens.NextToken` gives and moves to its end; None once the text is used up |
| Tokenizer.Tokenize | TexSoup/tokens.py:94-108 | yields exactly the tokens `Tokens.Tokenize` lists, and reports whether an empty token stopped it |
| ReaderSpec.UntilAt | TexSoup/utils.py:304-316 | `forward_until` on tokens stays within them and never moves back |
| ReaderSpec.TexAt | TexSoup/reader.py:227-271 | `read_tex` always takes at least the token it dispatches on |
| ReaderSpec.CommandAt | TexSoup/reader.py:252-266 | the command branch, with the command's and the environment's names stripped, never moves back |
| ReaderSpec.MathAt | TexSoup/reader.py:322-340 | `read_math_env` takes at least the closing token |
| ReaderSpec.EnvAt | TexSoup/reader.py:343-365 | `read_env` on the stripped name the expression keeps never moves back |
| ReaderSpec.SkipAt | TexSoup/reader.py:354-355 | the skipped body, chosen by the stripped name, never moves back |
| ReaderSpec.EnvBody | TexSoup/reader.py:356-357 | the loop of `read_env` never moves back |
| ReaderSpec.ArgsAt | TexSoup/reader.py:368-404 | `read_args` never moves back |
| ReaderSpec.LeadingArgs | TexSoup/reader.py:383-385 | the first loop only extends the arguments; it stays put exactly when it adds none, and adds one at whitespace |
| ReaderSpec.ArgChain | TexSoup/reader.py:388-399 | the second loop only extends the arguments, and stays put when it adds none |
| ReaderSpec.ArgAt | TexSoup/reader.py:407-424 | `read_arg` never moves back |
| ReaderSpec.ArgItems | TexSoup/reader.py:417-423 | the loop of `read_arg` only extends its items |
| ReaderSpec.ItemAt | TexSoup/reader.py:274-319 | `read_item` never moves back |
| ReaderSpec.ItemArgAt | TexSoup/reader.py:302-305 | an item has at most one argument of its own |
| ReaderSpec.LeadingSpace | TexSoup/reader.py:289-296 | `forward_until_new` never moves back |
| ReaderSpec.ItemBody | TexSoup/reader.py:313-318 | the loop of `read_item` only extends the contents |
| ReaderSpec.Children | TexSoup/tex.py:17-21 | the loop of `read` only extends the children |
| Reader.ReadTex | TexSoup/reader.py:227-271 | on a buffer, `read_tex` computes what `ReaderSpec.TexAt` states and leaves the cursor where it says |
| Reader.ReadCommand | TexSoup/reader.py:252-266 | agrees with `ReaderSpec.CommandAt` |
| Reader.ReadItemCommand | TexSoup/reader.py:254-256 | `\item`: the item, then its arguments after the item's own, as `ReaderSpec.CommandAt` states |
| Reader.ReadBegin | TexSoup/reader.py:257-265 | `\begin`: the name after `{`, the arguments after `{ name }`, then the body, as `ReaderSpec.CommandAt` states |
| Reader.ReadPlainCommand | TexSoup/reader.py:259-262 | any other command: its arguments, as `ReaderSpec.CommandAt` states |
| Reader.ReadMathEnv | TexSoup/reader.py:322-340 | agrees with `ReaderSpec.MathAt` |
| Reader.ReadEnv | TexSoup/reader.py:343-365 | agrees with `ReaderSpec.EnvAt` |
| Reader.SkippedChunk | TexSoup/reader.py:354-355 | agrees with `ReaderSpec.SkipAt` |
| Reader.EnvBodyLoop | TexSoup/reader.py:356-357 | agrees with `ReaderSpec.EnvBody` |
| Reader.CloseEnv | TexSoup/reader.py:358-365 | the four tokens of `\end{name}` are passed exactly when they follow |
| Reader.ReadArgs | TexSoup/reader.py:368-404 | agrees with `ReaderSpec.ArgsAt`, roll-back included |
| Reader.LeadingArgsLoop | TexSoup/reader.py:383-385 | agrees with `ReaderSpec.LeadingArgs` |
| Reader.ArgChainLoop | TexSoup/reader.py:388-399 | agrees with `ReaderSpec.ArgChain` |
| Reader.ArgChainTurn | TexSoup/reader.py:389-399 | one turn of the second loop: the new line-break count and the arguments read |
| Reader.GapRead | TexSoup/reader.py:391-394 | whitespace followed by an opener across at most one line break is read as the next argument, and the chain goes on past it with that break counted |
| Reader.ReadArg | TexSoup/reader.py:407-424 | agrees with `ReaderSpec.ArgAt` |
| Reader.ReadItem | TexSoup/reader.py:274-319 | agrees with `ReaderSpec.ItemAt` |
| Reader.ReadItemArg | TexSoup/reader.py:302-305 | agrees with `ReaderSpec.ItemArgAt` |
| Reader.ForwardUntilNew | TexSoup/reader.py:289-296 | agrees with `ReaderSpec.LeadingSpace`; with nothing under the cursor `peek().position` fails |
| Reader.ItemBodyLoop | TexSoup/reader.py:313-318 | agrees with `ReaderSpec.ItemBody` |
| Reader.Read | TexSoup/tex.py:7-22 | `read(tex)` computes `ReaderSpec.ReadOf`: the tokens in a buffer, then `read_tex` while a next token exists |
| ReaderProps.ArgSetsAre | TexSoup/reader.py:15-17 | the opener set is `{'[', '{'}` and the closer set is `{']', '}'}`, the opener of each type being start `k` of the tokenizer's table |
| ReaderProps.TexKinds | TexSoup/reader.py:227-271 | the first token decides the kind: a comment is kept, `$`/`$$`/`\[`/`\(` open math environments named `$`, `$$`, `displaymath`, `math`, `\begin` an environment named by the stripped text of the token after `{`, any other backslash a command named by the rest, stripped, an opener an argument, anything else text |
| ReaderProps.MathBodyIsOneChunk | TexSoup/reader.py:332-339 | a math body is one raw chunk: the tokens up to the closing switch, joined and placed at the first; the switch is then passed |
| ReaderProps.MathStops | TexSoup/reader.py:337-340 | `read_math_env` stops one past the end of the body |
| ReaderProps.MathOutcomes | TexSoup/reader.py:332-340 | the three outcomes: nothing under the cursor, a missing closing switch (EOFError), or the body |
| ReaderProps.UnclosedMath | TexSoup/reader.py:333-336 | with no closing switch left, `read_math_env` raises EOFError |
| ReaderProps.ArgItemsEnd | TexSoup/reader.py:417-423 | the loop of `read_arg` ends on the first closing token, added last, or where the tokens run out; no earlier item closes |
| ReaderProps.ArgIsDelimited | TexSoup/reader.py:407-424 | `read_arg` succeeds only with the argument of the opener's type closed by that type's closer; an unclosed or mismatched argument is the TypeError |
| ReaderProps.UnclosedArgFails | TexSoup/reader.py:418-424 | with no closing token left, an argument cannot be read |
| ReaderProps.SkipIsOneChunk | TexSoup/reader.py:354-355 | the body of an environment to skip is one chunk: the tokens up to the first `\end`, joined and placed at the first |
| ReaderProps.SkipsVerbatimEquationAlign | TexSoup/reader.py:19-23 | a name token that strips to `verbatim`, `equation` or `align` is skipped whatever else is |
| ReaderProps.CommandKinds | TexSoup/reader.py:252-262 | the command branch builds an environment exactly for `begin` (named by the stripped token after it) and a command otherwise (named by `c[1:]` stripped) |
| ReaderProps.BeginReadsStrippedName | TexSoup/reader.py:257-265 | `\begin{ b }\end{b}` is read: the name is stripped before `read_env` looks for `\end{b}`, four tokens after the name |
| ReaderProps.BeginWithoutName | TexSoup/reader.py:258 | `\begin` with no name token after the `{` fails with the AttributeError of `None.strip()` |
| ReaderProps.EnvClosesAtOnce | TexSoup/reader.py:353-364 | an environment that is not skipped and whose `\end{name}` follows at once is empty and ends four tokens on |
| ReaderProps.PaddedNames | TexSoup/data.py:199 | ` b ` is named `b` and closed by `\end{b}`; ` verbatim ` is a skipped environment |
| ReaderProps.EnvBodyStops | TexSoup/reader.py:356-357 | the loop of `read_env` stops only where the tokens run out or `\end{name}` follows, keeping what it started with in front |
| ReaderProps.EnvEndsWithPattern | TexSoup/reader.py:358-365 | `read_env` succeeds only after `\end{name}`, whose four tokens are the last it takes |
| ReaderProps.UnclosedEnvFails | TexSoup/reader.py:358-361 | an end pattern that follows nowhere makes `read_env` fail |
| ReaderProps.UnclosedEnvIsEOF | TexSoup/reader.py:356-361 | when the body reads to its end, the missing `\end{name}` is the EOFError |
| ReaderProps.LeadingArgsReadAllSpace | TexSoup/reader.py:384-385 | the first loop of `read_args` ends at a token that is not whitespace |
| ReaderProps.ArgsRollbackIsNoOp | TexSoup/reader.py:401-402 | with no argument found the cursor is where it started, so the roll-back never fails itself |
| ReaderProps.BlankLineEndsArgs | TexSoup/reader.py:389-397 | whitespace holding two line breaks or more ends the chain of arguments, which stays put |
| Reader.ArgChainEnds | TexSoup/reader.py:389-397 | where the loop test fails (no opener, or whitespace right after a skipped stretch) the chain ends where it is with the arguments it has |
| ReaderProps.OneBreakKeepsArgs | TexSoup/reader.py:389-395 | whitespace with at most one line break followed by an opener: both are read and the chain goes on after the argument |
| ReaderProps.SpaceIsText | TexSoup/reader.py:233-271 | `read_tex` reads a whitespace token as text |
| ReaderProps.ItemBodyStops | TexSoup/reader.py:313-318 | the loop of `read_item` stops only where the tokens run out, `\item` or `\end` follows, or the last expression ends a paragraph; no earlier expression ends one |
| ReaderProps.ParagraphStops | TexSoup/reader.py:316 | after an expression that ends a paragraph the loop stops |
| ReaderProps.ReadOfPieces | TexSoup/tex.py:13-16 | a string source is used as it is; an iterable source is read as the concatenation of its strings |
| ReaderProps.ReadOfShape | TexSoup/tex.py:22 | `read` returns the global environment `[tex]`, without arguments, and the source text |
| ReaderProps.ChildrenInOrder | TexSoup/tex.py:17-21 | the children are `read_tex` at the cursor the previous one left, in order, until the tokens run out |
| Data.Delims | TexSoup/data.py:406-409 | `delims()` splits the format into exactly its opening and closing delimiter |
| Data.DelimsAre | TexSoup/data.py:435-446 | `OArg` splits into `[` and `]`, `RArg` into `{` and `}` |
| ReaderSpec.DelimitersAre | TexSoup/data.py:406-409 | the opening and closing delimiter of each argument type, as the reader compares them, are those `delims()` yields |
| Data.FirstAccepting | TexSoup/data.py:396-398 | the first argument type that accepts the input, none earlier accepting it |
| Data.Parse | TexSoup/data.py:379-414 | an argument is returned as it is; a list needs a type's delimiters at both ends, an empty one being the IndexError of `s[0]`; a string must start and end with them, else the TypeError; any other value is the AttributeError of `s.startswith` (line 414) |
| Data.FormattedLength | TexSoup/data.py:416-419 | a formatted string has at least its two delimiters |
| Data.ParseTextValue | TexSoup/data.py:396-398 | a parsed string's value is the text between its delimiters |
| Data.ParseThenStr | TexSoup/data.py:396-432 | `str(Arg.parse(s)) == s` for every string `Arg.parse` accepts |
| Data.StrThenParse | TexSoup/data.py:396-432 | the string form of an argument parses back to an argument of the same type and value |
| Data.ParseIdempotent | TexSoup/data.py:385-386 | parsing an argument gives it back, so parsing twice is parsing once |
| Data.ParseList | TexSoup/data.py:387-395 | a list is accepted exactly when its ends are a type's delimiters; the argument holds the items in between |
| Data.MalformedIsTypeError | TexSoup/data.py:399-400 | a string without a matching delimiter pair, such as `(]`, is the TypeError |
| Data.FormattedParses | TexSoup/data.py:411-419 | a string between the delimiters of a type parses |
| Data.DelimitedParses | TexSoup/data.py:411-414 | a string that starts and ends with a type's delimiters parses |
| Data.ParseAll | TexSoup/data.py:475-479 | every value parsed in order, failing at the first malformed one |
| Data.ParseAllOk | TexSoup/data.py:475-479 | when every value parses, building the list succeeds |
| Data.ParseAllFails | TexSoup/data.py:475-479 | one malformed value anywhere makes building the list fail |
| Data.TexArgs.constructor | TexSoup/data.py:475-477 | an empty argument list has both views empty and in lockstep |
| DataTree.Children | TexSoup/data.py:79-84 | the immediate children of a node are all commands or environments |
| Data.TexArgs.Append | TexSoup/data.py:481-485 | `append` parses the value and adds the argument and its value to the two views in lockstep; a malformed value changes nothing |
| Data.Lockstep | TexSoup/data.py:487-491 | `args(i)` and `args[i]` exist for the same indices, and the second is the value of the first |
| Data.NewTexArgs | TexSoup/data.py:475-479 | `TexArgs(*values)` appends each value in order; the first malformed one raises |
| Data.TextArgsRoundTrip | TexSoup/data.py:497-503 | building an argument list from formatted strings and printing it gives the strings back, concatenated |
| Data.ArgsDoctest | TexSoup/data.py:497-503 | `TexArgs('{a}', '[b]', '{c}')` prints as `{a}[b]{c}` |
| Data.EnvFrames | TexSoup/data.py:289-297 | an environment's string is its joined contents between a head and a tail: nothing for `[tex]`, the name twice for `nobegin`, `\begin{name}args` and `\end{name}` otherwise; the contents cut back out |
| Data.CmdFrames | TexSoup/data.py:340-343 | a command's string is `\name` and its arguments, then ` extra` exactly when there is extra text |
| DataTree.Insert | TexSoup/data.py:210-212 | `list.insert(i, x)` with a negative index counted from the end and clipped to the list |
| DataTree.InsertEach | TexSoup/data.py:210-212 | `add_contents_at(i, *items)` grows the list by the number of items |
| DataTree.InsertEachKeepsItems | TexSoup/data.py:210-212 | whatever the index, the result holds exactly the old items and the new ones |
| DataTree.InsertEachInside | TexSoup/data.py:210-212 | at an index inside the list the new items land at `i .. i+k-1` in order, and the old items keep their order around them |
| DataTree.InsertEachPastEnd | TexSoup/data.py:210-212 | past the end the items are appended in order |
| DataTree.IndexOf | TexSoup/data.py:219 | `list.index`: the first equal item, none earlier equal, or none at all |
| DataTree.TexEnv.constructor | TexSoup/data.py:268-281 | a new environment holds the given name, contents, arguments and `nobegin` flag |
| DataTree.TexEnv.AddContents | TexSoup/data.py:207-208 | `add_contents` extends the content list |
| DataTree.TexEnv.AddContentsAt | TexSoup/data.py:210-212 | `add_contents_at` inserts item `j` at `i + j`, one after the other |
| DataTree.TexEnv.RemoveContent | TexSoup/data.py:214-221 | removes the first equal item and returns its index; ValueError when there is none, leaving the list |
| DataTree.TexEnv.ReplaceChild | TexSoup/data.py:140-144 | the replacements take the place of the first item equal to the child, at the same index |
| DataTree.TexCmd.constructor | TexSoup/data.py:323-325 | a new command holds the given name, arguments and extra text |
| DataTree.TexCmd.AddContents | TexSoup/data.py:336-338 | a command appends the items' strings, joined by spaces, to `extra` |
| DataTree.AppendExtra | TexSoup/data.py:336-343 | once a command has extra text, appending to it appends to the command's string |
| DataTree.KeptContents | TexSoup/data.py:283-287 | an environment's contents hold exactly the items that are not blank tokens, and no more items than there were |
| DataTree.KeptContentsAppend | TexSoup/data.py:283-287 | the filter keeps order and count: the contents of a concatenation are those of each part in turn |
| DataTree.KeptContentsOne | TexSoup/data.py:283-287 | one item is kept as it is, or dropped when it is a token that strips to nothing |
| DataTree.ArgExprs | TexSoup/data.py:328-332 | a command's contents hold exactly the expressions of its arguments |
| DataTree.ArgExprsAppend | TexSoup/data.py:328-332 | argument by argument: the expressions of a concatenation of arguments are those of each part in turn |
| DataTree.ArgExprsOne | TexSoup/data.py:328-332 | one argument gives its own expressions, in order |
| DataTree.Nodes | TexSoup/data.py:243-246 | `children` holds exactly the commands and environments among the contents, and no more items than there were |
| DataTree.NodesAppend | TexSoup/data.py:243-246 | `children` keeps order and count: the children of a concatenation are those of each part in turn |
| DataTree.NodesOne | TexSoup/data.py:243-246 | one item is a child exactly when it is a command or an environment |
| DataTree.AttrText | TexSoup/data.py:37-63 | `getattr(node, k)` is a string exactly for `name`, for a command's `extra`, and for `string` on a command with exactly one argument |
| DataTree.MatchesByAttrs | TexSoup/data.py:156-160 | without `{` or `[` in the name, a node matches exactly when it has the name and every other queried attribute |
| DataTree.MatchesByString | TexSoup/data.py:154-155 | with `{` or `[` in the name, a node matches exactly when its string is the name, whatever the attributes |
| DataTree.OtherAttrNeverMatches | TexSoup/data.py:157-159 | a queried attribute other than `name`, `string` and `extra` rules out every match |
| DataTree.MoreAttrsMatchLess | TexSoup/data.py:157-160 | adding attributes to a query only removes matches |
| DataTree.Matching | TexSoup/data.py:98-103 | the matching nodes of a sequence, exactly those and in order |
| DataTree.MatchingAppend | TexSoup/data.py:98-103 | matching keeps order and count: the matches of a concatenation are those of each part in turn |
| DataTree.FindAll | TexSoup/data.py:98-103 | with a name, `find_all` lists exactly the descendants matching the name and attributes; with none, it raises `TypeError` exactly when some descendant is a node and is empty otherwise |
| DataTree.MatchingFirst | TexSoup/data.py:105-110 | the first match of a sequence comes before every other match |
| DataTree.FindIsFirstMatch | TexSoup/data.py:105-110 | with a name, `find` is the first descendant matching name and attributes, and None exactly when none does; with no name, `TypeError` exactly when some descendant is a node, None otherwise |
| DataTree.CountIsOccurrences | TexSoup/data.py:112-114 | with a name, `count` is the number of descendants matching name and attributes; with no name, `TypeError` exactly when some descendant is a node, 0 otherwise |
| DataExamples.TabularDoctest | TexSoup/data.py:255-265 | `TexEnv('tabular', [body], [RArg(spec)])` prints its argument right after `\begin{tabular}` and has no children |
| DataExamples.TextbfDoctest | TexSoup/data.py:311-320 | the nested `\textbf{big \textit{slant}.}` prints with the inner command inside the braces, and the inner command is the one child |
| DataExamples.CountDoctest | TexSoup/data.py:149-152 | in `\ref{hello}\ref{hello}\ref{hello}\ref{nono}`, three nodes match `\ref{hello}` |
| DataExamples.RefMatches | TexSoup/data.py:154-155 | a name with a brace matches by the node's whole string: `\ref{hello}` yes, `\ref{nono}` no |
| DataExamples.StringAttrCount | TexSoup/data.py:112-114 | `count('ref', string='hello')` on the same document is 3 |
| DataExamples.RefStrings | TexSoup/data.py:58-63 | `\ref{hello}` matches `ref` with `string='hello'`, and `\ref{nono}` does not |
| DataExamples.NoNameIsTypeError | TexSoup/data.py:154 | `find()` with no name on that document raises `TypeError` |
| DataExamples.ChildlessDescendants | TexSoup/data.py:86-96 | a command whose argument is one plain string has that string as its only descendant |
| MathMode.Top | TexSoup/math_config.py:43 | the top of the stack, none exactly when the stack is empty |
| MathMode.PopIfAny | TexSoup/math_config.py:33-34 | `pop` on a non-empty stack drops its last mode; an empty stack stays empty |
| MathMode.PopUndoesPush | TexSoup/math_config.py:25-35 | entering and then leaving a mode gives the stack back |
| MathMode.MathModeTracker.constructor | TexSoup/math_config.py:17-20 | the declared state: an empty stack, yet `in_math_mode` True, so the flags start out of step with the stack |
| MathMode.MathModeTracker.Enter | TexSoup/math_config.py:25-29 | `enter(m)` pushes `m` and sets the flags to math mode `m` |
| MathMode.MathModeTracker.Exit | TexSoup/math_config.py:31-37 | `exit` pops when there is something to pop and never changes the flags |
| MathMode.MathModeTracker.Track | TexSoup/math_config.py:39-46 | after `math_mode_track` the flags say math mode exactly when the stack is non-empty, with the top as the type |
| MathMode.MathModeTracker.Reset | TexSoup/math_config.py:48-53 | `reset` leaves an empty stack and no math mode |
| RReplace.RSplitJoin | v1/utils.py:11 | joining the pieces of `rsplit` with the separator gives the string back |
| RReplace.RSplitPieces | v1/utils.py:11 | at most `n + 1` pieces, and every piece after the first is free of the separator |
| RReplace.RSplitEnough | v1/utils.py:11 | a split count reaching every occurrence splits everywhere |
| RReplace.AbsentUnchanged | v1/utils.py:9-11 | where the pattern does not occur nothing is replaced, whatever the count |
| RReplace.ReplaceLastOnce | v1/utils.py:11 | a count of one replaces the last occurrence and nothing else |
| RReplace.SelfReplacement | v1/utils.py:9-11 | replacing a pattern by itself changes nothing |
| RReplace.AllIsUnlimited | v1/utils.py:9-11 | corrected: `'*'` and a count of -1 mean the same |
| RReplace.EnoughIsAll | v1/utils.py:11 | a count no smaller than the number of occurrences replaces them all |
| RReplace.DocExamples | v1/utils.py:4-7 | `rreplace('haha1haha', 'ha', '')` is `1`, and with a count of one it is `haha1ha` |
| RReplace.StarExample | v1/utils.py:9-10 | `str.replace` on the example removes every `ha` |
| RReplace.RSplitStar | v1/utils.py:11 | splitting the example from the right everywhere and joining gives `1` |
| RReplace.StarReplacesFromTheLeft | v1/utils.py:9-11 | on `aaa` with `aa`, `'*'` as written gives `Xa`, replacing from the left; corrected, `aX` |
| V1Commands.IterPicksFirstBraced | v1/texSoup.py:149-159 | `__iter__` gives the operator and the first parameter that starts with `{`, its first and last characters dropped, or None when there is none |
| V1Commands.Command.constructor | v1/texSoup.py:131-140 | a new command holds the given operator, parameters and raw text |
| V1Commands.Command.Update | v1/texSoup.py:142-147 | `update` clears the raw text and sets exactly the given fields |
| V1Commands.TakeChar | v1/texSoup.py:208-243 | one turn of the loop of `fromLatexIter` computes the step of the character-loop specification |
| V1Commands.FromLatexIter | v1/texSoup.py:196-245 | the generator yields exactly the commands of the specification `IterOf`, as new objects, and fails where it does |
| V1Commands.FromLatex | v1/texSoup.py:177-194 | `fromLatex` is the first command of `fromLatexIter(tex, 1)`, or `Command('', '', '')` when the generator raises first |
| V1Commands.IterWellFormed | v1/texSoup.py:206-245 | every command yielded has an operator without spaces, backslashes or delimiters, and parameters ending in `}` or `]` |
| V1Commands.FirstCommandIsPrefix | v1/texSoup.py:222-238 | on a source starting with a backslash, the first command's raw text is a prefix of the source ending at a space or backslash outside every group, or at the end |
| V1Commands.UnmatchedCloserFails | v1/texSoup.py:214-220 | a closer before any opener is the KeyError: nothing is yielded, and `fromLatex` gives the empty command |
| V1Commands.NameRun | v1/texSoup.py:240-243 | name characters after the backslash go to the operator and the raw text |
| V1Commands.InnerRun | v1/texSoup.py:240-243 | inside an open group every non-delimiter, spaces and backslashes included, goes to the parameter |
| V1Commands.PlainRun | v1/texSoup.py:240-243 | outside any name and group ordinary characters go to the raw text only |
| V1Commands.DeepenStep | v1/texSoup.py:210-212 | an opener inside a group of its own kind deepens the counter and goes to the parameter |
| V1Commands.ShallowStep | v1/texSoup.py:215-217 | a closer whose counter stays open goes to the parameter |
| V1Commands.GroupRun | v1/texSoup.py:210-220 | a flat group opens its counter, collects its contents and closes, becoming the next parameter |
| V1Commands.GroupsReady | v1/texSoup.py:210-220 | flat groups one after another become the parameters in order |
| V1Commands.NestedGroupRun | v1/texSoup.py:210-220 | a group holding an inner group of its kind closes only at its own closer: one parameter, inner braces kept |
| V1Commands.EndRead | v1/texSoup.py:228-238 | after the name and its groups, a space, a backslash or the end yields the command read so far |
| V1Commands.WordYields | v1/texSoup.py:245 | a plain word running to the end is yielded last with an empty operator |
| V1Commands.ReadsNameAndGroups | v1/texSoup.py:177-194 | a backslash, a name and flat groups, then a space, a backslash or nothing: `fromLatex` returns that command, and its raw text is what `str` rebuilds from the parts |
| V1Commands.ReadsNestedThenFlat | v1/texSoup.py:185-189 | a name, a group with one inner group and a flat group make one command with two parameters |
| V1Commands.HohoHaha | v1/texSoup.py:181-182 | `fromLatex('\hoho haha')` is `\hoho` |
| V1Commands.HohoGroups | v1/texSoup.py:183-184 | `fromLatex('\hoho{haha}[hehe] huehue')` is `\hoho{haha}[hehe]` with those two parameters |
| V1Commands.HohoHahaIter | v1/texSoup.py:200-204 | `fromLatexIter('\hoho haha')` yields `\hoho`, then `haha` |
| V1Commands.TextbfHello | v1/texSoup.py:152-156 | unpacking `fromLatex('\textbf{Hello}')` gives `textbf` and `Hello` |
| V1Commands.ItemHelloThere | v1/texSoup.py:166-171 | `\item[2.]{hello there}` has operator `item` and both parameters, and with its raw text cleared prints the same source |
| V1Commands.AnswerNested | v1/texSoup.py:185-189 | `\answer{You \textbf{so?}}{Grrr.}` has operator `answer`, the first parameter keeps its inner braces, and it prints the same source |
| V1Commands.AsWrittenLosesOperator | v1/texSoup.py:223-228 | as written, in `\a{x}\b{y}` the second command has an empty operator |
| V1Commands.CorrectedKeepsOperator | v1/texSoup.py:223-228 | corrected, the second command is `b` with parameter `{y}` |
| V1Commands.CorrectedNamesNextCommand | v1/texSoup.py:223-229 | corrected, for every source: a backslash after a command with parameters yields that command, and the name after the backslash becomes the next operator |
| V1Nodes.EndOf | v1/texSoup.py:60-61 | the `\end` that matches a `\begin` starts with a backslash and is not empty |
| V1Nodes.StripRemovesFirst | v1/texSoup.py:58 | a command that occurs loses its first occurrence, and putting it back there restores the source; one that does not occur, or prints as nothing, leaves the source |
| V1Nodes.StripBegin | v1/texSoup.py:59-61 | for a `\begin` with a parameter the last `\end` is also removed, nothing else; without parameters `params[0]` is the IndexError |
| V1Nodes.StripCommand | v1/texSoup.py:47-62 | `stripCommand` computes that result and leaves the caller's `\begin` command updated to its `\end`, as `update` does in place |
| V1Nodes.StripAround | v1/texSoup.py:58-61 | a `\begin` in front and its `\end` at the back both go, leaving what is between |
| V1Nodes.StripSection | v1/texSoup.py:51-53 | stripping `\section{b}` from `\section{b}\item y` leaves `\item y` |
| V1Nodes.StripBeginExample | v1/texSoup.py:54-56 | stripping `\begin{b}` from the nested example removes the outer `\begin{b}` and the last `\end{b}` only |
| V1Nodes.ExpandDescendants | v1/texSoup.py:68-75 | the expansion ends with the branches themselves |
| V1Nodes.ExpandIsBelow | v1/texSoup.py:75 | the expansion lists exactly the nodes at or below the branches |
| V1Nodes.ExpandLength | v1/texSoup.py:75 | every node appears once per position it has in the tree: the length is the size of the forest |

## Left out

- I/O, Python generator laziness and the iterator protocol. Generators are
  sequences, and `StopIteration` is `None`.
- `to_buffer` is not modelled. It wraps a non-`Buffer` argument in a
  `Buffer`; every model function takes the buffer itself.
- Object identity is not modelled. Contents are compared by value, as
  `list.index` and `list.remove` compare them. Parent pointers, and `TexNode`'s
  wrapper objects, `delete`, `replace`, `add_children` and `char_pos_to_line`,
  are left out of the data model: the search is stated on the expression
  tree directly. `__getattr__` enters only through `DataTree.AttrText`: the
  node or `None` it returns equals no string.
- DataTree.FindAll / Find / Count: the values of the keyword attributes are
  strings. A non-string value (`string=None`, a node, a list) is not
  modelled, and neither is a key naming one of Python's own class attributes
  (`__doc__`, `__module__`), which the model treats as never equal. The
  `attrs['name'] = name` write in `__match__` is modelled as a map update,
  not as a change to the caller's dictionary.
- FindIsFirstMatch: holds for string-valued attributes only, as the line
  above says.
- CountIsOccurrences: holds for string-valued attributes only, as the line
  above says.
- `TexExpr.tokens`, the `__repr__` methods, `Arg.__getitem__` / `__iter__`,
  `TexNode.__getitem__` / `__iter__` and `TokenWithPosition.__getattr__`
  delegation to `str` are not modelled. They are display and convenience
  sugar.
- `Positioned.Split`: a `None` separator (split at runs of whitespace) and
  `maxsplit` are not modelled. Only an explicit separator is.
- `TokenWithPosition.__bool__`, `__str__` and `join` are used as plain text
  operations (`Positioned.Join`) without contracts of their own.
- Tokens.Tokenize: in the source, after the first empty token the generator
  yields `''` forever. The model stops there and reports that it stopped.
- Reader.ReadItem: the loop test on `str(src)` is not modelled. A `Buffer`
  prints as its default object representation, which never starts with a
  line break, so the test is always false.
- Reader.ReadItem: `stringify` is taken as the identity. Splitting at single
  spaces and joining with single spaces gives the same text and the same
  position.
- `TexSoup/tex.py` keeps a child only when it is not `None`. `read_tex` never
  returns `None`: every branch returns an expression, a token or raises. So
  the filter drops nothing, and `Reader.Read` keeps every child.
- `CC` and `Token` are not defined in the `utils.py` shown, so
  `category.py` and `tokens.py` cannot import them. The category codes are
  modelled as an enumeration in the order of the table.
- The round trip from the whole source to its string is not modelled.
  `TexEnv.__str__` joins contents with `\n`, and the reader builds objects
  this `data.py` does not define.
- V1Commands.Command.Update: `stripCommand` sets `params` to the string
  `params[0]`, not a list. The model sets a one-element list. `''.join` of a
  string is that string, so `str` gives the same `\end{...}`. Only a later
  `__iter__` on that command would differ, and `stripCommand` never iterates
  it.
- V1Commands.ReadsNestedThenFlat: the reading lemmas cover groups nested one
  level deep. Deeper nesting follows from the same step lemmas
  (`DeepenStep`, `ShallowStep`) but is not stated.
- `v1/texSoup.py`'s `TexSoup()`, `TexNode.__init__`, `parseFirstCommand`
  (which only calls `fromLatex`) and `parseBranches` are not part of this
  model. `V1Nodes.Node` takes the branches as given.
- Reader.ReadItemCommand: `TexCmd(command, contents, arg)` is read as
  name, extra part and starting arguments, not by the positions of the
  `TexCmd` in `TexSoup/data.py:323`, under which the contents would start
  `read_args` (see "Snapshot mismatch"). `ReaderSpec.CommandAt` does the
  same.
- Reader.Read: it reads the token stream of the corrected tokenizer. As
  written, the tokenizer yields `''` after `\\` at `a\\%x`, and `read`
  stops at that first empty token, dropping `%x`. `Tokens.CommentAfterLineBreak`
  states where the tokenizer gets stuck.
- `MathModeTracker` keeps its state on the class, shared by every user. The
  model is one object with the same three fields.

## Findings

| source | as written | input that shows it | evidently intended | confidence | as-written member | corrected member |
|---|---|---|---|---|---|---|
| TexSoup/utils.py:200-203 | `split` searches for each piece starting at the previous piece's offset, so a repeated piece is found again at the earlier place | `TokenWithPosition('a,a', 0).split(',')` places both pieces at 0 | each piece at its own offset: 0 and 2 | not executed | Positioned.SplitAsWrittenMisplaces | Positioned.Split |
| TexSoup/utils.py:347-349 | `__next__` stamps each pulled element with the cursor, which `forward` has already moved past the queue | `Buffer('abcdef').forward(3)` places `abc` at 3 | elements placed at their own index: `abc` at 0 | not executed | Buffers.ForwardAsWrittenMisstamps | Buffers.ForwardDoctest |
| TexSoup/tokens.py:174 | the comment guard rejects a `%` right after a backslash, even when that backslash ends a `\\` line break; at offset 0 `peek(-1)` reads the last queued element; no recogniser then takes the `%`, and `tokenize` yields `''` forever | `\textit{hello \\%}` (tests/test_parser.py:353-354), reduced to `\\%`; also `%\` | a `%` not escaped by a single backslash starts a comment, as `tokenize_math` tests for `$` | not executed | Tokens.CommentAfterLineBreak | Tokens.CorrectedNeverStuck |
| v1/texSoup.py:223-228 | after yielding on a backslash the reset sets `is_operator` to False, so the next command's name is not collected | `Command.fromLatexIter('\a{x}\b{y}')` yields `\a{x}`, then a command with operator `''` | the second command has operator `b`, as the space branch at lines 230-235 keeps it | not executed | V1Commands.AsWrittenLosesOperator | V1Commands.CorrectedNamesNextCommand |
| TexSoup/utils.py:416-424 | the line number is `bisect_right` of the break offsets, so the offset of a `\n` counts as the next line | `CharToLineOffset('a\nb')(1)` is `(1, -1)` | the break belongs to the line it ends: `(0, 1)` | not executed | LineOffsets.LocateAsWrittenOnBreak | LineOffsets.LocateSpansLine |
| v1/utils.py:9-10 | with `'*'`, `rreplace` calls `str.replace`, which replaces from the left | `rreplace('aaa', 'aa', 'X')` is `Xa` | replacing from the end, as the name and docstring say: `aX` | not executed | RReplace.StarReplacesFromTheLeft | RReplace.AllIsUnlimited |
| TexSoup/tokens.py:52 | `'\rfloor'` is not a raw literal, so the table holds a carriage return followed by `floor` | `\right\rfloor` is no punctuation command; reader.py:25-27 loses `\rangle`, `\rceil` and `\rbrack` the same way | raw literals, as beside them: `\right\rfloor` is one token | not executed | Tokens.RightFloorMissing | Tokens.RawTableHasRightFloor |
