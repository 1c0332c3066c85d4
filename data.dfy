/**
 * The expression and argument data model of TexSoup/data.py: arguments
 * (`OArg`, `RArg`) with their delimiters, argument lists that keep two
 * synchronised views, environments and commands with their string forms,
 * the content-mutation methods of `TexExpr`, and the search methods of
 * `TexNode`.
 */
module Data {

  import opened Wrappers
  import opened Strings
  import Positioned

  /** `OArg` and `RArg`. */
  datatype ArgKind = Optional | Required

  /** `args = (OArg, RArg)`: the argument types in the order they are tried. */
  const ArgTypes: seq<ArgKind> := [Optional, Required]

  /** The class attribute `fmt`. */
  function Fmt(k: ArgKind): string
  {
    if k.Optional? then "[%s]" else "{%s}"
  }

  /** `delims()`: the format split at its placeholder. */
  function Delims(k: ArgKind): (d: seq<string>)
    ensures |d| >= 1
  {
    Split(Fmt(k), "%s")
  }

  /** Each format splits into its opening and its closing delimiter. */
  lemma DelimsAre(k: ArgKind)
    ensures Delims(k) == if k.Optional? then ["[", "]"] else ["{", "}"]
  {
    var f := Fmt(k);
    var c := if k.Optional? then "]" else "}";
    assert f[..1] == (if k.Optional? then "[" else "{");
    assert f[1..3] == "%s" && f[0..2][0] == f[0] != '%';
    assert Find(f, "%s", 0) == 1;
    assert f[3..] == c;
    assert Find(c, "%s", 0) == -1;
    assert Split(c, "%s") == [c];
  }

  /** `delims()[0]`. */
  function Open(k: ArgKind): (d: string)
    ensures d == Delims(k)[0] && |d| == 1
  {
    DelimsAre(k);
    Delims(k)[0]
  }

  /** `delims()[1]`. */
  function Close(k: ArgKind): (d: string)
    ensures |Delims(k)| == 2 && d == Delims(k)[1] && |d| == 1
  {
    DelimsAre(k);
    Delims(k)[1]
  }

  /** Everything a content list or an argument holds: a positioned token, a
      plain string, a command (`TexCmd`) or an environment (`TexEnv`). */
  datatype Expr =
    | Tok(tok: Positioned.Token)
    | Plain(s: string)
    | Cmd(name: string, args: seq<Arg>, extra: string)
    | Env(name: string, contents: seq<Expr>, args: seq<Arg>, nobegin: bool)

  /** An argument object: its type and the expressions it was built from. */
  datatype Arg = Arg(kind: ArgKind, exprs: seq<Expr>)

  /** A node of the parse tree wraps a command or an environment. */
  predicate IsNode(e: Expr)
  {
    e.Cmd? || e.Env?
  }

  /** `==` between a content item and a string or another item: tokens and
      strings compare by text; an expression equals only itself. */
  predicate Same(a: Expr, b: Expr)
  {
    if (a.Tok? || a.Plain?) && (b.Tok? || b.Plain?) then TextOf(a) == TextOf(b)
    else if a.Tok? || a.Plain? || b.Tok? || b.Plain? then false
    else a == b
  }

  function TextOf(e: Expr): string
    requires e.Tok? || e.Plain?
  {
    if e.Tok? then e.tok.text else e.s
  }

  // ---------------------------------------------------------------------
  // String forms
  // ---------------------------------------------------------------------

  /** `str(e)`. */
  function ExprStr(e: Expr): string
    decreases e, 2
  {
    match e
    case Tok(t) => t.text
    case Plain(s) => s
    case Cmd(name, args, extra) => CmdStr(name, args, extra)
    case Env(name, contents, args, nobegin) =>
      EnvStr(name, JoinWith(Strs(contents), "\n"), ArgsStr(args), nobegin)
  }

  /** `TexCmd.__str__`, from the string of the argument list. */
  function CmdStr(name: string, args: seq<Arg>, extra: string): (r: string)
    decreases args, 3
  {
    "\\" + name + ArgsStr(args) + (if extra != "" then " " + extra else "")
  }

  /** `TexEnv.__str__`, from the joined contents and the string of the arguments. */
  function EnvStr(name: string, contents: string, args: string, nobegin: bool): string
  {
    if name == "[tex]" then contents
    else if nobegin then name + contents + name
    else "\\begin{" + name + "}" + args + contents + "\\end{" + name + "}"
  }

  /** What an environment's string puts before its joined contents. */
  function EnvHead(name: string, args: string, nobegin: bool): string
  {
    if name == "[tex]" then "" else if nobegin then name else "\\begin{" + name + "}" + args
  }

  /** What an environment's string puts after its joined contents. */
  function EnvTail(name: string, nobegin: bool): string
  {
    if name == "[tex]" then "" else if nobegin then name else "\\end{" + name + "}"
  }

  /** A string made of a head, a middle and a tail gives each back. */
  lemma Framed(head: string, mid: string, tail: string)
    ensures var r := head + mid + tail;
      |r| == |head| + |mid| + |tail| && StartsWith(r, head) && EndsWith(r, tail)
      && r[|head|..|r| - |tail|] == mid
  {
    var r := head + mid + tail;
    assert r[..|head|] == head;
    assert r[|r| - |tail|..] == tail;
    assert r[|head|..|r| - |tail|] == mid;
  }

  /** The three shapes of an environment's string (the global `[tex]`, a
      `nobegin` one and a `\begin`/`\end` one): the joined contents sit
      between a head and a tail and can be cut back out. */
  lemma EnvFrames(name: string, contents: string, args: string, nobegin: bool)
    ensures var r := EnvStr(name, contents, args, nobegin);
      var head := EnvHead(name, args, nobegin);
      var tail := EnvTail(name, nobegin);
      |r| == |head| + |contents| + |tail| && StartsWith(r, head) && EndsWith(r, tail)
      && r[|head|..|r| - |tail|] == contents
  {
    var head := EnvHead(name, args, nobegin);
    var tail := EnvTail(name, nobegin);
    if name == "[tex]" {
      assert EnvStr(name, contents, args, nobegin) == head + contents + tail;
    } else if nobegin {
      assert EnvStr(name, contents, args, nobegin) == head + contents + tail;
    } else {
      assert EnvStr(name, contents, args, nobegin) == head + contents + tail;
    }
    Framed(head, contents, tail);
  }

  /** A command's string is the backslash, the name and the arguments, then
      the extra text after one space when there is any. */
  lemma CmdFrames(name: string, args: seq<Arg>, extra: string)
    ensures var r := CmdStr(name, args, extra);
      var head := "\\" + name + ArgsStr(args);
      StartsWith(r, head) && (extra == "" <==> r == head)
      && (extra != "" ==> r[|head|..] == " " + extra)
  {
  }

  /** `map(str, es)`. */
  function Strs(es: seq<Expr>): (r: seq<string>)
    ensures |r| == |es|
    decreases es, 1
  {
    if es == [] then [] else [ExprStr(es[0])] + Strs(es[1..])
  }

  /** `Arg.value`: the expressions' strings, concatenated. */
  function Value(a: Arg): string
    decreases a, 1
  {
    JoinWith(Strs(a.exprs), "")
  }

  /** `str(arg)`: `fmt % value`, the value between the delimiters. */
  function ArgStr(a: Arg): string
    decreases a, 2
  {
    Open(a.kind) + Value(a) + Close(a.kind)
  }

  /** `str(TexArgs)`: the arguments' strings, concatenated. */
  function ArgsStr(args: seq<Arg>): string
    decreases args, 1
  {
    if args == [] then "" else ArgStr(args[0]) + ArgsStr(args[1..])
  }

  // ---------------------------------------------------------------------
  // Arg.parse
  // ---------------------------------------------------------------------

  /** What `Arg.parse` may be given: an argument of one of the two types,
      a plain string, a positioned token, a list of items, or anything else. */
  datatype ArgSource =
    | FromArg(arg: Arg)
    | FromText(s: string)
    | FromToken(t: Positioned.Token)
    | FromList(items: seq<Expr>)
    | FromOther

  /** `TypeError` for a malformed argument; `IndexError` for `s[0]` of an
      empty list; `AttributeError` for `s.startswith` in `__is__` on a value
      that is no string (`None`, a number, a command). */
  datatype ParseError = TypeError | IndexError | AttributeError

  /** `__is__(s)`: the string starts with the opening delimiter and ends
      with the closing one. */
  predicate IsFormatted(k: ArgKind, s: string)
  {
    StartsWith(s, Open(k)) && EndsWith(s, Close(k))
  }

  /** The test `[s[0], s[-1]] == delims()` on a non-empty list. */
  predicate Delimited(k: ArgKind, items: seq<Expr>)
    requires items != []
  {
    Same(items[0], Plain(Open(k))) && Same(items[|items| - 1], Plain(Close(k)))
  }

  /** Whether argument type `k` accepts a string, token or non-empty list. */
  predicate Accepts(k: ArgKind, src: ArgSource)
  {
    match src
    case FromText(s) => IsFormatted(k, s)
    case FromToken(t) => IsFormatted(k, t.text)
    case FromList(items) => items != [] && Delimited(k, items)
    case _ => false
  }

  /** The first argument type in `kinds` that accepts `src`. */
  function FirstAccepting(kinds: seq<ArgKind>, src: ArgSource): (r: Option<ArgKind>)
    ensures r.Some? ==> r.value in kinds && Accepts(r.value, src)
    ensures r.Some? && |kinds| > 0 && Accepts(kinds[0], src) ==> r.value == kinds[0]
    ensures r.None? ==> forall k :: k in kinds ==> !Accepts(k, src)
  {
    if kinds == [] then None
    else if Accepts(kinds[0], src) then Some(kinds[0])
    else FirstAccepting(kinds[1..], src)
  }

  /** `__strip__(s)`: the text between the delimiters. */
  function StripFormat(k: ArgKind, s: string): string
  {
    PySlice(s, Some(|Open(k)|), Some(-|Close(k)|))
  }

  /** `Arg.parse(s)`. */
  function Parse(src: ArgSource): (r: Result<Arg, ParseError>)
    ensures src.FromArg? ==> r == Ok(src.arg)
    ensures r == Failure(IndexError) <==> src == FromList([])
    ensures r == Failure(AttributeError) <==> src == FromOther
    ensures r.Ok? && !src.FromArg? ==> Accepts(r.value.kind, src)
    ensures r.Failure? && src != FromList([]) ==> forall k :: !Accepts(k, src)
  {
    match src
    case FromArg(a) => Ok(a)
    case FromList(items) =>
      if items == [] then Failure(IndexError)
      else
        var k := FirstAccepting(ArgTypes, src);
        if k.Some? then Ok(Arg(k.value, PySlice(items, Some(1), Some(-1)))) else Failure(TypeError)
    case FromText(s) =>
      var k := FirstAccepting(ArgTypes, src);
      if k.Some? then Ok(Arg(k.value, [Plain(StripFormat(k.value, s))])) else Failure(TypeError)
    case FromToken(t) =>
      var k := FirstAccepting(ArgTypes, src);
      if k.Some? then
        Ok(Arg(k.value, [Tok(Positioned.Slice(t, Some(|Open(k.value)|), Some(-|Close(k.value)|)))]))
      else Failure(TypeError)
    case FromOther => Failure(AttributeError)
  }

  /** The two delimiters of a type are different characters, so a formatted
      string has at least two characters. */
  lemma FormattedLength(k: ArgKind, s: string)
    requires IsFormatted(k, s)
    ensures |s| >= 2 && s[0] == Open(k)[0] && s[|s| - 1] == Close(k)[0]
  {
    DelimsAre(k);
  }

  /** The parsed argument's value is the text between the delimiters. */
  lemma ParseTextValue(s: string)
    ensures Parse(FromText(s)).Ok? ==>
      var a := Parse(FromText(s)).value;
      |s| >= 2 && Value(a) == s[1..|s| - 1] && StartsWith(s, Open(a.kind)) && EndsWith(s, Close(a.kind))
  {
    if Parse(FromText(s)).Ok? {
      var a := Parse(FromText(s)).value;
      FormattedLength(a.kind, s);
      assert StripFormat(a.kind, s) == s[1..|s| - 1];
      assert Strs(a.exprs) == [s[1..|s| - 1]];
    }
  }

  /** Any string `Arg.parse` accepts is given back by `str` of the result. */
  lemma ParseThenStr(s: string)
    requires Parse(FromText(s)).Ok?
    ensures ArgStr(Parse(FromText(s)).value) == s
  {
    var a := Parse(FromText(s)).value;
    ParseTextValue(s);
    Rewrapped(Open(a.kind), Value(a), Close(a.kind), s);
  }

  /** A text that starts with one delimiter and ends with another is the two
      around what lies between them. */
  lemma Rewrapped(o: string, v: string, c: string, s: string)
    requires |s| >= 2 && |o| == 1 && |c| == 1 && StartsWith(s, o) && EndsWith(s, c) && v == s[1..|s| - 1]
    ensures o + v + c == s
  {
    assert s == s[..1] + s[1..|s| - 1] + s[|s| - 1..];
  }

  /** A string form of an argument parses back to an argument of the same
      type with the same value. */
  lemma StrThenParse(a: Arg)
    ensures Parse(FromText(ArgStr(a))).Ok?
    ensures Parse(FromText(ArgStr(a))).value.kind == a.kind
    ensures Value(Parse(FromText(ArgStr(a))).value) == Value(a)
  {
    var s := ArgStr(a);
    DelimsAre(a.kind);
    DelimsAre(Optional);
    assert s[..1] == Open(a.kind);
    assert s[|s| - 1..] == Close(a.kind);
    assert IsFormatted(a.kind, s);
    if a.kind.Required? {
      assert s[..1] != "[";
      assert !Accepts(Optional, FromText(s));
    }
    assert FirstAccepting(ArgTypes, FromText(s)) == Some(a.kind);
    ParseTextValue(s);
    assert s[1..|s| - 1] == Value(a);
  }

  /** Parsing an argument gives it back, so parsing twice is parsing once. */
  lemma ParseIdempotent(src: ArgSource)
    requires Parse(src).Ok?
    ensures Parse(FromArg(Parse(src).value)) == Parse(src)
  {
  }

  /** A list is accepted exactly when its first and last items are the two
      delimiters of a type; the argument then holds the items in between. */
  lemma ParseList(items: seq<Expr>)
    requires items != []
    ensures Parse(FromList(items)).Ok? <==> Delimited(Optional, items) || Delimited(Required, items)
    ensures Parse(FromList(items)).Ok? ==>
      |items| >= 2 && Parse(FromList(items)).value.exprs == items[1..|items| - 1]
  {
    var src := FromList(items);
    DelimsAre(Optional);
    DelimsAre(Required);
    if Parse(src).Ok? {
      var k := Parse(src).value.kind;
      assert Accepts(k, src);
    } else {
      assert !Accepts(Optional, src) && !Accepts(Required, src);
    }
  }

  /** A string without a matching delimiter pair, such as `(]`, is rejected. */
  lemma MalformedIsTypeError(s: string)
    requires s == "(]"
    ensures Parse(FromText(s)) == Failure(TypeError)
  {
    DelimsAre(Optional);
    DelimsAre(Required);
    assert s[..1] == "(";
    assert !Accepts(Optional, FromText(s)) && !Accepts(Required, FromText(s));
  }

  // ---------------------------------------------------------------------
  // TexArgs
  // ---------------------------------------------------------------------

  /** `TexArgs(*values)` on values: every value parsed in order, failing at
      the first malformed one. */
  function ParseAll(srcs: seq<ArgSource>): (r: Result<seq<Arg>, ParseError>)
    ensures r.Ok? ==> |r.value| == |srcs| && forall k :: 0 <= k < |srcs| ==> Parse(srcs[k]) == Ok(r.value[k])
    ensures r.Failure? ==> exists k :: 0 <= k < |srcs| && Parse(srcs[k]).Failure?
  {
    if srcs == [] then Ok([])
    else
      var a :- Parse(srcs[0]);
      var rest :- ParseAll(srcs[1..]);
      assert forall k :: 1 <= k < |srcs| ==> srcs[k] == srcs[1..][k - 1];
      Ok([a] + rest)
  }

  /** A list of arguments seen two ways: the argument objects (`args(i)`)
      and, as the list's own items, their values (`args[i]`). */
  class TexArgs {
    var args: seq<Arg>
    var values: seq<string>

    /** The two views are in lockstep. */
    predicate Valid()
      reads this
    {
      |args| == |values| && forall k :: 0 <= k < |args| ==> values[k] == Value(args[k])
    }

    constructor ()
      ensures args == [] && values == [] && Valid()
    {
      args := [];
      values := [];
    }

    /** `append(value)`: parse, then add the argument and its value. */
    method Append(src: ArgSource) returns (r: Result<Arg, ParseError>)
      requires Valid()
      modifies this
      ensures Valid()
      ensures r == Parse(src)
      ensures r.Ok? ==> args == old(args) + [r.value] && values == old(values) + [Value(r.value)]
      ensures r.Failure? ==> args == old(args) && values == old(values)
    {
      r := Parse(src);
      if r.Ok? {
        args := args + [r.value];
        values := values + [Value(r.value)];
      }
    }

    /** `args(i)`: the argument object; `None` is the IndexError. */
    function Call(i: int): Option<Arg>
      reads this
    {
      PyIndex(args, i)
    }

    /** `args[i]`: the argument's value. */
    function Get(i: int): Option<string>
      reads this
    {
      PyIndex(values, i)
    }

    /** `str(args)`. */
    function Str(): string
      reads this
    {
      ArgsStr(args)
    }
  }

  /** `args(i)` and `args[i]` exist for the same indices, and the second is
      the value of the first. */
  lemma Lockstep(t: TexArgs, i: int)
    requires t.Valid()
    ensures t.Call(i).Some? <==> t.Get(i).Some?
    ensures t.Call(i).Some? ==> t.Get(i) == Some(Value(t.Call(i).value))
  {
  }

  /** `TexArgs(*values)`: an empty list, then `append` for each value in
      order; the first malformed value raises. */
  method NewTexArgs(srcs: seq<ArgSource>) returns (r: Result<TexArgs, ParseError>)
    ensures r.Ok? <==> ParseAll(srcs).Ok?
    ensures r.Ok? ==> fresh(r.value) && r.value.Valid() && r.value.args == ParseAll(srcs).value
  {
    var t := new TexArgs();
    var k := 0;
    while k < |srcs|
      invariant 0 <= k <= |srcs|
      invariant t.Valid()
      invariant ParseAll(srcs[..k]).Ok? && t.args == ParseAll(srcs[..k]).value
      decreases |srcs| - k
    {
      var a := t.Append(srcs[k]);
      if a.Failure? {
        ParseAllFails(srcs, k);
        return Failure(a.error);
      }
      PrefixParses(srcs, k);
      k := k + 1;
    }
    assert srcs[..k] == srcs;
    r := Ok(t);
  }

  /** One more value parsed: the prefix's arguments grow by its argument. */
  lemma PrefixParses(srcs: seq<ArgSource>, k: nat)
    requires k < |srcs| && ParseAll(srcs[..k]).Ok? && Parse(srcs[k]).Ok?
    ensures ParseAll(srcs[..k + 1]) == Ok(ParseAll(srcs[..k]).value + [Parse(srcs[k]).value])
  {
    ParseAllSnoc(srcs[..k], srcs[k]);
    assert srcs[..k + 1] == srcs[..k] + [srcs[k]];
  }

  lemma {:induction false} ParseAllSnoc(srcs: seq<ArgSource>, src: ArgSource)
    requires ParseAll(srcs).Ok? && Parse(src).Ok?
    ensures ParseAll(srcs + [src]) == Ok(ParseAll(srcs).value + [Parse(src).value])
    decreases |srcs|
  {
    var t := srcs + [src];
    if srcs == [] {
      assert t == [src] && t[1..] == [];
      ParseAllCons(t);
      assert [] + [Parse(src).value] == [Parse(src).value] + [];
    } else {
      ParseAllHead(srcs);
      ParseAllSnoc(srcs[1..], src);
      assert t[0] == srcs[0] && t[1..] == srcs[1..] + [src];
      ParseAllCons(t);
      ParseAllCons(srcs);
      var a, rest := Parse(srcs[0]).value, ParseAll(srcs[1..]).value;
      assert [a] + (rest + [Parse(src).value]) == ([a] + rest) + [Parse(src).value];
    }
  }

  /** `ParseAll` on a non-empty list: the first value, then the rest. */
  lemma ParseAllCons(srcs: seq<ArgSource>)
    requires srcs != [] && Parse(srcs[0]).Ok? && ParseAll(srcs[1..]).Ok?
    ensures ParseAll(srcs) == Ok([Parse(srcs[0]).value] + ParseAll(srcs[1..]).value)
  {
  }

  /** A list that parses has a first value and a rest that parse. */
  lemma ParseAllHead(srcs: seq<ArgSource>)
    requires srcs != [] && ParseAll(srcs).Ok?
    ensures Parse(srcs[0]).Ok? && ParseAll(srcs[1..]).Ok?
  {
  }

  lemma {:induction false} ParseAllFails(srcs: seq<ArgSource>, k: nat)
    requires k < |srcs| && Parse(srcs[k]).Failure?
    ensures ParseAll(srcs).Failure?
    decreases k
  {
    if k > 0 && Parse(srcs[0]).Ok? {
      assert srcs[1..][k - 1] == srcs[k];
      ParseAllFails(srcs[1..], k - 1);
    }
  }
  function Texts(ss: seq<string>): (r: seq<ArgSource>)
    ensures |r| == |ss| && forall k :: 0 <= k < |ss| ==> r[k] == FromText(ss[k])
  {
    seq(|ss|, k requires 0 <= k < |ss| => FromText(ss[k]))
  }

  /** Building an argument list from formatted strings and printing it gives
      the strings back, concatenated. */
  lemma {:induction false} TextArgsRoundTrip(ss: seq<string>)
    requires ParseAll(Texts(ss)).Ok?
    ensures ArgsStr(ParseAll(Texts(ss)).value) == JoinWith(ss, "")
    decreases |ss|
  {
    if ss != [] {
      var srcs := Texts(ss);
      assert srcs[1..] == Texts(ss[1..]);
      ParseThenStr(ss[0]);
      TextArgsRoundTrip(ss[1..]);
      assert ParseAll(srcs).value == [Parse(FromText(ss[0])).value] + ParseAll(Texts(ss[1..])).value;
      JoinWithEmpty(ss);
    }
  }

  lemma JoinWithEmpty(ss: seq<string>)
    requires ss != []
    ensures JoinWith(ss, "") == ss[0] + JoinWith(ss[1..], "")
  {
  }

  /** Every value parses, so the whole list does. */
  lemma {:induction false} ParseAllOk(srcs: seq<ArgSource>)
    requires forall k :: 0 <= k < |srcs| ==> Parse(srcs[k]).Ok?
    ensures ParseAll(srcs).Ok?
    decreases |srcs|
  {
    if srcs != [] {
      assert forall k :: 0 <= k < |srcs[1..]| ==> srcs[1..][k] == srcs[k + 1];
      ParseAllOk(srcs[1..]);
    }
  }

  /** A string between the delimiters of some type parses. */
  lemma FormattedParses(k: ArgKind, s: string)
    requires IsFormatted(k, s)
    ensures Parse(FromText(s)).Ok?
  {
    assert Accepts(k, FromText(s));
    assert k in ArgTypes;
  }

  /** The documentation's example: `TexArgs('{a}', '[b]', '{c}')` prints as
      the three strings one after the other, `{a}[b]{c}`. */
  lemma ArgsDoctest(a: string, b: string, c: string)
    requires a == "{a}" && b == "[b]" && c == "{c}"
    ensures ParseAll(Texts([a, b, c])).Ok?
    ensures ArgsStr(ParseAll(Texts([a, b, c])).value) == a + b + c
  {
    DelimitedParses(Required, a);
    DelimitedParses(Optional, b);
    DelimitedParses(Required, c);
    ThreeArgs(a, b, c);
  }

  /** A string that starts and ends with the delimiters of a type parses. */
  lemma DelimitedParses(k: ArgKind, s: string)
    requires |s| >= 2 && [s[0]] == Open(k) && [s[|s| - 1]] == Close(k)
    ensures Parse(FromText(s)).Ok?
  {
    assert s[..1] == [s[0]] && s[|s| - 1..] == [s[|s| - 1]];
    FormattedParses(k, s);
  }

  lemma ThreeArgs(a: string, b: string, c: string)
    requires Parse(FromText(a)).Ok? && Parse(FromText(b)).Ok? && Parse(FromText(c)).Ok?
    ensures ParseAll(Texts([a, b, c])).Ok?
    ensures ArgsStr(ParseAll(Texts([a, b, c])).value) == a + b + c
  {
    var ss := [a, b, c];
    ParseAllOk(Texts(ss));
    TextArgsRoundTrip(ss);
    JoinThree(a, b, c);
  }

  lemma JoinThree(x: string, y: string, z: string)
    ensures JoinWith([x, y, z], "") == x + y + z
  {
    var ss := [x, y, z];
    assert ss[1..] == [y, z] && ss[1..][1..] == [z];
    assert JoinWith([y, z], "") == y + "" + z;
  }
}

module DataTree {

  import opened Wrappers
  import opened Strings
  import opened Data
  import Positioned

  // ---------------------------------------------------------------------
  // TexExpr content mutation
  // ---------------------------------------------------------------------

  /** `list.insert(i, x)`: a negative index counts from the end, and the
      index is clipped to the list. */
  function Insert<T>(xs: seq<T>, i: int, x: T): (r: seq<T>)
    ensures |r| == |xs| + 1
  {
    var k := ClipBound(i, |xs|);
    xs[..k] + [x] + xs[k..]
  }

  /** The effect of `add_contents_at(i, *items)`: item `j` inserted at `i + j`,
      one after the other. */
  function InsertEach<T>(xs: seq<T>, i: int, items: seq<T>): (r: seq<T>)
    ensures |r| == |xs| + |items|
    decreases |items|
  {
    if items == [] then xs
    else
      var n := |items| - 1;
      Insert(InsertEach(xs, i, items[..n]), i + n, items[n])
  }

  /** Whatever the index, the result holds exactly the old items and the new ones. */
  lemma {:induction false} InsertEachKeepsItems<T>(xs: seq<T>, i: int, items: seq<T>)
    ensures multiset(InsertEach(xs, i, items)) == multiset(xs) + multiset(items)
    decreases |items|
  {
    if items != [] {
      var n := |items| - 1;
      var prev := InsertEach(xs, i, items[..n]);
      InsertEachKeepsItems(xs, i, items[..n]);
      InsertKeepsItems(prev, i + n, items[n]);
      assert items == items[..n] + [items[n]];
      assert multiset(items) == multiset(items[..n]) + multiset{items[n]};
    }
  }

  lemma InsertKeepsItems<T>(xs: seq<T>, i: int, x: T)
    ensures multiset(Insert(xs, i, x)) == multiset(xs) + multiset{x}
  {
    var k := ClipBound(i, |xs|);
    assert xs == xs[..k] + xs[k..];
    assert multiset(xs) == multiset(xs[..k]) + multiset(xs[k..]);
  }

  /** At an index inside the list, the items land at `i .. i + k - 1`, in
      order, and the old items keep their order around them. */
  lemma {:induction false} InsertEachInside<T>(xs: seq<T>, i: int, items: seq<T>)
    requires 0 <= i <= |xs|
    ensures InsertEach(xs, i, items) == xs[..i] + items + xs[i..]
    decreases |items|
  {
    if items != [] {
      var n := |items| - 1;
      InsertEachInside(xs, i, items[..n]);
      var prev := InsertEach(xs, i, items[..n]);
      assert prev == xs[..i] + items[..n] + xs[i..];
      assert ClipBound(i + n, |prev|) == i + n;
      assert prev[..i + n] == xs[..i] + items[..n];
      assert prev[i + n..] == xs[i..];
      assert items == items[..n] + [items[n]];
      assert InsertEach(xs, i, items) == prev[..i + n] + [items[n]] + prev[i + n..];
    }
  }

  /** Past the end, the items are appended in order. */
  lemma {:induction false} InsertEachPastEnd<T>(xs: seq<T>, i: int, items: seq<T>)
    requires i >= |xs|
    ensures InsertEach(xs, i, items) == xs + items
    decreases |items|
  {
    if items != [] {
      var n := |items| - 1;
      var prev := InsertEach(xs, i, items[..n]);
      InsertEachPastEnd(xs, i, items[..n]);
      assert ClipBound(i + n, |prev|) == |prev|;
      assert items == items[..n] + [items[n]];
      assert InsertEach(xs, i, items) == prev + [items[n]];
    }
  }

  /** `list.index(e)`: the first item equal to `e`. */
  function IndexOf(xs: seq<Expr>, e: Expr): (r: Option<nat>)
    ensures r.Some? ==> r.value < |xs| && Same(xs[r.value], e)
    ensures r.Some? ==> forall k :: 0 <= k < r.value ==> !Same(xs[k], e)
    ensures r.None? ==> forall k :: 0 <= k < |xs| ==> !Same(xs[k], e)
  {
    if xs == [] then None
    else if Same(xs[0], e) then Some(0)
    else
      var r := IndexOf(xs[1..], e);
      if r.Some? then Some(r.value + 1) else None
  }

  /** `list.index` and `list.remove` of an absent item. */
  datatype ValueError = ValueError

  /** A `TexEnv` object: its stripped name, the content list it mutates,
      its parsed arguments and its `nobegin` flag. */
  class TexEnv {
    var name: string
    var contents: seq<Expr>
    var args: seq<Arg>
    var nobegin: bool

    /** `TexEnv(name, contents, args, nobegin=...)`, with the arguments already parsed. */
    constructor (name0: string, contents0: seq<Expr>, args0: seq<Arg>, nobegin0: bool)
      ensures name == Strip(name0, Whitespace) && contents == contents0
      ensures args == args0 && nobegin == nobegin0
    {
      name := Strip(name0, Whitespace);
      contents := contents0;
      args := args0;
      nobegin := nobegin0;
    }

    /** The environment as a value, for its string form and for searching. */
    function Value(): Expr
      reads this
    {
      Env(name, contents, args, nobegin)
    }

    /** `add_contents(*items)`: extend the content list. */
    method AddContents(items: seq<Expr>)
      modifies this
      ensures contents == old(contents) + items
      ensures name == old(name) && args == old(args) && nobegin == old(nobegin)
    {
      contents := contents + items;
    }

    /** `add_contents_at(i, *items)`. */
    method AddContentsAt(i: int, items: seq<Expr>)
      modifies this
      ensures contents == InsertEach(old(contents), i, items)
      ensures 0 <= i <= |old(contents)| ==> contents == old(contents)[..i] + items + old(contents)[i..]
      ensures name == old(name) && args == old(args) && nobegin == old(nobegin)
    {
      ghost var start := contents;
      for j := 0 to |items|
        invariant contents == InsertEach(start, i, items[..j])
        invariant name == old(name) && args == old(args) && nobegin == old(nobegin)
      {
        assert items[..j + 1][..j] == items[..j];
        contents := Insert(contents, i + j, items[j]);
      }
      assert items[..|items|] == items;
      if 0 <= i <= |start| {
        InsertEachInside(start, i, items);
      }
    }

    /** `remove_content(e)`: remove the first item equal to `e` and return
        its index; ValueError when there is none. */
    method RemoveContent(e: Expr) returns (r: Result<nat, ValueError>)
      modifies this
      ensures r.Ok? ==> (IndexOf(old(contents), e) == Some(r.value)
        && contents == old(contents)[..r.value] + old(contents)[r.value + 1..])
      ensures r.Failure? ==> IndexOf(old(contents), e).None? && contents == old(contents)
      ensures name == old(name) && args == old(args) && nobegin == old(nobegin)
    {
      var k := IndexOf(contents, e);
      if k.None? {
        return Failure(ValueError);
      }
      contents := contents[..k.value] + contents[k.value + 1..];
      r := Ok(k.value);
    }

    /** `replace_child(child, *nodes)`: the replacements take the place of
        the first item equal to the child. */
    method ReplaceChild(child: Expr, nodes: seq<Expr>) returns (r: Result<nat, ValueError>)
      modifies this
      ensures r.Ok? ==> (IndexOf(old(contents), child) == Some(r.value)
        && contents == old(contents)[..r.value] + nodes + old(contents)[r.value + 1..])
      ensures r.Failure? ==> IndexOf(old(contents), child).None? && contents == old(contents)
      ensures name == old(name) && args == old(args) && nobegin == old(nobegin)
    {
      ghost var before := contents;
      r := RemoveContent(child);
      if r.Ok? {
        AddContentsAt(r.value, nodes);
        var k := r.value;
        assert (before[..k] + before[k + 1..])[..k] == before[..k];
        assert (before[..k] + before[k + 1..])[k..] == before[k + 1..];
      }
    }
  }

  /** A `TexCmd` object: its stripped name, its parsed arguments and the
      extra text after them. */
  class TexCmd {
    var name: string
    var args: seq<Arg>
    var extra: string

    constructor (name0: string, args0: seq<Arg>, extra0: string)
      ensures name == Strip(name0, Whitespace) && args == args0 && extra == extra0
    {
      name := Strip(name0, Whitespace);
      args := args0;
      extra := extra0;
    }

    function Value(): Expr
      reads this
    {
      Cmd(name, args, extra)
    }

    /** `add_contents(*items)`: a command has no contents, so the items'
        strings, separated by spaces, are appended to `extra`. */
    method AddContents(items: seq<Expr>)
      modifies this
      ensures extra == old(extra) + JoinWith(Strs(items), " ")
      ensures name == old(name) && args == old(args)
    {
      extra := extra + JoinWith(Strs(items), " ");
    }
  }

  /** Once a command has extra text, appending to it appends to the
      command's string. */
  lemma AppendExtra(name: string, args: seq<Arg>, extra: string, more: string)
    requires extra != ""
    ensures CmdStr(name, args, extra + more) == CmdStr(name, args, extra) + more
  {
  }

  // ---------------------------------------------------------------------
  // Contents, children, descendants and search
  // ---------------------------------------------------------------------

  /** `TexEnv.contents` keeps a token only if stripping it leaves text;
      plain strings and expressions are always kept. */
  predicate Kept(x: Expr)
  {
    !x.Tok? || Strip(x.tok.text, Whitespace) != ""
  }

  function KeptContents(xs: seq<Expr>): (r: seq<Expr>)
    ensures |r| <= |xs|
    ensures forall x :: x in r <==> x in xs && Kept(x)
  {
    if xs == [] then []
    else (if Kept(xs[0]) then [xs[0]] else []) + KeptContents(xs[1..])
  }

  /** Every expression held by the arguments, argument by argument. */
  function ArgExprs(args: seq<Arg>): (r: seq<Expr>)
    ensures forall x :: x in r <==> exists a :: a in args && x in a.exprs
  {
    if args == [] then [] else args[0].exprs + ArgExprs(args[1..])
  }

  /** `contents` of a node: an environment's kept contents; a command's
      argument expressions followed by its extra text when there is some. */
  function NodeContents(e: Expr): seq<Expr>
    requires IsNode(e)
  {
    if e.Env? then KeptContents(e.contents)
    else ArgExprs(e.args) + (if e.extra != "" then [Plain(e.extra)] else [])
  }

  /** `children`: the contents that are commands or environments. */
  function Nodes(xs: seq<Expr>): (r: seq<Expr>)
    ensures |r| <= |xs|
    ensures forall x :: x in r <==> x in xs && IsNode(x)
  {
    if xs == [] then []
    else (if IsNode(xs[0]) then [xs[0]] else []) + Nodes(xs[1..])
  }

  function Children(e: Expr): (r: seq<Expr>)
    requires IsNode(e)
    ensures forall c :: c in r ==> IsNode(c)
  {
    Nodes(NodeContents(e))
  }

  /** A size that every content item of a node is smaller than. */
  function Size(e: Expr): nat
    decreases e, 2
  {
    match e
    case Tok(_) => 1
    case Plain(_) => 1
    case Cmd(_, args, _) => 2 + ArgsSize(args)
    case Env(_, contents, args, _) => 1 + ListSize(contents) + ArgsSize(args)
  }

  function ListSize(es: seq<Expr>): nat
    decreases es, 1
  {
    if es == [] then 0 else Size(es[0]) + ListSize(es[1..])
  }

  function ArgsSize(args: seq<Arg>): nat
    decreases args, 1
  {
    if args == [] then 0 else ListSize(args[0].exprs) + ArgsSize(args[1..])
  }

  lemma {:induction false} ListSizeAppend(a: seq<Expr>, b: seq<Expr>)
    ensures ListSize(a + b) == ListSize(a) + ListSize(b)
    decreases |a|
  {
    if a == [] {
      assert a + b == b;
    } else {
      assert (a + b)[1..] == a[1..] + b;
      ListSizeAppend(a[1..], b);
    }
  }

  lemma {:induction false} ArgExprsSize(args: seq<Arg>)
    ensures ListSize(ArgExprs(args)) == ArgsSize(args)
    decreases |args|
  {
    if args != [] {
      ListSizeAppend(args[0].exprs, ArgExprs(args[1..]));
      ArgExprsSize(args[1..]);
    }
  }

  lemma {:induction false} KeptSize(xs: seq<Expr>)
    ensures ListSize(KeptContents(xs)) <= ListSize(xs)
    decreases |xs|
  {
    if xs != [] {
      var head := if Kept(xs[0]) then [xs[0]] else [];
      ListSizeAppend(head, KeptContents(xs[1..]));
      KeptSize(xs[1..]);
    }
  }

  lemma {:induction false} NodesSize(xs: seq<Expr>)
    ensures ListSize(Nodes(xs)) <= ListSize(xs)
    decreases |xs|
  {
    if xs != [] {
      var head := if IsNode(xs[0]) then [xs[0]] else [];
      ListSizeAppend(head, Nodes(xs[1..]));
      NodesSize(xs[1..]);
    }
  }

  /** The children of a node are smaller than the node. */
  lemma ChildrenSmaller(e: Expr)
    requires IsNode(e)
    ensures ListSize(Children(e)) < Size(e)
  {
    NodesSize(NodeContents(e));
    if e.Env? {
      KeptSize(e.contents);
    } else {
      ArgExprsSize(e.args);
      var tail := if e.extra != "" then [Plain(e.extra)] else [];
      ListSizeAppend(ArgExprs(e.args), tail);
    }
  }

  /** `descendants`: a node's contents, then the descendants of each child
      in turn. */
  function Descendants(e: Expr): seq<Expr>
    requires IsNode(e)
    decreases Size(e), 0
  {
    ChildrenSmaller(e);
    NodeContents(e) + DescendantsAll(Children(e))
  }

  function DescendantsAll(cs: seq<Expr>): seq<Expr>
    requires forall c :: c in cs ==> IsNode(c)
    decreases ListSize(cs), 1
  {
    if cs == [] then [] else Descendants(cs[0]) + DescendantsAll(cs[1..])
  }

  /** The string `getattr(node, k)` gives, when it gives one: `name` for
      every node, `extra` for a command, and `string`, the value of the only
      argument, for a command with exactly one argument. Every other
      attribute is an argument list, a generator, `None` or a node found by
      `__getattr__`'s search, and equals no string. */
  function AttrText(e: Expr, k: string): (r: Option<string>)
    requires IsNode(e)
    ensures r.Some? <==> k == "name" || (e.Cmd? && (k == "extra" || (k == "string" && |e.args| == 1)))
  {
    if k == "name" then Some(e.name)
    else if e.Cmd? && k == "extra" then Some(e.extra)
    else if e.Cmd? && k == "string" && |e.args| == 1 then Some(Value(e.args[0]))
    else None
  }

  /** Every attribute of the query equals the node's. */
  predicate AttrsHold(e: Expr, attrs: map<string, string>)
    requires IsNode(e)
  {
    forall k :: k in attrs ==> AttrText(e, k) == Some(attrs[k])
  }

  /** `__match__(name, attrs)`: a name holding `{` or `[` is compared with
      the node's whole string, and the attributes are not looked at; any
      other name is added to the attributes, replacing a `name` among them,
      and every attribute must equal the node's. */
  predicate Matches(e: Expr, name: string, attrs: map<string, string>)
    requires IsNode(e)
  {
    if '{' in name || '[' in name then ExprStr(e) == name else AttrsHold(e, attrs["name" := name])
  }

  predicate NodeMatches(x: Expr, name: string, attrs: map<string, string>)
  {
    IsNode(x) && Matches(x, name, attrs)
  }

  /** Without a brace or bracket, a node matches when it has the name and
      every other attribute of the query. */
  lemma MatchesByAttrs(e: Expr, name: string, attrs: map<string, string>)
    requires IsNode(e) && '{' !in name && '[' !in name
    ensures Matches(e, name, attrs) <==>
      e.name == name && forall k :: k in attrs && k != "name" ==> AttrText(e, k) == Some(attrs[k])
  {
    var q := attrs["name" := name];
    if e.name == name && forall k :: k in attrs && k != "name" ==> AttrText(e, k) == Some(attrs[k]) {
      forall k | k in q
        ensures AttrText(e, k) == Some(q[k])
      {
        if k != "name" {
          assert k in attrs;
        }
      }
    }
    if Matches(e, name, attrs) {
      assert "name" in q;
      forall k | k in attrs && k != "name"
        ensures AttrText(e, k) == Some(attrs[k])
      {
        assert k in q && q[k] == attrs[k];
      }
    }
  }

  /** With a brace or bracket in the name, the attributes play no part. */
  lemma MatchesByString(e: Expr, name: string, attrs: map<string, string>)
    requires IsNode(e) && ('{' in name || '[' in name)
    ensures Matches(e, name, attrs) <==> ExprStr(e) == name
  {
  }

  /** An attribute other than `name`, `string` and `extra` never matches. */
  lemma OtherAttrNeverMatches(e: Expr, name: string, attrs: map<string, string>, k: string)
    requires IsNode(e) && '{' !in name && '[' !in name
    requires k in attrs && k != "name" && k != "string" && k != "extra"
    ensures !Matches(e, name, attrs)
  {
    MatchesByAttrs(e, name, attrs);
  }

  /** A query with more attributes matches only nodes the smaller one matches. */
  lemma MoreAttrsMatchLess(e: Expr, name: string, a: map<string, string>, b: map<string, string>)
    requires IsNode(e)
    requires forall k :: k in a ==> k in b && b[k] == a[k]
    ensures Matches(e, name, b) ==> Matches(e, name, a)
  {
    if !('{' in name || '[' in name) && Matches(e, name, b) {
      MatchesByAttrs(e, name, a);
      MatchesByAttrs(e, name, b);
    }
  }

  /** The matching nodes of a sequence, in order. */
  function Matching(xs: seq<Expr>, name: string, attrs: map<string, string>): (r: seq<Expr>)
    ensures |r| <= |xs|
    ensures forall x :: x in r <==> x in xs && NodeMatches(x, name, attrs)
  {
    if xs == [] then []
    else (if NodeMatches(xs[0], name, attrs) then [xs[0]] else []) + Matching(xs[1..], name, attrs)
  }

  /** `find_all(name, **attrs)`. With no name, the first node among the
      descendants raises the `TypeError` of `'{' in None`; a search with
      no node to look at yields nothing. */
  function FindAll(e: Expr, name: Option<string>, attrs: map<string, string>): (r: Result<seq<Expr>, ParseError>)
    requires IsNode(e)
    ensures r.Failure? <==> name.None? && exists x :: x in Descendants(e) && IsNode(x)
    ensures r.Failure? ==> r.error == TypeError
    ensures r.Ok? && name.None? ==> r.value == []
    ensures r.Ok? && name.Some? ==> forall x :: x in r.value <==> x in Descendants(e) && NodeMatches(x, name.value, attrs)
  {
    if name.None? then
      var nodes := Nodes(Descendants(e));
      if nodes != [] then assert nodes[0] in nodes; Failure(TypeError) else Ok([])
    else Ok(Matching(Descendants(e), name.value, attrs))
  }

  /** `find(name, **attrs)`: the first descendant that matches, if any. */
  function Find(e: Expr, name: Option<string>, attrs: map<string, string>): Result<Option<Expr>, ParseError>
    requires IsNode(e)
  {
    var all :- FindAll(e, name, attrs);
    Ok(if all == [] then None else Some(all[0]))
  }

  /** `count(name, **attrs)`. */
  function Count(e: Expr, name: Option<string>, attrs: map<string, string>): Result<nat, ParseError>
    requires IsNode(e)
  {
    var all :- FindAll(e, name, attrs);
    Ok(|all|)
  }

  /** The first match of a sequence comes before every other match. */
  lemma {:induction false} MatchingFirst(xs: seq<Expr>, name: string, attrs: map<string, string>)
    requires Matching(xs, name, attrs) != []
    ensures exists k :: (0 <= k < |xs| && xs[k] == Matching(xs, name, attrs)[0]
      && NodeMatches(xs[k], name, attrs) && forall j :: 0 <= j < k ==> !NodeMatches(xs[j], name, attrs))
    decreases |xs|
  {
    if !NodeMatches(xs[0], name, attrs) {
      MatchingFirst(xs[1..], name, attrs);
      var k :| 0 <= k < |xs[1..]| && xs[1..][k] == Matching(xs[1..], name, attrs)[0]
        && NodeMatches(xs[1..][k], name, attrs) && forall j :: 0 <= j < k ==> !NodeMatches(xs[1..][j], name, attrs);
      assert xs[k + 1] == Matching(xs, name, attrs)[0];
      forall j | 0 <= j < k + 1
        ensures !NodeMatches(xs[j], name, attrs)
      {
        if j > 0 {
          assert xs[j] == xs[1..][j - 1];
        }
      }
    }
  }

  /** `find` with a name gives the first matching descendant, and `None`
      exactly when nothing matches; with no name it raises `TypeError` when
      there is a node to look at and gives `None` otherwise. */
  lemma FindIsFirstMatch(e: Expr, name: Option<string>, attrs: map<string, string>)
    requires IsNode(e)
    ensures Find(e, name, attrs).Failure? <==> name.None? && exists x :: x in Descendants(e) && IsNode(x)
    ensures Find(e, name, attrs).Failure? ==> Find(e, name, attrs).error == TypeError
    ensures name.None? && Find(e, name, attrs).Ok? ==> Find(e, name, attrs).value == None
    ensures name.Some? ==> Find(e, name, attrs).Ok?
    ensures name.Some? ==> (Find(e, name, attrs).value.None? <==>
      forall x :: x in Descendants(e) ==> !NodeMatches(x, name.value, attrs))
    ensures name.Some? && Find(e, name, attrs).value.Some? ==> exists k :: (0 <= k < |Descendants(e)|
      && Descendants(e)[k] == Find(e, name, attrs).value.value && NodeMatches(Descendants(e)[k], name.value, attrs)
      && forall j :: 0 <= j < k ==> !NodeMatches(Descendants(e)[j], name.value, attrs))
  {
    if name.Some? {
      var all := Matching(Descendants(e), name.value, attrs);
      if all != [] {
        MatchingFirst(Descendants(e), name.value, attrs);
      }
    }
  }

  /** The number of matches counts each matching descendant once per occurrence. */
  function Occurrences(xs: seq<Expr>, name: string, attrs: map<string, string>): nat
  {
    if xs == [] then 0 else (if NodeMatches(xs[0], name, attrs) then 1 else 0) + Occurrences(xs[1..], name, attrs)
  }

  lemma {:induction false} MatchingCount(xs: seq<Expr>, name: string, attrs: map<string, string>)
    ensures |Matching(xs, name, attrs)| == Occurrences(xs, name, attrs)
    decreases |xs|
  {
    if xs != [] {
      MatchingCount(xs[1..], name, attrs);
    }
  }

  /** `count` with a name is the number of matching positions among the
      descendants; with no name it raises `TypeError` when there is a node
      to look at and is 0 otherwise. */
  lemma CountIsOccurrences(e: Expr, name: Option<string>, attrs: map<string, string>)
    requires IsNode(e)
    ensures Count(e, name, attrs).Failure? <==> name.None? && exists x :: x in Descendants(e) && IsNode(x)
    ensures Count(e, name, attrs).Failure? ==> Count(e, name, attrs).error == TypeError
    ensures name.None? && Count(e, name, attrs).Ok? ==> Count(e, name, attrs).value == 0
    ensures name.Some? ==> Count(e, name, attrs) == Ok(Occurrences(Descendants(e), name.value, attrs))
  {
    if name.Some? {
      MatchingCount(Descendants(e), name.value, attrs);
    }
  }

  lemma {:induction false} MatchingAppend(a: seq<Expr>, b: seq<Expr>, name: string, attrs: map<string, string>)
    ensures Matching(a + b, name, attrs) == Matching(a, name, attrs) + Matching(b, name, attrs)
    decreases |a|
  {
    if a == [] {
      assert a + b == b;
    } else {
      assert (a + b)[1..] == a[1..] + b;
      MatchingAppend(a[1..], b, name, attrs);
      assert (a + b)[0] == a[0];
    }
  }

  /** `contents` of an environment keeps order and count: it filters each
      part of a concatenation separately. */
  lemma {:induction false} KeptContentsAppend(a: seq<Expr>, b: seq<Expr>)
    ensures KeptContents(a + b) == KeptContents(a) + KeptContents(b)
    decreases |a|
  {
    if a == [] {
      assert a + b == b;
    } else {
      assert (a + b)[1..] == a[1..] + b;
      KeptContentsAppend(a[1..], b);
      assert (a + b)[0] == a[0];
    }
  }

  /** One item is kept, or dropped when it is a blank token. */
  lemma KeptContentsOne(x: Expr)
    ensures KeptContents([x]) == (if Kept(x) then [x] else [])
  {
    assert [x][1..] == [];
  }

  /** The argument expressions, argument by argument: those of a
      concatenation of arguments are those of each part in turn. */
  lemma {:induction false} ArgExprsAppend(a: seq<Arg>, b: seq<Arg>)
    ensures ArgExprs(a + b) == ArgExprs(a) + ArgExprs(b)
    decreases |a|
  {
    if a == [] {
      assert a + b == b;
    } else {
      assert (a + b)[1..] == a[1..] + b;
      ArgExprsAppend(a[1..], b);
      assert (a + b)[0] == a[0];
    }
  }

  /** One argument gives its own expressions. */
  lemma ArgExprsOne(g: Arg)
    ensures ArgExprs([g]) == g.exprs
  {
    assert [g][1..] == [];
  }

  /** `children` keeps order and count: it filters each part of a
      concatenation separately. */
  lemma {:induction false} NodesAppend(a: seq<Expr>, b: seq<Expr>)
    ensures Nodes(a + b) == Nodes(a) + Nodes(b)
    decreases |a|
  {
    if a == [] {
      assert a + b == b;
    } else {
      assert (a + b)[1..] == a[1..] + b;
      NodesAppend(a[1..], b);
      assert (a + b)[0] == a[0];
    }
  }

  /** One item is a child exactly when it is a command or an environment. */
  lemma NodesOne(x: Expr)
    ensures Nodes([x]) == (if IsNode(x) then [x] else [])
  {
    assert [x][1..] == [];
  }
}

module DataExamples {

  import opened Wrappers
  import opened Strings
  import opened Data
  import opened DataTree

  lemma OneArg(a: Arg)
    ensures ArgsStr([a]) == ArgStr(a)
  {
    assert [a][1..] == [];
  }

  lemma PlainValue(k: ArgKind, v: string)
    ensures Value(Arg(k, [Plain(v)])) == v
  {
    assert Strs([Plain(v)]) == [v];
  }

  lemma ThreeValue(k: ArgKind, x: Expr, y: Expr, z: Expr)
    ensures Value(Arg(k, [x, y, z])) == ExprStr(x) + ExprStr(y) + ExprStr(z)
  {
    var es := [x, y, z];
    assert es[1..] == [y, z] && es[1..][1..] == [z] && es[1..][1..][1..] == [];
    assert Strs([z]) == [ExprStr(z)];
    assert Strs([y, z]) == [ExprStr(y)] + Strs([z]);
    assert Strs(es) == [ExprStr(x), ExprStr(y), ExprStr(z)];
    JoinThree(ExprStr(x), ExprStr(y), ExprStr(z));
  }

  /** A command with one argument and no extra text. */
  lemma OneArgCmd(name: string, a: Arg)
    ensures ExprStr(Cmd(name, [a], "")) == "\\" + name + ArgStr(a)
    ensures NodeContents(Cmd(name, [a], "")) == a.exprs
  {
    OneArg(a);
    assert ArgExprs([a]) == a.exprs + ArgExprs([]);
  }

  /** `TexEnv('tabular', [body], [RArg(spec)])` prints its arguments right
      after `\begin{tabular}` and has no children. */
  lemma TabularDoctest(spec: string, body: string)
    ensures var e := Env("tabular", [Plain(body)], [Arg(Required, [Plain(spec)])], false);
      ExprStr(e) == "\\begin{tabular}{" + spec + "}" + body + "\\end{tabular}"
      && Children(e) == []
  {
    DelimsAre(Required);
    var a := Arg(Required, [Plain(spec)]);
    PlainValue(Required, spec);
    OneArg(a);
    assert Strs([Plain(body)]) == [body];
    assert JoinWith([body], "\n") == body;
    assert KeptContents([Plain(body)]) == [Plain(body)];
  }

  /** `TexCmd('textbf', [RArg('big ', TexCmd('textit', [RArg('slant')]), '.')])`
      prints as `\\textbf{big \\textit{slant}.}`: the inner command's string
      sits inside the outer braces, and the inner command is the one child. */
  lemma TextbfDoctest(big: string, slant: string, dot: string)
    ensures var inner := Cmd("textit", [Arg(Required, [Plain(slant)])], "");
      var e := Cmd("textbf", [Arg(Required, [Plain(big), inner, Plain(dot)])], "");
      ExprStr(inner) == "\\textit{" + slant + "}"
      && ExprStr(e) == "\\textbf{" + big + ExprStr(inner) + dot + "}"
      && Children(e) == [inner]
  {
    var inner := Cmd("textit", [Arg(Required, [Plain(slant)])], "");
    TextitStr(slant);
    TextbfStr(big, inner, dot);
    OneChildAmid("textbf", big, inner, dot);
  }

  lemma TextitStr(slant: string)
    ensures ExprStr(Cmd("textit", [Arg(Required, [Plain(slant)])], "")) == "\\textit{" + slant + "}"
  {
    OneBraced("textit", slant);
    assert "\\" + "textit" + "{" == "\\textit{";
  }

  lemma TextbfStr(big: string, inner: Expr, dot: string)
    ensures ExprStr(Cmd("textbf", [Arg(Required, [Plain(big), inner, Plain(dot)])], ""))
      == "\\textbf{" + big + ExprStr(inner) + dot + "}"
  {
    BracedAround("textbf", big, inner, dot);
    assert "\\" + "textbf" + "{" == "\\textbf{";
  }

  /** A command with one braced plain argument prints as `\\name{v}`. */
  lemma OneBraced(name: string, v: string)
    ensures ExprStr(Cmd(name, [Arg(Required, [Plain(v)])], "")) == "\\" + name + "{" + v + "}"
  {
    DelimsAre(Required);
    PlainValue(Required, v);
    OneArgCmd(name, Arg(Required, [Plain(v)]));
  }

  /** A command whose one braced argument is text, an expression and text
      prints the expression's string between the two texts. */
  lemma BracedAround(name: string, big: string, inner: Expr, dot: string)
    ensures ExprStr(Cmd(name, [Arg(Required, [Plain(big), inner, Plain(dot)])], ""))
      == "\\" + name + "{" + big + ExprStr(inner) + dot + "}"
  {
    var a := Arg(Required, [Plain(big), inner, Plain(dot)]);
    BracesAre();
    ThreeValue(Required, Plain(big), inner, Plain(dot));
    var v := Value(a);
    assert v == big + ExprStr(inner) + dot;
    OneArgCmd(name, a);
    assert ArgStr(a) == "{" + v + "}";
    SeqAssoc5("\\" + name, "{", big + ExprStr(inner), dot, "}");
  }

  lemma BracesAre()
    ensures Open(Required) == "{" && Close(Required) == "}"
  {
    DelimsAre(Required);
  }

  lemma SeqAssoc5(a: string, b: string, c: string, d: string, e: string)
    ensures a + (b + (c + d) + e) == a + b + c + d + e
  {
  }

  /** Between two plain texts, a node is the command's only child. */
  lemma OneChildAmid(name: string, big: string, inner: Expr, dot: string)
    requires IsNode(inner)
    ensures Children(Cmd(name, [Arg(Required, [Plain(big), inner, Plain(dot)])], "")) == [inner]
  {
    var a := Arg(Required, [Plain(big), inner, Plain(dot)]);
    OneArgCmd(name, a);
    assert Nodes([Plain(dot)]) == [];
    assert Nodes([inner, Plain(dot)]) == [inner];
    assert Nodes(a.exprs) == [inner];
  }

  /** The documentation's search example: in
      `\\ref{hello}\\ref{hello}\\ref{hello}\\ref{nono}`, three nodes match
      `\\ref{hello}`. */
  lemma CountDoctest(name: string, hello: string, nono: string)
    requires name == "\\ref{hello}" && hello == "hello" && nono == "nono"
    ensures var c1 := Cmd("ref", [Arg(Required, [Plain(hello)])], "");
      var c2 := Cmd("ref", [Arg(Required, [Plain(nono)])], "");
      Count(Env("[tex]", [c1, c1, c1, c2], [], false), Some(name), map[]) == Ok(3)
  {
    var c1 := Cmd("ref", [Arg(Required, [Plain(hello)])], "");
    var c2 := Cmd("ref", [Arg(Required, [Plain(nono)])], "");
    RefMatches(name, hello, nono);
    ChildlessDescendants("ref", hello);
    ChildlessDescendants("ref", nono);
    FourRefs(c1, c2, Plain(hello), Plain(nono), name, map[]);
  }

  lemma RefMatches(name: string, hello: string, nono: string)
    requires name == "\\ref{hello}" && hello == "hello" && nono == "nono"
    ensures NodeMatches(Cmd("ref", [Arg(Required, [Plain(hello)])], ""), name, map[])
    ensures !NodeMatches(Cmd("ref", [Arg(Required, [Plain(nono)])], ""), name, map[])
  {
    DelimsAre(Required);
    PlainValue(Required, hello);
    PlainValue(Required, nono);
    OneArgCmd("ref", Arg(Required, [Plain(hello)]));
    OneArgCmd("ref", Arg(Required, [Plain(nono)]));
    assert name[4] == '{';
    assert |ExprStr(Cmd("ref", [Arg(Required, [Plain(nono)])], ""))| == 10;
  }

  /** The same document searched by name and attribute: three nodes are
      named `ref` and have `string` equal to `hello`. */
  lemma StringAttrCount(name: string, hello: string, nono: string)
    requires name == "ref" && hello == "hello" && nono == "nono"
    ensures var c1 := Cmd("ref", [Arg(Required, [Plain(hello)])], "");
      var c2 := Cmd("ref", [Arg(Required, [Plain(nono)])], "");
      Count(Env("[tex]", [c1, c1, c1, c2], [], false), Some(name), map["string" := hello]) == Ok(3)
  {
    var c1 := Cmd("ref", [Arg(Required, [Plain(hello)])], "");
    var c2 := Cmd("ref", [Arg(Required, [Plain(nono)])], "");
    RefStrings(name, hello, nono);
    ChildlessDescendants("ref", hello);
    ChildlessDescendants("ref", nono);
    FourRefs(c1, c2, Plain(hello), Plain(nono), name, map["string" := hello]);
  }

  lemma RefStrings(name: string, hello: string, nono: string)
    requires name == "ref" && hello == "hello" && nono == "nono"
    ensures NodeMatches(Cmd("ref", [Arg(Required, [Plain(hello)])], ""), name, map["string" := hello])
    ensures !NodeMatches(Cmd("ref", [Arg(Required, [Plain(nono)])], ""), name, map["string" := hello])
  {
    var c1 := Cmd("ref", [Arg(Required, [Plain(hello)])], "");
    var c2 := Cmd("ref", [Arg(Required, [Plain(nono)])], "");
    PlainValue(Required, hello);
    PlainValue(Required, nono);
    assert AttrText(c1, "string") == Some(hello);
    assert AttrText(c2, "string") == Some(nono);
    MatchesByAttrs(c1, name, map["string" := hello]);
    MatchesByAttrs(c2, name, map["string" := hello]);
  }

  /** With no name, the first node of the same document raises `TypeError`. */
  lemma NoNameIsTypeError(hello: string, nono: string)
    ensures var c1 := Cmd("ref", [Arg(Required, [Plain(hello)])], "");
      var c2 := Cmd("ref", [Arg(Required, [Plain(nono)])], "");
      DataTree.Find(Env("[tex]", [c1, c1, c1, c2], [], false), None, map[]) == Failure(TypeError)
  {
    var c1 := Cmd("ref", [Arg(Required, [Plain(hello)])], "");
    var c2 := Cmd("ref", [Arg(Required, [Plain(nono)])], "");
    var e := Env("[tex]", [c1, c1, c1, c2], [], false);
    AllNodes([c1, c1, c1, c2]);
    assert Descendants(e)[0] == c1;
    FindIsFirstMatch(e, None, map[]);
  }

  /** Three copies of a matching command and one other, none of them with
      a node among its descendants. */
  lemma FourRefs(c1: Expr, c2: Expr, d1: Expr, d2: Expr, name: string, attrs: map<string, string>)
    requires c1.Cmd? && c2.Cmd? && !IsNode(d1) && !IsNode(d2)
    requires Descendants(c1) == [d1] && Descendants(c2) == [d2]
    requires NodeMatches(c1, name, attrs) && !NodeMatches(c2, name, attrs)
    ensures Count(Env("[tex]", [c1, c1, c1, c2], [], false), Some(name), attrs) == Ok(3)
  {
    LeafyFour(c1, c2, d1, d2);
    ShallowCount([c1, c1, c1, c2], name, attrs);
    ThreeOfFour(c1, c2, name, attrs);
  }

  /** In a document whose top-level nodes have only leaves below them, the
      matches are those among the top-level nodes. */
  lemma ShallowCount(cs: seq<Expr>, name: string, attrs: map<string, string>)
    requires Shallow(cs)
    ensures Count(Env("[tex]", cs, [], false), Some(name), attrs) == Ok(Occurrences(cs, name, attrs))
  {
    var e := Env("[tex]", cs, [], false);
    AllNodes(cs);
    assert Descendants(e) == cs + DescendantsAll(cs);
    CountIsOccurrences(e, Some(name), attrs);
    OccurrencesAppend(cs, DescendantsAll(cs), name, attrs);
    NoNestedNodes(cs, name, attrs);
  }

  lemma ThreeOfFour(c1: Expr, c2: Expr, name: string, attrs: map<string, string>)
    requires NodeMatches(c1, name, attrs) && !NodeMatches(c2, name, attrs)
    ensures Occurrences([c1, c1, c1, c2], name, attrs) == 3
  {
    var s1, s2, s3 := [c2], [c1, c2], [c1, c1, c2];
    assert s1[1..] == [];
    assert Occurrences(s1, name, attrs) == 0;
    assert s2[1..] == s1;
    assert Occurrences(s2, name, attrs) == 1;
    assert s3[1..] == s2;
    assert Occurrences(s3, name, attrs) == 2;
    assert [c1, c1, c1, c2][1..] == s3;
  }

  /** Nodes with only leaves among their descendants. */
  predicate Shallow(cs: seq<Expr>)
  {
    (forall c :: c in cs ==> IsNode(c))
    && forall c :: c in cs ==> forall x :: x in Descendants(c) ==> !IsNode(x)
  }

  lemma LeafyFour(c1: Expr, c2: Expr, d1: Expr, d2: Expr)
    requires IsNode(c1) && IsNode(c2) && !IsNode(d1) && !IsNode(d2)
    requires Descendants(c1) == [d1] && Descendants(c2) == [d2]
    ensures Shallow([c1, c1, c1, c2])
  {
    forall c | c in [c1, c1, c1, c2]
      ensures c == c1 || c == c2
    {
    }
  }

  lemma {:induction false} OccurrencesAppend(a: seq<Expr>, b: seq<Expr>, name: string, attrs: map<string, string>)
    ensures Occurrences(a + b, name, attrs) == Occurrences(a, name, attrs) + Occurrences(b, name, attrs)
    decreases |a|
  {
    if a == [] {
      assert a + b == b;
    } else {
      assert (a + b)[1..] == a[1..] + b;
      OccurrencesAppend(a[1..], b, name, attrs);
    }
  }

  lemma {:induction false} NoMatchAmongLeaves(xs: seq<Expr>, name: string, attrs: map<string, string>)
    requires forall x :: x in xs ==> !IsNode(x)
    ensures Occurrences(xs, name, attrs) == 0
    decreases |xs|
  {
    if xs != [] {
      NoMatchAmongLeaves(xs[1..], name, attrs);
    }
  }

  /** Nodes whose descendants are all leaves contribute no matches below them. */
  lemma {:induction false} NoNestedNodes(cs: seq<Expr>, name: string, attrs: map<string, string>)
    requires forall c :: c in cs ==> IsNode(c)
    requires forall c :: c in cs ==> forall x :: x in Descendants(c) ==> !IsNode(x)
    ensures Occurrences(DescendantsAll(cs), name, attrs) == 0
    decreases |cs|
  {
    if cs != [] {
      NoMatchAmongLeaves(Descendants(cs[0]), name, attrs);
      NoNestedNodes(cs[1..], name, attrs);
      OccurrencesAppend(Descendants(cs[0]), DescendantsAll(cs[1..]), name, attrs);
    }
  }

  /** Contents made only of nodes are all kept, and all children. */
  lemma {:induction false} AllNodes(xs: seq<Expr>)
    requires forall x :: x in xs ==> IsNode(x)
    ensures KeptContents(xs) == xs && Nodes(xs) == xs
    decreases |xs|
  {
    if xs != [] {
      assert xs[0] in xs;
      assert IsNode(xs[0]);
      assert !xs[0].Tok?;
      AllNodes(xs[1..]);
    }
  }

  /** A command whose argument is one plain string: that string is its only descendant. */
  lemma ChildlessDescendants(name: string, v: string)
    ensures Descendants(Cmd(name, [Arg(Required, [Plain(v)])], "")) == [Plain(v)]
  {
    var a := Arg(Required, [Plain(v)]);
    OneArgCmd(name, a);
    assert Nodes([Plain(v)]) == [];
    assert DescendantsAll([]) == [];
  }
}
