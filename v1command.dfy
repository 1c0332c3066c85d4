/**
 * The command splitter of the first version (v1/texSoup.py): `Command`,
 * whose `fromLatexIter` walks a LaTeX string one character at a time with a
 * depth counter per kind of opening delimiter and cuts it into commands,
 * and the string forms `fromLatex`, `__str__` and `__iter__` built on it.
 * The `TexNode` helpers that use commands are in module `V1Nodes`.
 */
module V1Commands {

  import opened Wrappers
  import opened Strings

  // ---------------------------------------------------------------------
  // Command values
  // ---------------------------------------------------------------------

  /** What a `Command` holds: the operator, the parameters with their
      delimiters, and the raw source (`None` once `update` cleared it). */
  datatype Cmd = Cmd(operator: string, params: seq<string>, tex: Option<string>)

  /** `Command('', '', '')`, what `fromLatex` returns when parsing fails. */
  const EmptyCmd := Cmd("", [], Some(""))

  /** `str(cmd)`: the raw source when it is set, otherwise a backslash, the
      operator and the parameters. */
  function Render(c: Cmd): string
  {
    if c.tex.Some? then c.tex.value else "\\" + c.operator + Concat(c.params)
  }

  /** `''.join(parts)`. */
  function Concat(parts: seq<string>): string
  {
    if parts == [] then "" else parts[0] + Concat(parts[1..])
  }

  /** The first parameter that, stripped, starts with `{`, without its
      first and last character. */
  function FirstBraced(params: seq<string>): (r: Option<string>)
  {
    if params == [] then None
    else if StartsWith(Strip(params[0], Whitespace), "{") then Some(PySlice(params[0], Some(1), Some(-1)))
    else FirstBraced(params[1..])
  }

  /** `iter(cmd)`: the operator and the first braced parameter's contents. */
  function Iter(c: Cmd): (string, Option<string>)
  {
    (c.operator, FirstBraced(c.params))
  }

  /** A parameter that `__iter__` picks. */
  predicate Braced(p: string)
  {
    StartsWith(Strip(p, Whitespace), "{")
  }

  /** Parameter `k` is the first braced one, and `r` is its contents. */
  predicate PicksAt(params: seq<string>, k: int, r: string)
  {
    0 <= k < |params| && Braced(params[k])
    && (forall m :: 0 <= m < k ==> !Braced(params[m]))
    && r == PySlice(params[k], Some(1), Some(-1))
  }

  /** `__iter__` picks the first braced parameter and drops its first and last
      character; with no braced parameter the string is `None`. */
  lemma {:induction false} IterPicksFirstBraced(params: seq<string>)
    ensures FirstBraced(params).None? <==> forall k :: 0 <= k < |params| ==> !Braced(params[k])
    ensures FirstBraced(params).Some? ==> exists k :: PicksAt(params, k, FirstBraced(params).value)
  {
    if params == [] {
    } else if Braced(params[0]) {
      assert PicksAt(params, 0, FirstBraced(params).value);
    } else {
      var tail := params[1..];
      assert FirstBraced(params) == FirstBraced(tail);
      IterPicksFirstBraced(tail);
      assert forall m :: 1 <= m < |params| ==> params[m] == tail[m - 1];
      if FirstBraced(tail).Some? {
        var k :| PicksAt(tail, k, FirstBraced(tail).value);
        assert PicksAt(params, k + 1, FirstBraced(params).value);
      }
    }
  }

  // ---------------------------------------------------------------------
  // The Command class
  // ---------------------------------------------------------------------

  class Command {
    var operator: string
    var params: seq<string>
    var tex: Option<string>

    function Value(): Cmd
      reads this
    {
      Cmd(operator, params, tex)
    }

    constructor (c: Cmd)
      ensures Value() == c
    {
      operator, params, tex := c.operator, c.params, c.tex;
    }

    /** `update(**kwargs)`: the raw source is cleared and the given fields
        are set; `str` then rebuilds the command from its parts. */
    method Update(operator': Option<string>, params': Option<seq<string>>) returns (self: Command)
      modifies this
      ensures self == this
      ensures tex == None
      ensures operator == (if operator'.Some? then operator'.value else old(operator))
      ensures params == (if params'.Some? then params'.value else old(params))
      ensures Render(Value()) == "\\" + operator + Concat(params)
    {
      tex := None;
      if operator'.Some? {
        operator := operator'.value;
      }
      if params'.Some? {
        params := params'.value;
      }
      self := this;
    }
  }

  // ---------------------------------------------------------------------
  // fromLatexIter, one character at a time
  // ---------------------------------------------------------------------

  /** Which reset follows a command that ends at a backslash: as written,
      `is_operator` is cleared, so the next command's name is lost; the
      corrected reset keeps it set, as the reset after a space does for a
      backslash. */
  datatype Variant = AsWritten | Corrected

  /** The locals of `fromLatexIter`: `ntex`, `delimiters`, `params`,
      `operator`, `param`, `is_operator`, `is_param` and `num_iters`. */
  datatype St = St(ntex: string, delims: map<char, int>, params: seq<string>, operator: string,
                   param: string, isOp: bool, isParam: bool, left: int)

  /** `c in Command.delimiters`: the keys are `{`, `[` and `begin`, and only
      the first two are single characters. */
  predicate IsOpener(c: char)
  {
    c == '{' || c == '['
  }

  /** `c in Command.delimiters.values()`. */
  predicate IsCloser(c: char)
  {
    c == '}' || c == ']'
  }

  /** `Command.rdelimiters[c]`. */
  function OpenerOf(c: char): char
    requires IsCloser(c)
  {
    if c == '}' then '{' else '['
  }

  /** The counter of opener `o` exists and is not zero. */
  predicate Open(delims: map<char, int>, o: char)
  {
    o in delims && delims[o] != 0
  }

  /** `any(delimiters.values())`: some counter is not zero. Only `{` and
      `[` are ever stored as keys (`Inv` keeps this), so these two are all
      the values there are. */
  predicate AnyOpen(delims: map<char, int>)
  {
    Open(delims, '{') || Open(delims, '[')
  }

  /** No counter has been started since the last reset. */
  predicate NoCounters(delims: map<char, int>)
  {
    '{' !in delims && '[' !in delims
  }

  /** The state before the first character; `num_iters` counts down. */
  function Start(numIters: int): St
  {
    St("\\", map[], [], "", "", false, false, numIters)
  }

  /** The reset after a command: `ntex` becomes `c.strip()` (a space
      strips to nothing, a backslash stays), everything else is cleared. */
  function Reset(c: char, isOp: bool, left: int): St
  {
    St(if c == ' ' then "" else [c], map[], [], "", "", isOp, false, left)
  }

  /** `Command(operator, params, ntex)` of the current state. */
  function Emit(st: St): Cmd
  {
    Cmd(st.operator, st.params, Some(st.ntex))
  }

  /** One turn of the loop: go on, yield a command and go on, yield and
      `break`, or fail on a closing delimiter whose counter never started
      (the KeyError). */
  datatype Turn = Go(st: St) | Yield(cmd: Cmd, st: St) | Stop(cmd: Cmd, st: St) | KeyError

  /** The loop body of `fromLatexIter` on character `c`. */
  function Step(v: Variant, st: St, c: char): Turn
  {
    var st1 :=
      if IsOpener(c) then
        st.(delims := st.delims[c := (if c in st.delims then st.delims[c] else 0) + 1],
            isOp := false, isParam := true)
      else st;
    if IsCloser(c) && OpenerOf(c) !in st1.delims then KeyError
    else if IsCloser(c) && st1.delims[OpenerOf(c)] - 1 == 0 then
      Go(st1.(delims := st1.delims[OpenerOf(c) := 0], params := st1.params + [st1.param + [c]],
              param := "", ntex := st1.ntex + [c], isParam := false))
    else
      var st2 := if IsCloser(c) then st1.(delims := st1.delims[OpenerOf(c) := st1.delims[OpenerOf(c)] - 1]) else st1;
      if c == '\\' && !AnyOpen(st2.delims) && !st2.isOp then
        if st2.params != [] then Yield(Emit(st2), Reset(c, v == Corrected, st2.left))
        else Go(st2.(isOp := true))
      else if !AnyOpen(st2.delims) && (c == ' ' || c == '\\') then
        if st2.left - 1 == 0 then Stop(Emit(st2), Reset(c, c == '\\', st2.left - 1))
        else Yield(Emit(st2), Reset(c, c == '\\', st2.left - 1))
      else
        Go(st2.(operator := if st2.isOp then st2.operator + [c] else st2.operator,
                param := if !st2.isOp && st2.isParam then st2.param + [c] else st2.param,
                ntex := st2.ntex + [c]))
  }

  /** The commands `fromLatexIter` yields from character `i` on, and
      whether it then raises. After the loop (or its `break`) the last
      command is yielded. */
  function Yields(v: Variant, tex: string, i: nat, st: St): (seq<Cmd>, bool)
    decreases |tex| - i
  {
    if i >= |tex| then ([Emit(st)], false)
    else
      match Step(v, st, tex[i])
      case KeyError => ([], true)
      case Go(st') => Yields(v, tex, i + 1, st')
      case Yield(cmd, st') =>
        var rest := Yields(v, tex, i + 1, st');
        ([cmd] + rest.0, rest.1)
      case Stop(cmd, st') => ([cmd, Emit(st')], false)
  }

  /** The generator `fromLatexIter(tex, num_iters)`, run to its end: the
      commands it yields and whether it raises after them. */
  function IterOf(v: Variant, tex: string, numIters: int): (seq<Cmd>, bool)
  {
    Yields(v, tex, 0, Start(numIters))
  }

  /** `fromLatex(tex)`: the first command the generator yields, or the
      empty command when it raises before yielding one. */
  function FromLatexOf(v: Variant, tex: string): Cmd
  {
    var (cmds, _) := IterOf(v, tex, 1);
    if cmds != [] then cmds[0] else EmptyCmd
  }

  /** The loop body of `fromLatexIter`, on the locals it updates. */
  method TakeChar(v: Variant, st: St, c: char) returns (r: Turn)
    ensures r == Step(v, st, c)
  {
    var ntex, delims, params, operator := st.ntex, st.delims, st.params, st.operator;
    var param, isOp, isParam, left := st.param, st.isOp, st.isParam, st.left;
    // a parameter starts
    if IsOpener(c) {
      delims := delims[c := (if c in delims then delims[c] else 0) + 1];
      isOp, isParam := false, true;
    }
    // a parameter ends
    if IsCloser(c) {
      if OpenerOf(c) !in delims {
        return KeyError;
      }
      delims := delims[OpenerOf(c) := delims[OpenerOf(c)] - 1];
      if delims[OpenerOf(c)] == 0 {
        params := params + [param + [c]];
        param, ntex, isParam := "", ntex + [c], false;
        return Go(St(ntex, delims, params, operator, param, isOp, isParam, left));
      }
    }
    // a command ends at a backslash or a space with every parameter closed
    if c == '\\' && !AnyOpen(delims) && !isOp {
      isOp := true;
      if params != [] {
        var cmd := Cmd(operator, params, Some(ntex));
        ntex, delims, params := [c], map[], [];
        operator, param, isOp, isParam := "", "", v == Corrected, false;
        return Yield(cmd, St(ntex, delims, params, operator, param, isOp, isParam, left));
      }
      return Go(St(ntex, delims, params, operator, param, isOp, isParam, left));
    } else if !AnyOpen(delims) && (c == ' ' || c == '\\') {
      var cmd := Cmd(operator, params, Some(ntex));
      ntex, delims, params := if c == ' ' then "" else [c], map[], [];
      operator, param, isOp, isParam := "", "", false, false;
      if c == '\\' {
        isOp := true;
      }
      left := left - 1;
      if left == 0 {
        return Stop(cmd, St(ntex, delims, params, operator, param, isOp, isParam, left));
      }
      return Yield(cmd, St(ntex, delims, params, operator, param, isOp, isParam, left));
    }
    // the character joins the operator or the parameter, and the source
    if isOp {
      operator := operator + [c];
    } else if isParam {
      param := param + [c];
    }
    ntex := ntex + [c];
    return Go(St(ntex, delims, params, operator, param, isOp, isParam, left));
  }

  /** `fromLatexIter` as a loop over the characters; the commands are new
      objects, in the order they are yielded. */
  method FromLatexIter(v: Variant, tex: string, numIters: int) returns (cmds: seq<Command>, failed: bool)
    ensures |cmds| == |IterOf(v, tex, numIters).0|
    ensures forall k :: 0 <= k < |cmds| ==> cmds[k].Value() == IterOf(v, tex, numIters).0[k]
    ensures failed == IterOf(v, tex, numIters).1
  {
    ghost var all := IterOf(v, tex, numIters);
    ghost var out: seq<Cmd> := [];
    var st := Start(numIters);
    cmds, failed := [], false;
    var i := 0;
    while i < |tex|
      invariant 0 <= i <= |tex|
      invariant |cmds| == |out| && forall k :: 0 <= k < |cmds| ==> cmds[k].Value() == out[k]
      invariant Yielding(v, tex, i, st, out, all)
    {
      var r := TakeChar(v, st, tex[i]);
      ghost var j := i + 1;
      match r {
        case KeyError =>
          YieldingFails(v, tex, i, st, out, all);
          failed := true;
          return;
        case Go(st') =>
          YieldingGoes(v, tex, i, st, st', out, all);
          st := st';
          assert Yielding(v, tex, j, st, out, all);
        case Yield(cmd, st') =>
          YieldingYields(v, tex, i, st, cmd, st', out, all);
          var c := new Command(cmd);
          cmds, out := cmds + [c], out + [cmd];
          st := st';
          assert Yielding(v, tex, j, st, out, all);
        case Stop(cmd, st') =>
          YieldingStops(v, tex, i, st, cmd, st', out, all);
          var c := new Command(cmd);
          var last := new Command(Emit(st'));
          cmds, out := cmds + [c, last], out + [cmd, Emit(st')];
          return;
      }
      i := i + 1;
    }
    YieldingEnds(v, tex, i, st, out, all);
    var last := new Command(Emit(st));
    cmds, out := cmds + [last], out + [Emit(st)];
  }

  /** What `fromLatexIter` has yielded so far (`out`) and what it yields
      from character `i` on make up its whole run `all`. */
  ghost predicate Yielding(v: Variant, tex: string, i: nat, st: St, out: seq<Cmd>, all: (seq<Cmd>, bool))
  {
    out + Yields(v, tex, i, st).0 == all.0 && Yields(v, tex, i, st).1 == all.1
  }

  lemma YieldingFails(v: Variant, tex: string, i: nat, st: St, out: seq<Cmd>, all: (seq<Cmd>, bool))
    requires i < |tex| && Step(v, st, tex[i]) == KeyError && Yielding(v, tex, i, st, out, all)
    ensures out == all.0 && all.1
  {
    assert Yields(v, tex, i, st) == ([], true);
    assert out + [] == out;
  }

  lemma YieldingGoes(v: Variant, tex: string, i: nat, st: St, st': St, out: seq<Cmd>, all: (seq<Cmd>, bool))
    requires i < |tex| && Step(v, st, tex[i]) == Go(st') && Yielding(v, tex, i, st, out, all)
    ensures Yielding(v, tex, i + 1, st', out, all)
  {
    assert Yields(v, tex, i, st) == Yields(v, tex, i + 1, st');
  }

  lemma YieldingYields(v: Variant, tex: string, i: nat, st: St, cmd: Cmd, st': St, out: seq<Cmd>,
                      all: (seq<Cmd>, bool))
    requires i < |tex| && Step(v, st, tex[i]) == Yield(cmd, st') && Yielding(v, tex, i, st, out, all)
    ensures Yielding(v, tex, i + 1, st', out + [cmd], all)
  {
    var rest := Yields(v, tex, i + 1, st');
    assert Yields(v, tex, i, st) == ([cmd] + rest.0, rest.1);
    ShiftOne(out, cmd, rest.0);
  }

  lemma YieldingStops(v: Variant, tex: string, i: nat, st: St, cmd: Cmd, st': St, out: seq<Cmd>,
                     all: (seq<Cmd>, bool))
    requires i < |tex| && Step(v, st, tex[i]) == Stop(cmd, st') && Yielding(v, tex, i, st, out, all)
    ensures out + [cmd, Emit(st')] == all.0 && !all.1
  {
    assert Yields(v, tex, i, st) == ([cmd, Emit(st')], false);
  }

  lemma YieldingEnds(v: Variant, tex: string, i: nat, st: St, out: seq<Cmd>, all: (seq<Cmd>, bool))
    requires i >= |tex| && Yielding(v, tex, i, st, out, all)
    ensures out + [Emit(st)] == all.0 && !all.1
  {
  }

  lemma ShiftOne<T>(xs: seq<T>, x: T, ys: seq<T>)
    ensures xs + ([x] + ys) == (xs + [x]) + ys
  {
  }

  /** `fromLatex(tex)`: the first command of `fromLatexIter(tex, 1)`, or
      `Command('', '', '')` when the generator raises before yielding. */
  method FromLatex(v: Variant, tex: string) returns (cmd: Command)
    ensures cmd.Value() == FromLatexOf(v, tex)
  {
    var cmds, _ := FromLatexIter(v, tex, 1);
    if cmds != [] {
      cmd := cmds[0];
    } else {
      cmd := new Command(EmptyCmd);
    }
  }

  // ---------------------------------------------------------------------
  // What every yielded command looks like
  // ---------------------------------------------------------------------

  /** A character that can end up in an operator name. */
  predicate NameChar(ch: char)
  {
    ch != ' ' && ch != '\\' && !IsOpener(ch) && !IsCloser(ch)
  }

  /** A collected parameter ends with the closing delimiter that brought its
      counter back to zero. */
  predicate ParamShape(p: string)
  {
    p != [] && IsCloser(p[|p| - 1])
  }

  /** The operator holds no space, backslash or delimiter, and every
      parameter is closed. */
  predicate WellFormed(c: Cmd)
  {
    (forall k :: 0 <= k < |c.operator| ==> NameChar(c.operator[k]))
    && (forall k :: 0 <= k < |c.params| ==> ParamShape(c.params[k]))
  }

  /** What the loop keeps: a counter at zero or below means some parameter
      was collected; while reading an operator no counter exists; and the
      command built so far is well formed. */
  predicate Inv(st: St)
  {
    (forall k :: k in st.delims ==> IsOpener(k))
    && (st.params == [] ==> ('{' in st.delims ==> st.delims['{'] > 0) && ('[' in st.delims ==> st.delims['['] > 0))
    && (st.isOp ==> NoCounters(st.delims))
    && WellFormed(Emit(st))
  }

  /** A turn keeps the invariant, and a command it yields is well formed. */
  predicate TurnKeeps(t: Turn)
  {
    match t
    case KeyError => true
    case Go(st') => Inv(st')
    case Yield(cmd, st') => WellFormed(cmd) && Inv(st')
    case Stop(cmd, st') => WellFormed(cmd) && Inv(st')
  }

  lemma StepKeepsInv(v: Variant, st: St, c: char)
    requires Inv(st)
    ensures TurnKeeps(Step(v, st, c))
  {
    if IsOpener(c) {
      OpenerKeepsInv(v, st, c);
    } else if IsCloser(c) {
      CloserKeepsInv(v, st, c);
    } else if c == '\\' {
      BackslashKeepsInv(v, st);
    } else {
      OtherKeepsInv(v, st, c);
    }
  }

  lemma OpenerKeepsInv(v: Variant, st: St, c: char)
    requires Inv(st) && IsOpener(c)
    ensures TurnKeeps(Step(v, st, c))
  {
  }

  lemma CloserKeepsInv(v: Variant, st: St, c: char)
    requires Inv(st) && IsCloser(c)
    ensures TurnKeeps(Step(v, st, c))
  {
  }

  lemma BackslashKeepsInv(v: Variant, st: St)
    requires Inv(st)
    ensures TurnKeeps(Step(v, st, '\\'))
  {
    if !AnyOpen(st.delims) && !st.isOp && st.params == [] {
      NoCounterLeft(st);
    }
  }

  lemma OtherKeepsInv(v: Variant, st: St, c: char)
    requires Inv(st) && !IsOpener(c) && !IsCloser(c) && c != '\\'
    ensures TurnKeeps(Step(v, st, c))
  {
  }

  /** With no parameter collected every counter is positive, so when none
      is open there is none at all. */
  lemma NoCounterLeft(st: St)
    requires Inv(st) && st.params == [] && !AnyOpen(st.delims)
    ensures NoCounters(st.delims)
  {
  }

  lemma {:induction false} YieldsWellFormed(v: Variant, tex: string, i: nat, st: St)
    requires Inv(st)
    ensures forall k :: 0 <= k < |Yields(v, tex, i, st).0| ==> WellFormed(Yields(v, tex, i, st).0[k])
    decreases |tex| - i
  {
    if i < |tex| {
      StepKeepsInv(v, st, tex[i]);
      match Step(v, st, tex[i])
      case KeyError =>
      case Go(st') => YieldsWellFormed(v, tex, i + 1, st');
      case Yield(cmd, st') =>
        YieldsWellFormed(v, tex, i + 1, st');
        assert Yields(v, tex, i, st).0 == [cmd] + Yields(v, tex, i + 1, st').0;
      case Stop(cmd, st') =>
    }
  }

  /** Every command `fromLatexIter` yields has an operator without spaces,
      backslashes or delimiters, and parameters that end with `}` or `]`. */
  lemma IterWellFormed(v: Variant, tex: string, numIters: int)
    ensures forall k :: 0 <= k < |IterOf(v, tex, numIters).0| ==> WellFormed(IterOf(v, tex, numIters).0[k])
    ensures WellFormed(FromLatexOf(v, tex))
  {
    YieldsWellFormed(v, tex, 0, Start(numIters));
    YieldsWellFormed(v, tex, 0, Start(1));
  }

  // ---------------------------------------------------------------------
  // The first command is a prefix of the source
  // ---------------------------------------------------------------------

  /** Between the opening backslash and the first yield a backslash outside
      every group ends the command instead of being skipped. */
  predicate Pending(st: St)
  {
    st.isOp || st.params != [] || AnyOpen(st.delims)
  }

  /** `c` is the prefix `tex[..j]`, cut at a space, a backslash or the end. */
  predicate CutsAt(tex: string, c: Cmd)
  {
    exists j :: 1 <= j <= |tex| && c.tex == Some(tex[..j]) && (j == |tex| || tex[j] == ' ' || tex[j] == '\\')
  }

  /** Before the first yield a turn appends the character to the source
      text, or yields exactly the text so far at a space or backslash. */
  predicate Appends(st: St, c: char, t: Turn)
  {
    match t
    case KeyError => true
    case Go(st') => st'.ntex == st.ntex + [c] && Pending(st') && Inv(st')
    case Yield(cmd, _) => cmd.tex == Some(st.ntex) && (c == ' ' || c == '\\')
    case Stop(cmd, _) => cmd.tex == Some(st.ntex) && (c == ' ' || c == '\\')
  }

  lemma StepAppends(v: Variant, st: St, c: char)
    requires Inv(st) && Pending(st)
    ensures Appends(st, c, Step(v, st, c))
  {
    StepKeepsInv(v, st, c);
    if IsOpener(c) {
      OpenerPends(v, st, c);
    } else if IsCloser(c) {
      CloserPends(v, st, c);
    } else {
      OtherPends(v, st, c);
    }
  }

  lemma OpenerPends(v: Variant, st: St, c: char)
    requires Inv(st) && Pending(st) && IsOpener(c) && TurnKeeps(Step(v, st, c))
    ensures Appends(st, c, Step(v, st, c))
  {
    var d := st.delims[c := (if c in st.delims then st.delims[c] else 0) + 1];
    if c in st.delims && st.delims[c] == -1 {
      assert st.params != [];
    } else {
      assert d[c] != 0;
    }
  }

  lemma CloserPends(v: Variant, st: St, c: char)
    requires Inv(st) && Pending(st) && IsCloser(c) && TurnKeeps(Step(v, st, c))
    ensures Appends(st, c, Step(v, st, c))
  {
    var o := OpenerOf(c);
    if o in st.delims && st.delims[o] - 1 != 0 {
      var d := st.delims[o := st.delims[o] - 1];
      assert d[o] != 0;
    }
  }

  lemma OtherPends(v: Variant, st: St, c: char)
    requires Inv(st) && Pending(st) && !IsOpener(c) && !IsCloser(c) && TurnKeeps(Step(v, st, c))
    ensures Appends(st, c, Step(v, st, c))
  {
    if Step(v, st, c).Go? {
      assert !(!AnyOpen(st.delims) && (c == ' ' || c == '\\'));
      assert Step(v, st, c).st.delims == st.delims;
    }
  }

  lemma {:induction false} FirstFrom(v: Variant, tex: string, i: nat, st: St)
    requires 1 <= i <= |tex| && st.ntex == tex[..i] && Inv(st) && Pending(st)
    ensures Yields(v, tex, i, st).0 == [] || CutsAt(tex, Yields(v, tex, i, st).0[0])
    decreases |tex| - i
  {
    if i == |tex| {
      assert Yields(v, tex, i, st).0[0].tex == Some(tex[..|tex|]);
    } else {
      StepAppends(v, st, tex[i]);
      match Step(v, st, tex[i])
      case KeyError =>
      case Go(st') =>
        assert tex[..i + 1] == tex[..i] + [tex[i]];
        FirstFrom(v, tex, i + 1, st');
      case Yield(cmd, st') =>
        assert Yields(v, tex, i, st).0[0] == cmd;
        assert cmd.tex == Some(tex[..i]);
      case Stop(cmd, st') =>
        assert Yields(v, tex, i, st).0[0] == cmd;
        assert cmd.tex == Some(tex[..i]);
    }
  }

  /** For a source that starts with a backslash, the first command's raw
      text is a prefix of the source that ends at a space or backslash
      outside every group, or at the end; so `fromLatex` returns that
      prefix or the empty command. */
  lemma FirstCommandIsPrefix(v: Variant, tex: string, numIters: int)
    requires tex != [] && tex[0] == '\\'
    ensures IterOf(v, tex, numIters).0 == [] || CutsAt(tex, IterOf(v, tex, numIters).0[0])
    ensures FromLatexOf(v, tex) == EmptyCmd || CutsAt(tex, FromLatexOf(v, tex))
  {
    var st := Start(numIters).(isOp := true);
    assert Step(v, Start(numIters), '\\') == Go(st);
    FirstFrom(v, tex, 1, st);
    var st1 := Start(1).(isOp := true);
    assert Step(v, Start(1), '\\') == Go(st1);
    FirstFrom(v, tex, 1, st1);
  }

  /** A closing delimiter before any opening one raises the KeyError: the
      generator yields nothing and `fromLatex` returns the empty command. */
  lemma UnmatchedCloserFails(v: Variant, tex: string, numIters: int)
    requires tex != [] && IsCloser(tex[0])
    ensures IterOf(v, tex, numIters) == ([], true)
    ensures FromLatexOf(v, tex) == EmptyCmd
  {
    assert Step(v, Start(numIters), tex[0]) == KeyError;
    assert Step(v, Start(1), tex[0]) == KeyError;
  }

  // ---------------------------------------------------------------------
  // Reading a name and its groups
  // ---------------------------------------------------------------------

  /** The state after characters `i` to `j`, when each of them only goes
      on; `None` when one of them yields or raises. */
  function Run(v: Variant, tex: string, i: nat, j: nat, st: St): Option<St>
    requires i <= j <= |tex|
    decreases j - i
  {
    if i == j then Some(st)
    else match Step(v, st, tex[i])
      case Go(st') => Run(v, tex, i + 1, j, st')
      case _ => None
  }

  /** Characters `i` to `j` only go on, taking `st` to `st'`. */
  predicate Reaches(v: Variant, tex: string, i: nat, j: nat, st: St, st': St)
    requires i <= j <= |tex|
  {
    Run(v, tex, i, j, st) == Some(st')
  }

  /** Characters that only go on yield nothing. */
  lemma {:induction false} RunYields(v: Variant, tex: string, i: nat, j: nat, st: St, st': St)
    requires i <= j <= |tex| && Reaches(v, tex, i, j, st, st')
    ensures Yields(v, tex, i, st) == Yields(v, tex, j, st')
    decreases j - i
  {
    if i < j {
      RunYields(v, tex, i + 1, j, Step(v, st, tex[i]).st, st');
    }
  }

  /** Runs compose. */
  lemma {:induction false} RunChain(v: Variant, tex: string, i: nat, k: nat, j: nat, st: St, s1: St, s2: St)
    requires i <= k <= j <= |tex| && Reaches(v, tex, i, k, st, s1) && Reaches(v, tex, k, j, s1, s2)
    ensures Reaches(v, tex, i, j, st, s2)
    decreases k - i
  {
    if i < k {
      var next := RunHead(v, tex, i, k, j, st);
      RunChain(v, tex, i + 1, k, j, next, s1, s2);
    }
  }

  /** A run that gets anywhere starts with a character that goes on, to a
      state `next` from which every run on starts one character later. */
  lemma RunHead(v: Variant, tex: string, i: nat, k: nat, j: nat, st: St) returns (next: St)
    requires i < k <= j <= |tex| && Run(v, tex, i, k, st).Some?
    ensures Run(v, tex, i, k, st) == Run(v, tex, i + 1, k, next)
    ensures Run(v, tex, i, j, st) == Run(v, tex, i + 1, j, next)
  {
    next := Step(v, st, tex[i]).st;
  }

  lemma RunOne(v: Variant, tex: string, i: nat, st: St, st': St)
    requires i < |tex| && Step(v, st, tex[i]) == Go(st')
    ensures Reaches(v, tex, i, i + 1, st, st')
  {
  }

  /** No delimiter at all. */
  predicate Flat(s: string)
  {
    forall k :: 0 <= k < |s| ==> !IsOpener(s[k]) && !IsCloser(s[k])
  }

  /** A parameter `{...}` or `[...]` with no delimiter inside. */
  predicate FlatGroup(p: string)
  {
    |p| >= 2 && IsOpener(p[0]) && IsCloser(p[|p| - 1]) && OpenerOf(p[|p| - 1]) == p[0]
    && Flat(p[1..|p| - 1])
  }

  /** The state after the backslash, the name and the parameters `ps`:
      every counter is back at zero and no parameter is in progress. */
  predicate Ready(st: St, name: string, ps: seq<string>)
  {
    st.ntex == "\\" + name + Concat(ps) && st.params == ps && st.operator == name
    && st.param == "" && st.isOp == (ps == []) && !st.isParam
    && !AnyOpen(st.delims) && (ps == [] ==> NoCounters(st.delims))
  }

  lemma {:induction false} ConcatSnoc(ps: seq<string>, p: string)
    ensures Concat(ps + [p]) == Concat(ps) + p
  {
    if ps == [] {
      assert [] + [p] == [p];
    } else {
      assert (ps + [p])[1..] == ps[1..] + [p];
      ConcatSnoc(ps[1..], p);
    }
  }

  lemma NameStep(v: Variant, st: St, c: char)
    requires st.isOp && NoCounters(st.delims) && NameChar(c)
    ensures Step(v, st, c) == Go(st.(operator := st.operator + [c], ntex := st.ntex + [c]))
  {
  }

  /** A run over a name character continues from the next one with the
      character added to the operator. */
  lemma NameGoesOn(v: Variant, tex: string, i: nat, j: nat, st: St)
    requires i < j <= |tex| && st.isOp && NoCounters(st.delims) && NameChar(tex[i])
    ensures Run(v, tex, i, j, st) == Run(v, tex, i + 1, j, st.(operator := st.operator + [tex[i]], ntex := st.ntex + [tex[i]]))
  {
    NameStep(v, st, tex[i]);
  }

  /** Adding one character and then the rest of a slice adds the slice. */
  lemma ExtendHead(a: string, tex: string, i: nat, j: nat)
    requires i < j <= |tex|
    ensures (a + [tex[i]]) + tex[i + 1..j] == a + tex[i..j]
  {
    assert tex[i..j] == [tex[i]] + tex[i + 1..j];
  }

  /** Name characters after the backslash go to the operator. */
  lemma {:induction false} NameRun(v: Variant, tex: string, i: nat, j: nat, st: St)
    requires i <= j <= |tex| && st.isOp && NoCounters(st.delims)
    requires forall k :: i <= k < j ==> NameChar(tex[k])
    ensures Reaches(v, tex, i, j, st, st.(operator := st.operator + tex[i..j], ntex := st.ntex + tex[i..j]))
    decreases j - i
  {
    if i < j {
      var st' := st.(operator := st.operator + [tex[i]], ntex := st.ntex + [tex[i]]);
      NameGoesOn(v, tex, i, j, st);
      NameRun(v, tex, i + 1, j, st');
      ExtendHead(st.operator, tex, i, j);
      ExtendHead(st.ntex, tex, i, j);
    } else {
      assert st.operator + tex[i..j] == st.operator && st.ntex + tex[i..j] == st.ntex;
    }
  }

  lemma InnerStep(v: Variant, st: St, c: char)
    requires !st.isOp && st.isParam && AnyOpen(st.delims) && !IsOpener(c) && !IsCloser(c)
    ensures Step(v, st, c) == Go(st.(param := st.param + [c], ntex := st.ntex + [c]))
  {
  }

  /** Inside an open group every character other than a delimiter, spaces
      and backslashes included, goes to the parameter. */
  lemma InnerRun(v: Variant, tex: string, i: nat, j: nat, st: St)
    requires i <= j <= |tex| && !st.isOp && st.isParam && AnyOpen(st.delims)
    requires Flat(tex[i..j])
    ensures Reaches(v, tex, i, j, st, st.(param := st.param + tex[i..j], ntex := st.ntex + tex[i..j]))
  {
    FlatAt(tex, i, j);
    InnerChars(v, tex, i, j, st);
  }

  lemma FlatAt(tex: string, i: nat, j: nat)
    requires i <= j <= |tex| && Flat(tex[i..j])
    ensures forall k :: i <= k < j ==> !IsOpener(tex[k]) && !IsCloser(tex[k])
  {
    forall k | i <= k < j
      ensures !IsOpener(tex[k]) && !IsCloser(tex[k])
    {
      assert tex[k] == tex[i..j][k - i];
    }
  }

  lemma {:induction false} InnerChars(v: Variant, tex: string, i: nat, j: nat, st: St)
    requires i <= j <= |tex| && !st.isOp && st.isParam && AnyOpen(st.delims)
    requires forall k :: i <= k < j ==> !IsOpener(tex[k]) && !IsCloser(tex[k])
    ensures Reaches(v, tex, i, j, st, st.(param := st.param + tex[i..j], ntex := st.ntex + tex[i..j]))
    decreases j - i
  {
    if i < j {
      var st' := st.(param := st.param + [tex[i]], ntex := st.ntex + [tex[i]]);
      InnerStep(v, st, tex[i]);
      InnerChars(v, tex, i + 1, j, st');
      assert tex[i..j] == [tex[i]] + tex[i + 1..j];
      assert st'.param + tex[i + 1..j] == st.param + tex[i..j];
      assert st'.ntex + tex[i + 1..j] == st.ntex + tex[i..j];
    } else {
      assert st.param + tex[i..j] == st.param && st.ntex + tex[i..j] == st.ntex;
    }
  }

  /** The state after reading one more flat group `p`. */
  function AfterGroup(st: St, p: string): St
    requires p != []
  {
    St(st.ntex + p, st.delims[p[0] := 0], st.params + [p], st.operator, "", false, false, st.left)
  }

  lemma OpenStep(v: Variant, st: St, o: char)
    requires IsOpener(o) && !AnyOpen(st.delims) && st.param == ""
    ensures Step(v, st, o) == Go(st.(delims := st.delims[o := 1], isOp := false, isParam := true, param := [o], ntex := st.ntex + [o]))
  {
  }

  lemma CloseStep(v: Variant, st: St, c: char)
    requires IsCloser(c) && OpenerOf(c) in st.delims && st.delims[OpenerOf(c)] == 1
    ensures Step(v, st, c) == Go(st.(delims := st.delims[OpenerOf(c) := 0], params := st.params + [st.param + [c]],
                                     param := "", ntex := st.ntex + [c], isParam := false))
  {
  }

  lemma SliceAt(tex: string, i: nat, p: string)
    requires i + |p| <= |tex| && tex[i..i + |p|] == p
    ensures forall k :: 0 <= k < |p| ==> tex[i + k] == p[k]
  {
    forall k | 0 <= k < |p|
      ensures tex[i + k] == p[k]
    {
      assert tex[i..i + |p|][k] == tex[i + k];
    }
  }

  lemma SlicePieces(tex: string, i: nat, q: string, rest: string)
    requires i + |q + rest| <= |tex| && tex[i..i + |q + rest|] == q + rest
    ensures tex[i..i + |q|] == q && tex[i + |q|..i + |q| + |rest|] == rest
  {
    assert tex[i..i + |q|] == tex[i..i + |q + rest|][..|q|];
    assert tex[i + |q|..i + |q| + |rest|] == tex[i..i + |q + rest|][|q|..];
  }

  /** The state inside flat group `p` just before its closing delimiter. */
  function Opened(st: St, p: string): St
    requires FlatGroup(p)
  {
    st.(delims := st.delims[p[0] := 1], isOp := false, isParam := true,
        param := p[..|p| - 1], ntex := st.ntex + p[..|p| - 1])
  }

  /** The state just after the opening delimiter of flat group `p`. */
  function Entered(st: St, p: string): St
    requires FlatGroup(p)
  {
    st.(delims := st.delims[p[0] := 1], isOp := false, isParam := true, param := [p[0]], ntex := st.ntex + [p[0]])
  }

  /** Source text `tex` spells out `p` from index `i` on. */
  predicate Spells(tex: string, i: nat, p: string)
  {
    i + |p| <= |tex| && forall k :: 0 <= k < |p| ==> tex[i + k] == p[k]
  }

  lemma SliceSpells(tex: string, i: nat, p: string)
    requires i + |p| <= |tex| && tex[i..i + |p|] == p
    ensures Spells(tex, i, p)
  {
    SliceAt(tex, i, p);
  }

  lemma SpellsSplit(tex: string, i: nat, q: string, rest: string)
    requires Spells(tex, i, q + rest)
    ensures Spells(tex, i, q) && Spells(tex, i + |q|, rest)
  {
    forall k | 0 <= k < |q|
      ensures tex[i + k] == q[k]
    {
      assert (q + rest)[k] == q[k];
    }
    forall k | 0 <= k < |rest|
      ensures tex[i + |q| + k] == rest[k]
    {
      assert (q + rest)[|q| + k] == rest[k];
    }
  }

  /** The inside of a spelled-out group, as a slice of the source. */
  lemma InsideSlice(tex: string, i: nat, p: string)
    requires Spells(tex, i, p) && |p| >= 2
    ensures tex[i + 1..i + |p| - 1] == p[1..|p| - 1]
  {
    var a, b := tex[i + 1..i + |p| - 1], p[1..|p| - 1];
    forall k | 0 <= k < |b|
      ensures a[k] == b[k]
    {
      assert b[k] == p[k + 1];
    }
  }

  lemma SpellsAt(tex: string, i: nat, p: string, k: nat)
    requires Spells(tex, i, p) && k < |p|
    ensures tex[i + k] == p[k]
  {
  }

  lemma SpellsSlice(tex: string, i: nat, p: string)
    requires Spells(tex, i, p)
    ensures tex[i..i + |p|] == p
  {
    var a := tex[i..i + |p|];
    forall k | 0 <= k < |p|
      ensures a[k] == p[k]
    {
      SpellsAt(tex, i, p, k);
    }
  }

  /** The whole source spells itself out. */
  lemma SpellsItself(tex: string)
    ensures Spells(tex, 0, tex)
  {
  }

  lemma GroupBody(v: Variant, tex: string, i: nat, st: St, p: string)
    requires FlatGroup(p) && Spells(tex, i, p)
    ensures Reaches(v, tex, i + 1, i + |p| - 1, Entered(st, p), Opened(st, p))
  {
    InsideRun(v, tex, i, st, p);
    EnteredThenBody(st, p);
  }

  /** The contents of a flat group go to the parameter the opener started. */
  lemma InsideRun(v: Variant, tex: string, i: nat, st: St, p: string)
    requires FlatGroup(p) && Spells(tex, i, p)
    ensures var st1, body := Entered(st, p), p[1..|p| - 1];
      Reaches(v, tex, i + 1, i + |p| - 1, st1, st1.(param := st1.param + body, ntex := st1.ntex + body))
  {
    var st1 := Entered(st, p);
    InsideSlice(tex, i, p);
    assert st1.delims[p[0]] == 1;
    InnerRun(v, tex, i + 1, i + |p| - 1, st1);
  }

  lemma EnteredThenBody(st: St, p: string)
    requires FlatGroup(p)
    ensures var st1, body := Entered(st, p), p[1..|p| - 1];
      st1.(param := st1.param + body, ntex := st1.ntex + body) == Opened(st, p)
  {
    var o, n, body := p[0], |p|, p[1..|p| - 1];
    assert [o] + body == p[..n - 1];
    assert st.ntex + [o] + body == st.ntex + p[..n - 1];
  }

  lemma GroupOpens(v: Variant, tex: string, i: nat, st: St, p: string)
    requires !AnyOpen(st.delims) && st.param == "" && FlatGroup(p) && Spells(tex, i, p)
    ensures Reaches(v, tex, i, i + |p| - 1, st, Opened(st, p))
  {
    assert tex[i + 0] == p[0];
    OpenStep(v, st, p[0]);
    RunOne(v, tex, i, st, Entered(st, p));
    GroupBody(v, tex, i, st, p);
    RunChain(v, tex, i, i + 1, i + |p| - 1, st, Entered(st, p), Opened(st, p));
  }

  /** A flat group opens its counter, collects its contents and closes the
      counter again, becoming the next parameter. */
  lemma GroupRunAt(v: Variant, tex: string, i: nat, st: St, p: string)
    requires !AnyOpen(st.delims) && st.param == "" && FlatGroup(p) && Spells(tex, i, p)
    ensures Reaches(v, tex, i, i + |p|, st, AfterGroup(st, p))
  {
    var n := |p|;
    var m := i + n - 1;
    GroupOpens(v, tex, i, st, p);
    var st2 := Opened(st, p);
    assert tex[m] == p[n - 1] by {
      assert tex[i + (n - 1)] == p[n - 1];
    }
    CloseStep(v, st2, p[n - 1]);
    assert p[..n - 1] + [p[n - 1]] == p;
    assert st2.delims[p[0] := 0] == st.delims[p[0] := 0];
    RunOne(v, tex, m, st2, AfterGroup(st, p));
    RunChain(v, tex, i, m, i + n, st, st2, AfterGroup(st, p));
  }

  lemma GroupRun(v: Variant, tex: string, i: nat, st: St, p: string)
    requires !AnyOpen(st.delims) && st.param == "" && FlatGroup(p) && i + |p| <= |tex| && tex[i..i + |p|] == p
    ensures Reaches(v, tex, i, i + |p|, st, AfterGroup(st, p))
  {
    SliceSpells(tex, i, p);
    GroupRunAt(v, tex, i, st, p);
  }

  /** Every one of `qs` is a flat group. */
  predicate AllFlat(qs: seq<string>)
    decreases |qs|
  {
    qs == [] || (FlatGroup(qs[0]) && AllFlat(qs[1..]))
  }

  lemma {:induction false} AllFlatOf(qs: seq<string>)
    requires forall k :: 0 <= k < |qs| ==> FlatGroup(qs[k])
    ensures AllFlat(qs)
    decreases |qs|
  {
    if qs != [] {
      assert forall k :: 0 <= k < |qs[1..]| ==> qs[1..][k] == qs[k + 1];
      AllFlatOf(qs[1..]);
    }
  }

  /** The state after reading the flat groups `qs` one after another. */
  function AfterGroups(st: St, qs: seq<string>): St
    requires AllFlat(qs)
    decreases |qs|
  {
    if qs == [] then st else AfterGroups(AfterGroup(st, qs[0]), qs[1..])
  }

  /** Flat groups one after another become the parameters in order. */
  lemma {:induction false} GroupsReady(st: St, name: string, ps: seq<string>, qs: seq<string>)
    requires Ready(st, name, ps) && AllFlat(qs)
    ensures Ready(AfterGroups(st, qs), name, ps + qs)
    decreases |qs|
  {
    if qs == [] {
      assert ps + qs == ps;
    } else {
      ConcatSnoc(ps, qs[0]);
      GroupsReady(AfterGroup(st, qs[0]), name, ps + [qs[0]], qs[1..]);
      assert ps + [qs[0]] + qs[1..] == ps + qs;
    }
  }

  lemma {:induction false} GroupsRun(v: Variant, tex: string, i: nat, st: St, qs: seq<string>)
    requires !AnyOpen(st.delims) && st.param == "" && AllFlat(qs)
    requires Spells(tex, i, Concat(qs))
    ensures Reaches(v, tex, i, i + |Concat(qs)|, st, AfterGroups(st, qs))
    decreases |qs|, 1
  {
    if qs != [] {
      GroupsRunCons(v, tex, i, st, qs);
    }
  }

  lemma {:induction false} GroupsRunCons(v: Variant, tex: string, i: nat, st: St, qs: seq<string>)
    requires qs != []
    requires !AnyOpen(st.delims) && st.param == "" && AllFlat(qs)
    requires Spells(tex, i, Concat(qs))
    ensures Reaches(v, tex, i, i + |Concat(qs)|, st, AfterGroups(st, qs))
    decreases |qs|, 0
  {
    var q, rest := qs[0], qs[1..];
    var after := AfterGroup(st, q);
    var k := i + |q|;
    var j := i + |Concat(qs)|;
    ConcatCons(qs);
    assert Reaches(v, tex, i, k, st, after) && Spells(tex, k, Concat(rest)) by {
      SpellsSplit(tex, i, q, Concat(rest));
      GroupRunAt(v, tex, i, st, q);
    }
    AfterGroupCloses(st, q);
    GroupsRun(v, tex, k, after, rest);
    assert j == k + |Concat(rest)|;
    AfterGroupsCons(st, qs);
    RunChain(v, tex, i, k, j, st, after, AfterGroups(st, qs));
  }

  lemma AfterGroupsCons(st: St, qs: seq<string>)
    requires qs != [] && AllFlat(qs)
    ensures AfterGroups(st, qs) == AfterGroups(AfterGroup(st, qs[0]), qs[1..])
  {
  }

  lemma ConcatCons(qs: seq<string>)
    requires qs != []
    ensures Concat(qs) == qs[0] + Concat(qs[1..]) && |Concat(qs)| == |qs[0]| + |Concat(qs[1..])|
  {
  }

  /** After a group every counter is back at zero and no parameter is in progress. */
  lemma AfterGroupCloses(st: St, p: string)
    requires !AnyOpen(st.delims) && p != []
    ensures !AnyOpen(AfterGroup(st, p).delims) && AfterGroup(st, p).param == ""
  {
  }

  /** After the name and its groups a space, a backslash or the end of the
      source yields the command read so far. */
  lemma EndRead(v: Variant, tex: string, j: nat, st: St, name: string, ps: seq<string>)
    requires Ready(st, name, ps) && j <= |tex| && (j == |tex| || tex[j] == ' ' || tex[j] == '\\')
    ensures Yields(v, tex, j, st).0 != [] && Yields(v, tex, j, st).0[0] == Emit(st)
  {
    if j < |tex| {
      assert !AnyOpen(st.delims);
    }
  }

  /** `fromLatex` on a backslash, a name and flat groups, followed by a
      space, a backslash or nothing, returns that command, and its raw text
      is exactly what `str` rebuilds from the operator and the parameters. */
  lemma {:induction false} ReadsNameAndGroups(v: Variant, tex: string, name: string, ps: seq<string>, numIters: int)
    requires forall k :: 0 <= k < |name| ==> NameChar(name[k])
    requires forall k :: 0 <= k < |ps| ==> FlatGroup(ps[k])
    requires var head := Render(Cmd(name, ps, None));
      |head| <= |tex| && tex[..|head|] == head && (|tex| == |head| || tex[|head|] == ' ' || tex[|head|] == '\\')
    ensures IterOf(v, tex, numIters).0 != []
    ensures IterOf(v, tex, numIters).0[0] == Cmd(name, ps, Some(Render(Cmd(name, ps, None))))
    ensures FromLatexOf(v, tex) == Cmd(name, ps, Some(Render(Cmd(name, ps, None))))
  {
    AllFlatOf(ps);
    ReadsFrom(v, tex, name, ps, numIters);
    ReadsFrom(v, tex, name, ps, 1);
  }

  /** The state after the backslash and the name. */
  function NameState(name: string, left: int): St
  {
    St("\\" + name, map[], [], name, "", true, false, left)
  }

  /** What a source that starts with a backslash and a name says about its characters. */
  lemma NameSpelled(tex: string, name: string)
    requires forall k :: 0 <= k < |name| ==> NameChar(name[k])
    requires Spells(tex, 0, "\\" + name)
    ensures tex[0] == '\\' && tex[1..1 + |name|] == name
    ensures forall k :: 1 <= k < 1 + |name| ==> NameChar(tex[k])
  {
    var h := "\\" + name;
    SpellsAt(tex, 0, h, 0);
    forall k | 1 <= k < 1 + |name|
      ensures NameChar(tex[k])
    {
      SpellsAt(tex, 0, h, k);
      assert h[k] == name[k - 1];
    }
    SpellsSplit(tex, 0, "\\", name);
    SpellsSlice(tex, 1, name);
  }

  lemma NameRead(v: Variant, tex: string, name: string, left: int)
    requires forall k :: 0 <= k < |name| ==> NameChar(name[k])
    requires Spells(tex, 0, "\\" + name)
    ensures Reaches(v, tex, 0, 1 + |name|, Start(left), NameState(name, left))
  {
    var n := 1 + |name|;
    NameSpelled(tex, name);
    var s1 := Start(left).(isOp := true);
    assert Step(v, Start(left), '\\') == Go(s1);
    RunOne(v, tex, 0, Start(left), s1);
    NameRun(v, tex, 1, n, s1);
    assert s1.(operator := s1.operator + tex[1..n], ntex := s1.ntex + tex[1..n]) == NameState(name, left);
    RunChain(v, tex, 0, 1, n, Start(left), s1, NameState(name, left));
  }

  /** A command name followed by flat groups, spelled out piece by piece. */
  lemma NameGroupsRun(v: Variant, tex: string, name: string, ps: seq<string>, left: int)
    requires forall k :: 0 <= k < |name| ==> NameChar(name[k])
    requires AllFlat(ps)
    requires Spells(tex, 0, "\\" + name) && Spells(tex, 1 + |name|, Concat(ps))
    ensures Reaches(v, tex, 0, 1 + |name| + |Concat(ps)|, Start(left), AfterGroups(NameState(name, left), ps))
  {
    var n := 1 + |name|;
    var ns := NameState(name, left);
    NameRead(v, tex, name, left);
    GroupsRun(v, tex, n, ns, ps);
    RunChain(v, tex, 0, n, n + |Concat(ps)|, Start(left), ns, AfterGroups(ns, ps));
  }

  lemma HeadRun(v: Variant, tex: string, name: string, ps: seq<string>, left: int)
    requires forall k :: 0 <= k < |name| ==> NameChar(name[k])
    requires AllFlat(ps)
    requires Spells(tex, 0, Render(Cmd(name, ps, None)))
    ensures Reaches(v, tex, 0, |Render(Cmd(name, ps, None))|, Start(left), AfterGroups(NameState(name, left), ps))
  {
    var r := Render(Cmd(name, ps, None));
    assert r == ("\\" + name) + Concat(ps);
    SpellsSplit(tex, 0, "\\" + name, Concat(ps));
    assert 0 + |"\\" + name| == 1 + |name|;
    NameGroupsRun(v, tex, name, ps, left);
  }

  lemma {:induction false} ReadsFrom(v: Variant, tex: string, name: string, ps: seq<string>, left: int)
    requires forall k :: 0 <= k < |name| ==> NameChar(name[k])
    requires AllFlat(ps)
    requires var head := Render(Cmd(name, ps, None));
      |head| <= |tex| && tex[..|head|] == head && (|tex| == |head| || tex[|head|] == ' ' || tex[|head|] == '\\')
    ensures Yields(v, tex, 0, Start(left)).0 != []
    ensures Yields(v, tex, 0, Start(left)).0[0] == Cmd(name, ps, Some(Render(Cmd(name, ps, None))))
  {
    var head := Render(Cmd(name, ps, None));
    assert Spells(tex, 0, head) by {
      assert tex[..|head|] == tex[0..0 + |head|];
      SliceSpells(tex, 0, head);
    }
    HeadRun(v, tex, name, ps, left);
    RunYields(v, tex, 0, |Render(Cmd(name, ps, None))|, Start(left), AfterGroups(NameState(name, left), ps));
    assert Ready(NameState(name, left), name, []);
    GroupsReady(NameState(name, left), name, [], ps);
    assert [] + ps == ps;
    EndRead(v, tex, |Render(Cmd(name, ps, None))|, AfterGroups(NameState(name, left), ps), name, ps);
  }

  // ---------------------------------------------------------------------
  // Plain words and nested groups
  // ---------------------------------------------------------------------

  /** Outside a name and any group an ordinary character only goes to the raw text. */
  lemma PlainStep(v: Variant, st: St, c: char)
    requires !st.isOp && !st.isParam && NoCounters(st.delims) && NameChar(c)
    ensures Step(v, st, c) == Go(st.(ntex := st.ntex + [c]))
  {
  }

  /** A run over an ordinary character outside a name continues from the
      next one with the character added to the raw text. */
  lemma PlainGoesOn(v: Variant, tex: string, i: nat, j: nat, st: St)
    requires i < j <= |tex| && !st.isOp && !st.isParam && NoCounters(st.delims) && NameChar(tex[i])
    ensures Run(v, tex, i, j, st) == Run(v, tex, i + 1, j, st.(ntex := st.ntex + [tex[i]]))
  {
    PlainStep(v, st, tex[i]);
  }

  /** Outside a name and outside any group, ordinary characters only go to
      the raw text. */
  lemma {:induction false} PlainRun(v: Variant, tex: string, i: nat, j: nat, st: St)
    requires i <= j <= |tex| && !st.isOp && !st.isParam && NoCounters(st.delims)
    requires forall k :: i <= k < j ==> NameChar(tex[k])
    ensures Reaches(v, tex, i, j, st, st.(ntex := st.ntex + tex[i..j]))
    decreases j - i
  {
    if i < j {
      var st' := st.(ntex := st.ntex + [tex[i]]);
      PlainGoesOn(v, tex, i, j, st);
      PlainRun(v, tex, i + 1, j, st');
      ExtendHead(st.ntex, tex, i, j);
    } else {
      assert st.ntex + tex[i..j] == st.ntex;
    }
  }

  /** A plain word running to the end of the source is yielded as the last
      command, with an empty operator. */
  lemma WordYields(v: Variant, tex: string, i: nat, st: St)
    requires i <= |tex| && !st.isOp && !st.isParam && NoCounters(st.delims)
    requires forall k :: i <= k < |tex| ==> NameChar(tex[k])
    ensures Yields(v, tex, i, st) == ([Emit(st.(ntex := st.ntex + tex[i..]))], false)
  {
    PlainRun(v, tex, i, |tex|, st);
    assert tex[i..|tex|] == tex[i..];
    RunYields(v, tex, i, |tex|, st, st.(ntex := st.ntex + tex[i..]));
  }

  /** An opener inside an open group of its own kind deepens the counter
      and goes to the parameter. */
  lemma DeepenStep(v: Variant, st: St, o: char)
    requires IsOpener(o) && o in st.delims && st.delims[o] >= 1 && st.isParam
    ensures Step(v, st, o) == Go(st.(delims := st.delims[o := st.delims[o] + 1], isOp := false,
                                      param := st.param + [o], ntex := st.ntex + [o]))
  {
  }

  /** A closer whose counter stays open goes to the parameter. */
  lemma ShallowStep(v: Variant, st: St, c: char)
    requires IsCloser(c) && OpenerOf(c) in st.delims && st.delims[OpenerOf(c)] >= 2 && !st.isOp && st.isParam
    ensures Step(v, st, c) == Go(st.(delims := st.delims[OpenerOf(c) := st.delims[OpenerOf(c)] - 1],
                                      param := st.param + [c], ntex := st.ntex + [c]))
  {
    var d := st.delims[OpenerOf(c) := st.delims[OpenerOf(c)] - 1];
    assert d[OpenerOf(c)] != 0;
  }

  function Nested(a: string, b: string): string
  {
    "{" + a + "{" + b + "}}"
  }

  /** The state inside a nested group after its inner group opened. */
  function Deep(st: St, a: string): St
  {
    st.(delims := st.delims['{' := 2], isOp := false, isParam := true,
        param := "{" + a + "{", ntex := st.ntex + "{" + a + "{")
  }

  /** Where the pieces of a nested group sit in the source. */
  lemma NestedSlices(tex: string, i: nat, a: string, b: string)
    requires Spells(tex, i, Nested(a, b))
    ensures tex[i] == '{' && tex[i + 1..i + 1 + |a|] == a && tex[i + 1 + |a|] == '{'
    ensures tex[i + |a| + 2..i + |a| + 2 + |b|] == b && tex[i + |a| + 2 + |b|] == '}' && tex[i + |a| + 3 + |b|] == '}'
  {
    var p := Nested(a, b);
    assert p[0] == '{' && p[1 + |a|] == '{' && p[|a| + 2 + |b|] == '}' && p[|a| + 3 + |b|] == '}';
    SpellsAt(tex, i, p, 0);
    SpellsAt(tex, i, p, 1 + |a|);
    SpellsAt(tex, i, p, |a| + 2 + |b|);
    SpellsAt(tex, i, p, |a| + 3 + |b|);
    assert p == ("{" + a) + ("{" + b + "}}");
    SpellsSplit(tex, i, "{" + a, "{" + b + "}}");
    SpellsSplit(tex, i, "{", a);
    SpellsSlice(tex, i + 1, a);
    assert p == ("{" + a + "{") + (b + "}}");
    SpellsSplit(tex, i, "{" + a + "{", b + "}}");
    SpellsSplit(tex, i + |a| + 2, b, "}}");
    SpellsSlice(tex, i + |a| + 2, b);
  }

  /** The outer opener and the text before the inner group. */
  function Shallow(st: St, a: string): St
  {
    st.(delims := st.delims['{' := 1], isOp := false, isParam := true,
        param := "{" + a, ntex := st.ntex + "{" + a)
  }

  lemma OuterOpens(v: Variant, tex: string, i: nat, st: St, a: string)
    requires !AnyOpen(st.delims) && st.param == "" && Flat(a)
    requires i + 1 + |a| <= |tex| && tex[i] == '{' && tex[i + 1..i + 1 + |a|] == a
    ensures Reaches(v, tex, i, i + 1 + |a|, st, Shallow(st, a))
  {
    var e := st.(delims := st.delims['{' := 1], isOp := false, isParam := true, param := "{", ntex := st.ntex + "{");
    OpenStep(v, st, '{');
    RunOne(v, tex, i, st, e);
    InnerRun(v, tex, i + 1, i + 1 + |a|, e);
    assert e.(param := e.param + a, ntex := e.ntex + a) == Shallow(st, a);
    RunChain(v, tex, i, i + 1, i + 1 + |a|, st, e, Shallow(st, a));
  }

  lemma NestedOpens(v: Variant, tex: string, i: nat, st: St, a: string, b: string)
    requires !AnyOpen(st.delims) && st.param == "" && Flat(a)
    requires Spells(tex, i, Nested(a, b))
    ensures Reaches(v, tex, i, i + |a| + 2, st, Deep(st, a))
  {
    var e1 := Shallow(st, a);
    assert Reaches(v, tex, i, i + 1 + |a|, st, e1) && tex[i + 1 + |a|] == '{' by {
      NestedSlices(tex, i, a, b);
      OuterOpens(v, tex, i, st, a);
    }
    DeepenStep(v, e1, '{');
    assert e1.delims['{' := e1.delims['{'] + 1] == st.delims['{' := 2];
    RunOne(v, tex, i + 1 + |a|, e1, Deep(st, a));
    RunChain(v, tex, i, i + 1 + |a|, i + |a| + 2, st, e1, Deep(st, a));
  }

  /** Inner closer: the counter drops back to one. */
  function Surfaced(st: St, a: string, b: string): St
  {
    st.(delims := st.delims['{' := 1], isOp := false, isParam := true,
        param := "{" + a + "{" + b + "}", ntex := st.ntex + "{" + a + "{" + b + "}")
  }

  /** A closer that leaves its counter open, as one run. */
  lemma ShallowRun(v: Variant, tex: string, j: nat, st: St)
    requires j < |tex| && tex[j] == '}' && '{' in st.delims && st.delims['{'] >= 2 && !st.isOp && st.isParam
    ensures Reaches(v, tex, j, j + 1, st, st.(delims := st.delims['{' := st.delims['{'] - 1],
                                              param := st.param + "}", ntex := st.ntex + "}"))
  {
    ShallowStep(v, st, '}');
  }

  lemma InnerCloses(v: Variant, tex: string, k: nat, st: St, a: string, b: string)
    requires Flat(b) && k + |b| + 1 <= |tex| && tex[k..k + |b|] == b && tex[k + |b|] == '}'
    ensures Reaches(v, tex, k, k + |b| + 1, Deep(st, a), Surfaced(st, a, b))
  {
    var d := Deep(st, a);
    var d1 := d.(param := d.param + b, ntex := d.ntex + b);
    InnerRun(v, tex, k, k + |b|, d);
    ShallowRun(v, tex, k + |b|, d1);
    assert d1.(delims := d1.delims['{' := d1.delims['{'] - 1], param := d1.param + "}", ntex := d1.ntex + "}")
        == Surfaced(st, a, b);
    RunChain(v, tex, k, k + |b|, k + |b| + 1, d, d1, Surfaced(st, a, b));
  }

  /** The closer that ends a parameter, as one run. */
  lemma CloseRun(v: Variant, tex: string, j: nat, st: St)
    requires j < |tex| && IsCloser(tex[j]) && OpenerOf(tex[j]) in st.delims && st.delims[OpenerOf(tex[j])] == 1
    ensures Reaches(v, tex, j, j + 1, st, st.(delims := st.delims[OpenerOf(tex[j]) := 0], params := st.params + [st.param + [tex[j]]],
                                              param := "", ntex := st.ntex + [tex[j]], isParam := false))
  {
    CloseStep(v, st, tex[j]);
  }

  lemma SurfacedCloses(st: St, a: string, b: string)
    ensures var d := Surfaced(st, a, b);
      d.(delims := d.delims['{' := 0], params := d.params + [d.param + "}"], param := "", ntex := d.ntex + "}", isParam := false)
        == AfterGroup(st, Nested(a, b))
  {
    var d := Surfaced(st, a, b);
    assert d.param + "}" == Nested(a, b);
    assert d.ntex + "}" == st.ntex + Nested(a, b);
    assert d.delims['{' := 0] == st.delims['{' := 0];
  }

  lemma NestedCloses(v: Variant, tex: string, i: nat, st: St, a: string, b: string)
    requires Flat(b)
    requires Spells(tex, i, Nested(a, b))
    ensures Reaches(v, tex, i + |a| + 2, i + |Nested(a, b)|, Deep(st, a), AfterGroup(st, Nested(a, b)))
  {
    var j := i + |a| + |b| + 3;
    NestedLength(a, b);
    NestedInner(v, tex, i, st, a, b);
    SurfacedClose(v, tex, j, st, a, b);
    RunChain(v, tex, i + |a| + 2, j, j + 1, Deep(st, a), Surfaced(st, a, b), AfterGroup(st, Nested(a, b)));
  }

  /** The inner group runs from after its opener to the outer closer. */
  lemma NestedInner(v: Variant, tex: string, i: nat, st: St, a: string, b: string)
    requires Flat(b)
    requires Spells(tex, i, Nested(a, b))
    ensures i + |a| + |b| + 3 < |tex| && tex[i + |a| + |b| + 3] == '}'
    ensures Reaches(v, tex, i + |a| + 2, i + |a| + |b| + 3, Deep(st, a), Surfaced(st, a, b))
  {
    var k := i + |a| + 2;
    NestedLength(a, b);
    NestedSlices(tex, i, a, b);
    assert tex[k..k + |b|] == b && tex[k + |b|] == '}';
    InnerCloses(v, tex, k, st, a, b);
  }

  /** The outer closer ends the group. */
  lemma SurfacedClose(v: Variant, tex: string, j: nat, st: St, a: string, b: string)
    requires j < |tex| && tex[j] == '}'
    ensures Reaches(v, tex, j, j + 1, Surfaced(st, a, b), AfterGroup(st, Nested(a, b)))
  {
    var d2 := Surfaced(st, a, b);
    assert d2.delims['{'] == 1;
    CloseRun(v, tex, j, d2);
    SurfacedCloses(st, a, b);
  }

  /** A group holding one inner group of the same kind closes only at its
      own closer: it is one parameter, inner braces included. */
  lemma NestedGroupRun(v: Variant, tex: string, i: nat, st: St, a: string, b: string)
    requires !AnyOpen(st.delims) && st.param == "" && Flat(a) && Flat(b)
    requires Spells(tex, i, Nested(a, b))
    ensures Reaches(v, tex, i, i + |Nested(a, b)|, st, AfterGroup(st, Nested(a, b)))
  {
    var n := Nested(a, b);
    var k := i + |a| + 2;
    var j := i + |n|;
    assert k <= j <= |tex| by {
      NestedLength(a, b);
    }
    NestedOpens(v, tex, i, st, a, b);
    NestedCloses(v, tex, i, st, a, b);
    RunChain(v, tex, i, k, j, st, Deep(st, a), AfterGroup(st, n));
  }

  lemma NestedLength(a: string, b: string)
    ensures |Nested(a, b)| == |a| + |b| + 4
  {
  }

  lemma NestedHeadRun(v: Variant, tex: string, name: string, a: string, b: string, left: int)
    requires forall k :: 0 <= k < |name| ==> NameChar(name[k])
    requires Flat(a) && Flat(b)
    requires Spells(tex, 0, "\\" + name + Nested(a, b))
    ensures Reaches(v, tex, 0, 1 + |name| + |Nested(a, b)|, Start(left), AfterGroup(NameState(name, left), Nested(a, b)))
  {
    var m := 1 + |name|;
    var n := Nested(a, b);
    var ns := NameState(name, left);
    SpellsSplit(tex, 0, "\\" + name, n);
    assert 0 + |"\\" + name| == m;
    NameRead(v, tex, name, left);
    NestedGroupRun(v, tex, m, ns, a, b);
    RunChain(v, tex, 0, m, m + |n|, Start(left), ns, AfterGroup(ns, n));
  }

  /** A name, a group with one inner group, and a flat group: the whole
      source is one command with two parameters. */
  lemma ReadsNestedThenFlat(v: Variant, tex: string, name: string, a: string, b: string, g: string, left: int)
    requires forall k :: 0 <= k < |name| ==> NameChar(name[k])
    requires Flat(a) && Flat(b) && FlatGroup(g)
    requires tex == "\\" + name + Nested(a, b) + g
    ensures Yields(v, tex, 0, Start(left)) == ([Cmd(name, [Nested(a, b), g], Some(tex))], false)
  {
    SpellsItself(tex);
    NestedThenFlatRun(v, tex, name, a, b, g, left);
  }

  lemma NestedThenFlatRun(v: Variant, tex: string, name: string, a: string, b: string, g: string, left: int)
    requires forall k :: 0 <= k < |name| ==> NameChar(name[k])
    requires Flat(a) && Flat(b) && FlatGroup(g)
    requires Spells(tex, 0, "\\" + name + Nested(a, b) + g) && |tex| == |"\\" + name + Nested(a, b) + g|
    ensures Yields(v, tex, 0, Start(left)) == ([Cmd(name, [Nested(a, b), g], Some("\\" + name + Nested(a, b) + g))], false)
  {
    var n := Nested(a, b);
    var h := 1 + |name| + |n|;
    var ns := NameState(name, left);
    var g1 := AfterGroup(ns, n);
    var e := AfterGroup(g1, g);
    NestedThenFlatReaches(v, tex, name, a, b, g, left);
    RunYields(v, tex, 0, |tex|, Start(left), e);
    assert e.params == [n, g];
  }

  /** The name, the nested group and the flat group take the start state to
      the state after both groups. */
  lemma NestedThenFlatReaches(v: Variant, tex: string, name: string, a: string, b: string, g: string, left: int)
    requires forall k :: 0 <= k < |name| ==> NameChar(name[k])
    requires Flat(a) && Flat(b) && FlatGroup(g)
    requires Spells(tex, 0, "\\" + name + Nested(a, b) + g) && |tex| == |"\\" + name + Nested(a, b) + g|
    ensures Reaches(v, tex, 0, |tex|, Start(left), AfterGroup(AfterGroup(NameState(name, left), Nested(a, b)), g))
  {
    var n := Nested(a, b);
    var h := 1 + |name| + |n|;
    var ns := NameState(name, left);
    var g1 := AfterGroup(ns, n);
    SpellsSplit(tex, 0, "\\" + name + n, g);
    assert 0 + |"\\" + name + n| == h;
    NestedHeadRun(v, tex, name, a, b, left);
    AfterGroupCloses(ns, n);
    GroupRunAt(v, tex, h, g1, g);
    assert h + |g| == |tex|;
    RunChain(v, tex, 0, h, |tex|, Start(left), g1, AfterGroup(g1, g));
  }

  /** A parameter whose first character is `{` is braced. */
  lemma OpensBraced(p: string)
    requires p != [] && p[0] == '{'
    ensures Braced(p)
  {
    assert LeadingCount(p, Whitespace) == 0;
    assert LStrip(p, Whitespace) == p;
    assert TrailingCount(p, Whitespace) < |p|;
    assert Strip(p, Whitespace)[0] == '{';
  }

  // ---------------------------------------------------------------------
  // The documented examples
  // ---------------------------------------------------------------------

  /** `fromLatex('\\hoho haha')` is `\\hoho`. */
  lemma HohoHaha(v: Variant)
    ensures FromLatexOf(v, "\\hoho haha") == Cmd("hoho", [], Some("\\hoho"))
  {
    var tex := "\\hoho haha";
    assert Concat([]) == "";
    assert Render(Cmd("hoho", [], None)) == "\\hoho";
    assert tex[..5] == "\\hoho";
    ReadsNameAndGroups(v, tex, "hoho", [], 1);
  }

  lemma HohoPieces()
    ensures FlatGroup("{haha}") && FlatGroup("[hehe]")
    ensures Render(Cmd("hoho", ["{haha}", "[hehe]"], None)) == "\\hoho{haha}[hehe]"
  {
    var ps := ["{haha}", "[hehe]"];
    assert Concat(ps) == "{haha}[hehe]" by {
      assert Concat(ps[1..]) == "[hehe]" by { assert ps[1..][1..] == []; }
    }
    assert "{haha}"[1..5] == "haha";
    assert "[hehe]"[1..5] == "hehe";
  }

  /** `fromLatex('\\hoho{haha}[hehe] huehue')` stops at the space after the groups. */
  lemma HohoGroups(v: Variant)
    ensures FromLatexOf(v, "\\hoho{haha}[hehe] huehue") == Cmd("hoho", ["{haha}", "[hehe]"], Some("\\hoho{haha}[hehe]"))
  {
    var tex := "\\hoho{haha}[hehe] huehue";
    var ps := ["{haha}", "[hehe]"];
    HohoPieces();
    assert tex[..17] == "\\hoho{haha}[hehe]";
    assert forall k :: 0 <= k < |ps| ==> FlatGroup(ps[k]);
    ReadsNameAndGroups(v, tex, "hoho", ps, 1);
  }

  lemma HohoHahaHead(v: Variant)
    ensures Yields(v, "\\hoho haha", 0, Start(-1)) == Yields(v, "\\hoho haha", 5, NameState("hoho", -1))
  {
    var tex := "\\hoho haha";
    assert Spells(tex, 0, "\\" + "hoho") by {
      assert tex[0..0 + 5] == "\\" + "hoho";
      SliceSpells(tex, 0, "\\" + "hoho");
    }
    NameRead(v, tex, "hoho", -1);
    RunYields(v, tex, 0, 5, Start(-1), NameState("hoho", -1));
  }

  lemma HohoHahaTail(v: Variant)
    ensures Yields(v, "\\hoho haha", 5, NameState("hoho", -1)) == ([Cmd("hoho", [], Some("\\hoho")), Cmd("", [], Some("haha"))], false)
  {
    var tex := "\\hoho haha";
    var ns := NameState("hoho", -1);
    var r := Reset(' ', false, -2);
    HohoSpace(v, tex);
    assert Yields(v, tex, 5, ns) == ([Emit(ns)] + Yields(v, tex, 6, r).0, Yields(v, tex, 6, r).1);
    HahaWord(tex);
    WordYields(v, tex, 6, r);
    HohoHahaCmds(ns, r.(ntex := r.ntex + tex[6..]));
  }

  lemma HohoSpace(v: Variant, tex: string)
    requires tex == "\\hoho haha"
    ensures 5 < |tex| && Step(v, NameState("hoho", -1), tex[5]) == Yield(Emit(NameState("hoho", -1)), Reset(' ', false, -2))
  {
    assert tex[5] == ' ';
  }

  lemma HahaWord(tex: string)
    requires tex == "\\hoho haha"
    ensures tex[6..] == "haha" && forall k :: 6 <= k < |tex| ==> NameChar(tex[k])
  {
  }

  lemma HohoHahaCmds(ns: St, w: St)
    requires ns == NameState("hoho", -1) && w.ntex == "haha" && w.operator == "" && w.params == []
    ensures [Emit(ns)] + [Emit(w)] == [Cmd("hoho", [], Some("\\hoho")), Cmd("", [], Some("haha"))]
  {
    assert "\\" + "hoho" == "\\hoho";
  }

  /** `fromLatexIter('\\hoho haha')` yields `\\hoho` and then `haha`. */
  lemma HohoHahaIter(v: Variant)
    ensures IterOf(v, "\\hoho haha", -1) == ([Cmd("hoho", [], Some("\\hoho")), Cmd("", [], Some("haha"))], false)
  {
    HohoHahaHead(v);
    HohoHahaTail(v);
  }

  /** `name, string = fromLatex('\\textbf{Hello}')` gives `textbf` and `Hello`. */
  lemma TextbfHello(v: Variant)
    ensures FromLatexOf(v, "\\textbf{Hello}").operator == "textbf"
    ensures Iter(FromLatexOf(v, "\\textbf{Hello}")) == ("textbf", Some("Hello"))
  {
    var tex := "\\textbf{Hello}";
    var ps := ["{Hello}"];
    TextbfPieces();
    HelloGroup();
    assert tex[..|tex|] == tex;
    assert forall k :: 0 <= k < |ps| ==> FlatGroup(ps[k]);
    ReadsNameAndGroups(v, tex, "textbf", ps, 1);
    OpensBraced(ps[0]);
  }

  lemma ConcatOne(x: string)
    ensures Concat([x]) == x
  {
    assert [x][1..] == [];
  }

  lemma ConcatTwo(x: string, y: string)
    ensures Concat([x, y]) == x + y
  {
    assert [x, y][1..] == [y];
    ConcatOne(y);
  }

  lemma TextbfPieces()
    ensures Render(Cmd("textbf", ["{Hello}"], None)) == "\\textbf{Hello}"
  {
    ConcatOne("{Hello}");
  }

  lemma HelloGroup()
    ensures FlatGroup("{Hello}") && PySlice("{Hello}", Some(1), Some(-1)) == "Hello"
  {
    assert "{Hello}" == ['{'] + "Hello" + ['}'];
    WrappedGroup('{', "Hello", '}');
  }

  /** A flat body between matching delimiters is a flat group, and
      `[1:-1]` gives the body back. */
  lemma WrappedGroup(o: char, body: string, c: char)
    requires IsOpener(o) && IsCloser(c) && OpenerOf(c) == o && Flat(body)
    ensures FlatGroup([o] + body + [c]) && PySlice([o] + body + [c], Some(1), Some(-1)) == body
  {
    var p := [o] + body + [c];
    assert p[1..|p| - 1] == body;
  }

  lemma ItemGroups()
    ensures FlatGroup("[2.]") && FlatGroup("{hello there}")
  {
    assert "[2.]" == ['['] + "2." + [']'];
    WrappedGroup('[', "2.", ']');
    assert "{hello there}" == ['{'] + "hello there" + ['}'];
    WrappedGroup('{', "hello there", '}');
  }

  lemma ItemPieces()
    ensures Render(Cmd("item", ["[2.]", "{hello there}"], None)) == "\\item[2.]{hello there}"
  {
    ConcatTwo("[2.]", "{hello there}");
  }

  /** `fromLatex('\\item[2.]{hello there}')` has both parameters, and with
      its raw text cleared it prints the same source. */
  lemma ItemHelloThere(v: Variant)
    ensures FromLatexOf(v, "\\item[2.]{hello there}").operator == "item"
    ensures FromLatexOf(v, "\\item[2.]{hello there}").params == ["[2.]", "{hello there}"]
    ensures Render(FromLatexOf(v, "\\item[2.]{hello there}").(tex := None)) == "\\item[2.]{hello there}"
  {
    var tex := "\\item[2.]{hello there}";
    var ps := ["[2.]", "{hello there}"];
    ItemPieces();
    ItemGroups();
    assert tex[..|tex|] == tex;
    assert forall k :: 0 <= k < |ps| ==> FlatGroup(ps[k]);
    ReadsNameAndGroups(v, tex, "item", ps, 1);
  }

  lemma AnswerText()
    ensures Nested("You \\textbf", "so?") == "{You \\textbf{so?}}"
    ensures "\\answer{You \\textbf{so?}}{Grrr.}" == "\\answer" + "{You \\textbf{so?}}" + "{Grrr.}"
  {
  }

  lemma AnswerFlat()
    ensures Flat("You \\textbf") && Flat("so?") && FlatGroup("{Grrr.}")
    ensures forall k :: 0 <= k < |"answer"| ==> NameChar("answer"[k])
  {
    assert "{Grrr.}" == ['{'] + "Grrr." + ['}'];
    WrappedGroup('{', "Grrr.", '}');
  }

  /** A parameter keeps its inner braces. */
  lemma AnswerNested(v: Variant)
    ensures FromLatexOf(v, "\\answer{You \\textbf{so?}}{Grrr.}").operator == "answer"
    ensures FromLatexOf(v, "\\answer{You \\textbf{so?}}{Grrr.}").params == ["{You \\textbf{so?}}", "{Grrr.}"]
    ensures Render(FromLatexOf(v, "\\answer{You \\textbf{so?}}{Grrr.}")) == "\\answer{You \\textbf{so?}}{Grrr.}"
  {
    AnswerText();
    AnswerFlat();
    ReadsNestedThenFlat(v, "\\answer{You \\textbf{so?}}{Grrr.}", "answer", "You \\textbf", "so?", "{Grrr.}", 1);
  }

  // ---------------------------------------------------------------------
  // A backslash right after a parameter
  // ---------------------------------------------------------------------

  /** `\a{x}` read, the generator stands at the second backslash. */
  lemma TwoCommandsHead(v: Variant)
    ensures Yields(v, "\\a{x}\\b{y}", 0, Start(-1)) == Yields(v, "\\a{x}\\b{y}", 5, AfterGroup(NameState("a", -1), "{x}"))
  {
    var tex := "\\a{x}\\b{y}";
    var ps := ["{x}"];
    assert Concat(ps) == "{x}" by { assert ps[1..] == []; }
    assert FlatGroup(ps[0]) by { assert ps[0][1..2] == "x"; }
    assert AllFlat(ps) by { assert ps[1..] == []; }
    assert Render(Cmd("a", ps, None)) == "\\a{x}";
    assert Spells(tex, 0, "\\a{x}") by {
      assert tex[0..0 + 5] == "\\a{x}";
      SliceSpells(tex, 0, "\\a{x}");
    }
    HeadRun(v, tex, "a", ps, -1);
    assert AfterGroups(NameState("a", -1), ps) == AfterGroup(NameState("a", -1), "{x}") by {
      assert ps[1..] == [];
    }
    RunYields(v, tex, 0, 5, Start(-1), AfterGroup(NameState("a", -1), "{x}"));
  }

  /** The second backslash yields `\a{x}` and starts afresh; whether the
      fresh state is inside a name depends on the variant. */
  lemma TwoCommandsTurn(v: Variant)
    ensures Yields(v, "\\a{x}\\b{y}", 5, AfterGroup(NameState("a", -1), "{x}"))
         == ([Cmd("a", ["{x}"], Some("\\a{x}"))] + Yields(v, "\\a{x}\\b{y}", 6, Reset('\\', v == Corrected, -1)).0,
             Yields(v, "\\a{x}\\b{y}", 6, Reset('\\', v == Corrected, -1)).1)
  {
    var tex := "\\a{x}\\b{y}";
    var a := AfterGroup(NameState("a", -1), "{x}");
    assert FlatGroup("{x}") by { assert "{x}"[1..2] == "x"; }
    assert a.ntex == "\\a{x}";
    assert !AnyOpen(a.delims);
    assert a.params == ["{x}"];
    assert Emit(a) == Cmd("a", ["{x}"], Some("\\a{x}"));
    assert Step(v, a, tex[5]) == Yield(Emit(a), Reset('\\', v == Corrected, -1));
  }

  lemma TwoCommandsSecond(v: Variant)
    ensures Yields(v, "\\a{x}\\b{y}", 6, Reset('\\', v == Corrected, -1)) ==
      ([Cmd(if v == Corrected then "b" else "", ["{y}"], Some("\\b{y}"))], false)
  {
    var tex := "\\a{x}\\b{y}";
    var r := Reset('\\', v == Corrected, -1);
    var s := SecondNamed(v);
    SecondNameRun(v);
    SecondGroupRun(v);
    RunChain(v, tex, 6, 7, 10, r, s, AfterGroup(s, "{y}"));
    RunYields(v, tex, 6, 10, r, AfterGroup(s, "{y}"));
  }

  /** The state after `\b`: the name is collected only when corrected. */
  function SecondNamed(v: Variant): St
  {
    Reset('\\', v == Corrected, -1).(operator := if v == Corrected then "b" else "", ntex := "\\b")
  }

  lemma SecondNameRun(v: Variant)
    ensures Reaches(v, "\\a{x}\\b{y}", 6, 7, Reset('\\', v == Corrected, -1), SecondNamed(v))
  {
    var tex := "\\a{x}\\b{y}";
    var r := Reset('\\', v == Corrected, -1);
    assert tex[6..7] == "b";
    assert r.ntex + tex[6..7] == "\\b";
    if v == Corrected {
      NameRun(v, tex, 6, 7, r);
      assert r.operator + tex[6..7] == "b";
    } else {
      PlainRun(v, tex, 6, 7, r);
    }
  }

  lemma SecondGroupRun(v: Variant)
    ensures Reaches(v, "\\a{x}\\b{y}", 7, 10, SecondNamed(v), AfterGroup(SecondNamed(v), "{y}"))
    ensures AfterGroup(SecondNamed(v), "{y}").params == ["{y}"]
    ensures AfterGroup(SecondNamed(v), "{y}").ntex == "\\b{y}"
  {
    var tex := "\\a{x}\\b{y}";
    assert "{y}" == ['{'] + "y" + ['}'];
    WrappedGroup('{', "y", '}');
    assert tex[7..10] == "{y}";
    GroupRun(v, tex, 7, SecondNamed(v), "{y}");
  }

  lemma TwoCommands(v: Variant)
    ensures IterOf(v, "\\a{x}\\b{y}", -1) ==
      ([Cmd("a", ["{x}"], Some("\\a{x}")), Cmd(if v == Corrected then "b" else "", ["{y}"], Some("\\b{y}"))], false)
  {
    TwoCommandsHead(v);
    TwoCommandsTurn(v);
    TwoCommandsSecond(v);
    var c1 := Cmd("a", ["{x}"], Some("\\a{x}"));
    var c2 := Cmd(if v == Corrected then "b" else "", ["{y}"], Some("\\b{y}"));
    assert [c1] + [c2] == [c1, c2];
  }

  /** As written, the command after `\\a{x}` loses its operator: the reset
      after the yield clears the flag that the backslash had just set. */
  lemma AsWrittenLosesOperator()
    ensures IterOf(AsWritten, "\\a{x}\\b{y}", -1).0 == [Cmd("a", ["{x}"], Some("\\a{x}")), Cmd("", ["{y}"], Some("\\b{y}"))]
  {
    TwoCommands(AsWritten);
  }

  /** Corrected, for every source: at a backslash that ends a command with
      parameters, the command is yielded and the reset keeps the flag set, so
      the name that follows the backslash becomes the next operator. */
  lemma CorrectedNamesNextCommand(tex: string, i: nat, st: St, name: string)
    requires i + 1 + |name| <= |tex| && tex[i] == '\\'
    requires forall k :: 0 <= k < |name| ==> NameChar(name[k]) && tex[i + 1 + k] == name[k]
    requires !AnyOpen(st.delims) && !st.isOp && st.params != []
    ensures Step(Corrected, st, tex[i]) == Yield(Emit(st), NameState("", st.left))
    ensures Reaches(Corrected, tex, i + 1, i + 1 + |name|, NameState("", st.left), NameState(name, st.left))
  {
    var j := i + 1 + |name|;
    var s0 := NameState("", st.left);
    assert tex[i + 1..j] == name;
    forall k | i + 1 <= k < j
      ensures NameChar(tex[k])
    {
      assert tex[k] == name[k - (i + 1)];
    }
    NameRun(Corrected, tex, i + 1, j, s0);
    assert s0.(operator := s0.operator + tex[i + 1..j], ntex := s0.ntex + tex[i + 1..j]) == NameState(name, st.left);
  }

  /** Keeping the flag set, the second command is `b` with its parameter. */
  lemma CorrectedKeepsOperator()
    ensures IterOf(Corrected, "\\a{x}\\b{y}", -1).0 == [Cmd("a", ["{x}"], Some("\\a{x}")), Cmd("b", ["{y}"], Some("\\b{y}"))]
  {
    TwoCommands(Corrected);
  }
}
