/**
 * The two pieces of the first version's `TexNode` (v1/texSoup.py) that
 * work on values: `stripCommand`, which removes a command from a source
 * (for `\begin`, also its last `\end`), and `expandDescendants`, which
 * lists every node below a list of branches.
 */
module V1Nodes {

  import opened Wrappers
  import opened Strings
  import RReplace
  import opened V1Commands

  // ---------------------------------------------------------------------
  // stripCommand
  // ---------------------------------------------------------------------

  /** `cmd.params[0]` on a command without parameters. */
  datatype StripError = IndexError

  /** The `\end` that matches a `\begin` whose first parameter is `p`:
      `str(cmd.update(operator='end', params=p))`. Joining the one string
      `p` gives `p` itself, as joining the list `[p]` does. */
  function EndOf(p: string): (r: string)
    ensures r != "" && r[0] == '\\'
  {
    Render(Cmd("end", [p], None))
  }

  /** `tex.replace(str(cmd), '', 1)` followed, for a `\begin`, by
      `rreplace(stripped, <its \end>, '', 1)`. */
  function StripCommandOf(tex: string, c: Cmd): Result<string, StripError>
  {
    var stripped := ReplaceFirst(tex, Render(c), "");
    if c.operator != "begin" then Ok(stripped)
    else if c.params == [] then Failure(IndexError)
    else
      var r := RReplace.RReplace(stripped, EndOf(c.params[0]), "", RReplace.Count(1));
      assert r.Ok?;
      Ok(r.value)
  }

  /** The string without the piece `pat` at `k`. */
  function Without(s: string, pat: string, k: nat): string
    requires k + |pat| <= |s|
  {
    s[..k] + s[k + |pat|..]
  }

  /** Removing a command that occurs takes out its first occurrence, and
      putting it back there restores the source; a command that does not
      occur, or prints as nothing, leaves the source as it is. */
  lemma StripRemovesFirst(tex: string, c: Cmd)
    requires c.operator != "begin"
    ensures StripCommandOf(tex, c).Ok?
    ensures var pat, r := Render(c), StripCommandOf(tex, c).value;
      (pat == "" || forall k :: !OccursAt(tex, pat, k)) ==> r == tex
    ensures var pat, r := Render(c), StripCommandOf(tex, c).value;
      forall k :: OccursAt(tex, pat, k) && (forall j :: 0 <= j < k ==> !OccursAt(tex, pat, j)) ==>
        r == Without(tex, pat, k) && tex == r[..k] + pat + r[k..]
  {
    FirstRemoval(tex, Render(c));
  }

  /** What `replace(pat, '', 1)` does, in terms of where `pat` occurs. */
  lemma FirstRemoval(tex: string, pat: string)
    ensures pat == "" || (forall k :: !OccursAt(tex, pat, k)) ==> ReplaceFirst(tex, pat, "") == tex
    ensures forall k :: OccursAt(tex, pat, k) && (forall j :: 0 <= j < k ==> !OccursAt(tex, pat, j)) ==>
        ReplaceFirst(tex, pat, "") == Without(tex, pat, k)
        && tex == Without(tex, pat, k)[..k] + pat + Without(tex, pat, k)[k..]
  {
    if pat == "" {
      assert "" + tex == tex;
    }
    forall k | OccursAt(tex, pat, k) && (forall j :: 0 <= j < k ==> !OccursAt(tex, pat, j))
      ensures ReplaceFirst(tex, pat, "") == Without(tex, pat, k)
      ensures tex == Without(tex, pat, k)[..k] + pat + Without(tex, pat, k)[k..]
    {
      var w := Without(tex, pat, k);
      if pat == "" {
        assert OccursAt(tex, pat, 0);
        assert k == 0 && w == tex;
      } else {
        var f := Find(tex, pat, 0);
        assert f == k;
        assert tex[..k] + "" + tex[k + |pat|..] == w;
      }
      assert w[..k] == tex[..k];
      assert w[k..] == tex[k + |pat|..];
      assert tex[k..k + |pat|] == pat;
      assert tex == tex[..k] + tex[k..k + |pat|] + tex[k + |pat|..];
    }
  }

  /** For a `\begin` with a first parameter, the last occurrence of its
      `\end` is removed from what the first removal left, and nothing else
      changes; without parameters the lookup of the first one fails. */
  lemma StripBegin(tex: string, c: Cmd)
    requires c.operator == "begin"
    ensures c.params == [] <==> StripCommandOf(tex, c) == Failure(IndexError)
    ensures c.params != [] ==>
      var s, e := ReplaceFirst(tex, Render(c), ""), EndOf(c.params[0]);
      var k := RFind(s, e);
      StripCommandOf(tex, c) == Ok(if k == -1 then s else Without(s, e, k))
  {
    if c.params != [] {
      var s, e := ReplaceFirst(tex, Render(c), ""), EndOf(c.params[0]);
      var k := RFind(s, e);
      if k == -1 {
        assert Find(s, e, 0) == -1;
        RReplace.AbsentUnchanged(s, e, "", RReplace.Count(1));
      } else {
        RReplace.ReplaceLastOnce(s, e, "");
        assert s[..k] + "" + s[k + |e|..] == Without(s, e, k);
      }
    }
  }

  /** `stripCommand(tex, cmd)`. For a `\begin` with a parameter the caller's
      command is left updated to its `\end`, as `update` does it in place. */
  method StripCommand(tex: string, cmd: Command) returns (r: Result<string, StripError>)
    modifies cmd
    ensures r == StripCommandOf(tex, old(cmd.Value()))
    ensures old(cmd.operator) == "begin" && old(cmd.params) != [] ==>
      cmd.Value() == Cmd("end", [old(cmd.params[0])], None)
    ensures !(old(cmd.operator) == "begin" && old(cmd.params) != []) ==> cmd.Value() == old(cmd.Value())
  {
    var c := cmd.Value();
    var stripped := ReplaceFirst(tex, Render(c), "");
    if cmd.operator == "begin" {
      if cmd.params == [] {
        return Failure(IndexError);
      }
      var p := cmd.params[0];
      var ended := cmd.Update(Some("end"), Some([p]));
      assert ended.Value() == Cmd("end", [p], None);
      var e := RReplace.RReplace(stripped, Render(ended.Value()), "", RReplace.Count(1));
      assert e.Ok?;
      r := Ok(e.value);
    } else {
      r := Ok(stripped);
    }
  }

  /** A source that starts with the pattern loses exactly that prefix. */
  lemma FrontRemoval(tex: string, pat: string)
    requires StartsWith(tex, pat)
    ensures ReplaceFirst(tex, pat, "") == tex[|pat|..]
  {
    if pat == "" {
      assert "" + tex == tex[0..];
    } else {
      assert tex[0..|pat|] == pat;
      assert Find(tex, pat, 0) == 0;
      assert tex[..0] + "" + tex[|pat|..] == tex[|pat|..];
    }
  }

  /** A source that ends with the pattern has its last occurrence there. */
  lemma BackRemoval(s: string, pat: string)
    requires pat != "" && EndsWith(s, pat)
    ensures RFind(s, pat) == |s| - |pat| && Without(s, pat, |s| - |pat|) == s[..|s| - |pat|]
  {
    assert s[|s| - |pat|..|s| - |pat| + |pat|] == s[|s| - |pat|..];
    assert s[|s| - |pat|..] == s[|s| - |pat|..][..|pat|];
  }

  lemma SectionRead(v: Variant)
    ensures FromLatexOf(v, "\\section{b}") == Cmd("section", ["{b}"], Some("\\section{b}"))
  {
    var ps := ["{b}"];
    assert Concat(ps) == "{b}" by { assert ps[1..] == []; }
    assert FlatGroup(ps[0]) by { assert ps[0][1..2] == "b"; }
    assert Render(Cmd("section", ps, None)) == "\\section{b}";
    assert "\\section{b}"[..11] == "\\section{b}";
    ReadsNameAndGroups(v, "\\section{b}", "section", ps, 1);
  }

  /** `stripCommand('\\section{b}\\item y', fromLatex('\\section{b}'))` is `'\\item y'`. */
  lemma StripSection(v: Variant)
    ensures StripCommandOf("\\section{b}\\item y", FromLatexOf(v, "\\section{b}")) == Ok("\\item y")
  {
    SectionRead(v);
    var tex, pat := "\\section{b}" + "\\item y", "\\section{b}";
    assert tex[..|pat|] == pat;
    FrontRemoval(tex, pat);
    assert tex[|pat|..] == "\\item y";
    assert tex == "\\section{b}\\item y";
  }

  lemma BeginRead(v: Variant)
    ensures FromLatexOf(v, "\\begin{b}") == Cmd("begin", ["{b}"], Some("\\begin{b}"))
  {
    var ps := ["{b}"];
    assert Concat(ps) == "{b}" by { assert ps[1..] == []; }
    assert FlatGroup(ps[0]) by { assert ps[0][1..2] == "b"; }
    assert Render(Cmd("begin", ps, None)) == "\\begin{b}";
    assert "\\begin{b}"[..9] == "\\begin{b}";
    ReadsNameAndGroups(v, "\\begin{b}", "begin", ps, 1);
  }

  /** A `\\begin` at the front and its `\\end` at the back both go. */
  lemma StripAround(tex: string, c: Cmd, inner: string)
    requires c.operator == "begin" && c.params != []
    requires tex == Render(c) + inner + EndOf(c.params[0])
    ensures StripCommandOf(tex, c) == Ok(inner)
  {
    var e := EndOf(c.params[0]);
    var s := inner + e;
    assert tex == Render(c) + s;
    assert tex[..|Render(c)|] == Render(c);
    FrontRemoval(tex, Render(c));
    assert tex[|Render(c)|..] == s;
    assert s[|s| - |e|..] == e;
    BackRemoval(s, e);
    assert s[..|s| - |e|] == inner;
    StripBegin(tex, c);
  }

  lemma BeginPieces()
    ensures EndOf("{b}") == "\\end{b}"
    ensures "\\begin{b}\\begin{b}\\item y\\end{b}\\end{b}" == "\\begin{b}" + "\\begin{b}\\item y\\end{b}" + "\\end{b}"
  {
    assert Concat(["{b}"]) == "{b}";
  }

  /** The outer `\\begin{b}` and the last `\\end{b}` go; the inner pair stays. */
  lemma StripBeginExample(v: Variant)
    ensures StripCommandOf("\\begin{b}\\begin{b}\\item y\\end{b}\\end{b}", FromLatexOf(v, "\\begin{b}"))
         == Ok("\\begin{b}\\item y\\end{b}")
  {
    BeginRead(v);
    var c := Cmd("begin", ["{b}"], Some("\\begin{b}"));
    BeginPieces();
    StripAround("\\begin{b}\\begin{b}\\item y\\end{b}\\end{b}", c, "\\begin{b}\\item y\\end{b}");
  }

  // ---------------------------------------------------------------------
  // expandDescendants
  // ---------------------------------------------------------------------

  /** A node of the first version's tree: its command and its branches. */
  datatype Node = Node(command: Cmd, branches: seq<Node>)

  /** `self.descendants`, as `__init__` sets it. */
  function Descendants(n: Node): seq<Node>
    decreases n, 1
  {
    ExpandDescendants(n.branches)
  }

  /** `sum([b.descendants for b in branches], []) + branches`. */
  function ExpandDescendants(bs: seq<Node>): (r: seq<Node>)
    decreases bs, 2
    ensures |r| >= |bs| && r[|r| - |bs|..] == bs
  {
    Gathered(bs) + bs
  }

  /** `sum([b.descendants for b in bs], [])`. */
  function Gathered(bs: seq<Node>): seq<Node>
    decreases bs, 0
  {
    if bs == [] then [] else Descendants(bs[0]) + Gathered(bs[1..])
  }

  /** `x` is a branch of some node in `bs`, at any depth, or in `bs` itself. */
  predicate Below(x: Node, bs: seq<Node>)
    decreases bs
  {
    exists k :: 0 <= k < |bs| && (x == bs[k] || Below(x, bs[k].branches))
  }

  /** The expansion lists exactly the nodes at or below the branches. */
  lemma {:induction false} ExpandIsBelow(x: Node, bs: seq<Node>)
    ensures x in ExpandDescendants(bs) <==> Below(x, bs)
    decreases bs, 1
  {
    GatheredIsBelow(x, bs);
  }

  lemma {:induction false} GatheredIsBelow(x: Node, bs: seq<Node>)
    ensures x in Gathered(bs) <==> exists k :: 0 <= k < |bs| && Below(x, bs[k].branches)
    decreases bs, 0
  {
    if bs != [] {
      ExpandIsBelow(x, bs[0].branches);
      GatheredIsBelow(x, bs[1..]);
      assert forall k :: 1 <= k < |bs| ==> bs[k] == bs[1..][k - 1];
      if exists k :: 0 <= k < |bs| && Below(x, bs[k].branches) {
        var k :| 0 <= k < |bs| && Below(x, bs[k].branches);
        if k > 0 {
          assert Below(x, bs[1..][k - 1].branches);
        }
      }
      if exists k :: 0 <= k < |bs[1..]| && Below(x, bs[1..][k].branches) {
        var k :| 0 <= k < |bs[1..]| && Below(x, bs[1..][k].branches);
        assert Below(x, bs[k + 1].branches);
      }
    }
  }

  /** Number of nodes strictly below the branches' owner. */
  function Size(bs: seq<Node>): nat
    decreases bs
  {
    if bs == [] then 0 else 1 + Size(bs[0].branches) + Size(bs[1..])
  }

  /** Every node below appears once per position it has in the tree. */
  lemma {:induction false} ExpandLength(bs: seq<Node>)
    ensures |ExpandDescendants(bs)| == Size(bs)
    decreases bs, 1
  {
    GatheredLength(bs);
  }

  lemma {:induction false} GatheredLength(bs: seq<Node>)
    ensures |Gathered(bs)| + |bs| == Size(bs)
    decreases bs, 0
  {
    if bs != [] {
      ExpandLength(bs[0].branches);
      GatheredLength(bs[1..]);
    }
  }
}
