/**
 * TeX category codes (TexSoup/category.py): every character of a source
 * text is given the category of the first entry of a fixed table whose
 * values contain it, and `Other` when none does.
 */
module Categories {

  import opened Wrappers

  /** The sixteen category codes, in the order of the table. */
  datatype Category =
    | Command | GroupStart | GroupEnd | MathSwitch | Alignment | EndOfLine
    | Macro | Superscript | Subscript | Ignored | Spacer | Letter | Other
    | Active | Comment | Invalid

  /** A table value is either a string, tested with Python's substring `in`,
      or a tuple of strings, tested by membership. */
  datatype Values = Str(s: string) | Tuple(items: seq<string>)

  predicate Contains(v: Values, c: char)
  {
    match v
    case Str(s) => c in s
    case Tuple(items) => [c] in items
  }

  /** An ASCII letter: a character of `string.ascii_letters`. */
  predicate IsAsciiLetter(c: char)
  {
    'a' <= c <= 'z' || 'A' <= c <= 'Z'
  }

  /** `tuple(string.ascii_letters)`: the lower-case letters, then the
      upper-case ones, each as a one-character string. */
  function Letters(): (r: seq<string>)
    ensures |r| == 52
    ensures forall k :: 0 <= k < 26 ==> r[k] == [(('a' as int) + k) as char]
    ensures forall k :: 26 <= k < 52 ==> r[k] == [(('A' as int) + k - 26) as char]
  {
    seq(52, k requires 0 <= k < 52 =>
      if k < 26 then [(('a' as int) + k) as char] else [(('A' as int) + k - 26) as char])
  }

  /** `CATEGORY_CODES`, in dictionary (insertion) order. */
  function Table(): (t: seq<(Category, Values)>)
    ensures |t| == 16
  {
    [ (Command, Str("\\")),
      (GroupStart, Str("{")),
      (GroupEnd, Str("}")),
      (MathSwitch, Tuple(["$$", "$"])),
      (Alignment, Str("&")),
      (EndOfLine, Tuple(["\n", "\r"])),
      (Macro, Str("#")),
      (Superscript, Str("^")),
      (Subscript, Str("_")),
      (Ignored, Str("\U{0000}")),
      (Spacer, Tuple([" ", "\t"])),
      (Letter, Tuple(Letters())),
      (Other, Tuple([])),
      (Active, Str("~")),
      (Comment, Str("%")),
      (Invalid, Str("\U{007F}")) ]
  }

  /** Index of the first entry from `from` on whose values contain `c`. */
  function FirstEntry(t: seq<(Category, Values)>, c: char, from: nat): (r: Option<nat>)
    ensures r.Some? ==> from <= r.value < |t| && Contains(t[r.value].1, c)
    ensures r.Some? ==> forall k :: from <= k < r.value ==> !Contains(t[k].1, c)
    ensures r.None? ==> forall k :: from <= k < |t| ==> !Contains(t[k].1, c)
    decreases |t| - from
  {
    if from >= |t| then None
    else if Contains(t[from].1, c) then Some(from)
    else FirstEntry(t, c, from + 1)
  }

  /** The category `categorize` gives one character. */
  function CategoryOf(c: char): Category
  {
    var k := FirstEntry(Table(), c, 0);
    if k.Some? then Table()[k.value].0 else Other
  }

  /** A categorised character: its text, its offset and its category. */
  datatype CatToken = CatToken(text: string, position: nat, category: Category)

  /** `categorize(text)`: one token per character, in order. */
  function Categorize(s: string): (r: seq<CatToken>)
    ensures |r| == |s|
    ensures forall k :: 0 <= k < |s| ==> r[k] == CatToken([s[k]], k, CategoryOf(s[k]))
  {
    seq(|s|, k requires 0 <= k < |s| => CatToken([s[k]], k, CategoryOf(s[k])))
  }

  /** The letter entry holds exactly the ASCII letters. */
  lemma LetterEntry(c: char)
    ensures Contains(Tuple(Letters()), c) <==> IsAsciiLetter(c)
  {
    var r := Letters();
    if 'a' <= c <= 'z' {
      assert r[c as int - 'a' as int] == [c];
    } else if 'A' <= c <= 'Z' {
      assert r[c as int - 'A' as int + 26] == [c];
    }
  }

  /** An entry that contains `c`, with no earlier entry containing it, gives
      `c` its category. */
  lemma {:induction false} CategoryAt(c: char, k: nat)
    requires k < 16 && Contains(Table()[k].1, c)
    requires forall j :: 0 <= j < k ==> !Contains(Table()[j].1, c)
    ensures CategoryOf(c) == Table()[k].0
  {
    var r := FirstEntry(Table(), c, 0);
    assert r.Some?;
    assert r.value == k;
  }

  /** The category of a character is that of the first table entry containing
      it, and `Other` exactly when no entry does. */
  lemma FirstMatchWins(c: char)
    ensures CategoryOf(c) != Other ==>
      exists k :: 0 <= k < 16 && Contains(Table()[k].1, c) && CategoryOf(c) == Table()[k].0
        && forall j :: 0 <= j < k ==> !Contains(Table()[j].1, c)
    ensures (forall k :: 0 <= k < 16 ==> !Contains(Table()[k].1, c)) ==> CategoryOf(c) == Other
  {
  }

  /** The `Other` entry holds nothing, so `Other` is only ever the fallback. */
  lemma OtherIsFallback(c: char)
    ensures CategoryOf(c) == Other <==> FirstEntry(Table(), c, 0).None?
  {
    var k := FirstEntry(Table(), c, 0);
    if k.Some? {
      assert Table()[12].1 == Tuple([]);
      assert k.value != 12;
    }
  }

  /** The categories the table gives the characters the tokenizer cares about. */
  lemma EscapeIsCommand(c: char)
    requires c == '\\'
    ensures CategoryOf(c) == Command
  {
    CategoryAt(c, 0);
  }

  lemma BracesAreGroups(c: char)
    requires c == '{' || c == '}'
    ensures c == '{' ==> CategoryOf(c) == GroupStart
    ensures c == '}' ==> CategoryOf(c) == GroupEnd
  {
    if c == '{' {
      CategoryAt(c, 1);
    } else {
      CategoryAt(c, 2);
    }
  }

  lemma DollarIsMathSwitch(c: char)
    requires c == '$'
    ensures CategoryOf(c) == MathSwitch
  {
    CategoryAt(c, 3);
  }

  lemma LineEndsAreEndOfLine(c: char)
    requires c == '\n' || c == '\r'
    ensures CategoryOf(c) == EndOfLine
  {
    CategoryAt(c, 5);
  }

  lemma BlanksAreSpacers(c: char)
    requires c == ' ' || c == '\t'
    ensures CategoryOf(c) == Spacer
  {
    CategoryAt(c, 10);
  }

  lemma PercentIsComment(c: char)
    requires c == '%'
    ensures CategoryOf(c) == Comment
  {
    LetterEntry(c);
    CategoryAt(c, 14);
  }

  /** Every ASCII letter is a `Letter`. */
  lemma AsciiLettersAreLetters(c: char)
    requires IsAsciiLetter(c)
    ensures CategoryOf(c) == Letter
  {
    LetterEntry(c);
    CategoryAt(c, 11);
  }

  /** The example of `categorize`'s documentation: `\textbf{`. */
  lemma TextbfExample(s: string)
    requires s == "\\textbf{"
    ensures |Categorize(s)| == 8
    ensures Categorize(s)[0].category == Command
    ensures forall k :: 1 <= k < 7 ==> Categorize(s)[k].category == Letter
    ensures Categorize(s)[7] == CatToken("{", 7, GroupStart)
  {
    EscapeIsCommand(s[0]);
    BracesAreGroups(s[7]);
    forall k | 1 <= k < 7
      ensures Categorize(s)[k].category == Letter
    {
      AsciiLettersAreLetters(s[k]);
    }
  }
}
