/**
 * `rreplace` (v1/utils.py): replacement counted from the end of a string,
 * built from `str.rsplit` and `str.join`; with `'*'` it falls back to
 * `str.replace`.
 */
module RReplace {

  import opened Wrappers
  import opened Strings

  /** The `replacements` argument: the string `'*'` or a count. */
  datatype Replacements = All | Count(n: int)

  /** `str.rsplit` refuses an empty separator. */
  datatype ReplaceError = EmptySeparator

  /** `rreplace(s, old, new, replacements)` as written. */
  function RReplaceAsWritten(s: string, pat: string, rep: string, replacements: Replacements)
    : Result<string, ReplaceError>
  {
    match replacements
    case All => Ok(ReplaceAll(s, pat, rep))
    case Count(n) =>
      if pat == "" then Failure(EmptySeparator) else Ok(JoinWith(RSplit(s, pat, n), rep))
  }

  /** `rreplace` replacing from the end in both cases: `'*'` splits from the
      right without a limit. */
  function RReplace(s: string, pat: string, rep: string, replacements: Replacements)
    : Result<string, ReplaceError>
  {
    var n := if replacements.All? then -1 else replacements.n;
    if pat == "" then
      (if replacements.All? then Ok(ReplaceAll(s, pat, rep)) else Failure(EmptySeparator))
    else Ok(JoinWith(RSplit(s, pat, n), rep))
  }

  /** Joining the pieces of `rsplit` with the separator gives back the string. */
  lemma {:induction false} RSplitJoin(s: string, sep: string, n: int)
    requires sep != ""
    ensures JoinWith(RSplit(s, sep, n), sep) == s
    decreases |s|
  {
    var k := RFind(s, sep);
    if n != 0 && k != -1 {
      var m := if n < 0 then n else n - 1;
      var head := RSplit(s[..k], sep, m);
      assert RSplit(s, sep, n) == head + [s[k + |sep|..]];
      RSplitJoin(s[..k], sep, m);
      JoinWithSnoc(head, s[k + |sep|..], sep);
      AroundOccurrence(s, sep, k);
    }
  }

  /** A string is the text before an occurrence, the occurrence and the text after it. */
  lemma AroundOccurrence(s: string, sep: string, k: int)
    requires OccursAt(s, sep, k)
    ensures s[..k] + sep + s[k + |sep|..] == s
  {
    assert s[..k] + s[k..k + |sep|] + s[k + |sep|..] == s;
  }

  /** Appending a last part to a join appends the glue and that part. */
  lemma {:induction false} JoinWithSnoc(parts: seq<string>, last: string, glue: string)
    requires |parts| >= 1
    ensures JoinWith(parts + [last], glue) == JoinWith(parts, glue) + glue + last
    decreases |parts|
  {
    if |parts| == 1 {
      assert parts + [last] == [parts[0], last];
      assert JoinWith([last], glue) == last;
    } else {
      assert (parts + [last])[1..] == parts[1..] + [last];
      JoinWithSnoc(parts[1..], last, glue);
    }
  }

  /** Every piece after the first comes from the right of all the splits
      made, so it holds no occurrence of the separator; with a count `n >= 0`
      at most `n` splits are made. */
  lemma {:induction false} RSplitPieces(s: string, sep: string, n: int)
    requires sep != ""
    ensures n >= 0 ==> |RSplit(s, sep, n)| <= n + 1
    ensures forall i :: 1 <= i < |RSplit(s, sep, n)| ==>
      forall k :: !OccursAt(RSplit(s, sep, n)[i], sep, k)
    decreases |s|
  {
    var k := RFind(s, sep);
    if n != 0 && k != -1 {
      var m := if n < 0 then n else n - 1;
      RSplitPieces(s[..k], sep, m);
      var tail := s[k + |sep|..];
      forall j | 0 <= j
        ensures !OccursAt(tail, sep, j)
      {
        if OccursAt(tail, sep, j) {
          assert s[k + |sep| + j..k + |sep| + j + |sep|] == tail[j..j + |sep|];
          assert OccursAt(s, sep, k + |sep| + j);
        }
      }
    }
  }

  /** Where `old` does not occur, nothing is replaced. */
  lemma AbsentUnchanged(s: string, pat: string, rep: string, replacements: Replacements)
    requires pat != "" && Find(s, pat, 0) == -1
    ensures RReplace(s, pat, rep, replacements) == Ok(s)
    ensures RReplaceAsWritten(s, pat, rep, replacements) == Ok(s)
  {
    assert forall k :: !OccursAt(s, pat, k);
  }

  /** One replacement removes the last occurrence and nothing else. */
  lemma ReplaceLastOnce(s: string, pat: string, rep: string)
    requires pat != ""
    ensures var k := RFind(s, pat);
      k != -1 ==> RReplace(s, pat, rep, Count(1)) == Ok(s[..k] + rep + s[k + |pat|..])
  {
    var k := RFind(s, pat);
    if k != -1 {
      assert RSplit(s[..k], pat, 0) == [s[..k]];
      JoinWithSnoc([s[..k]], s[k + |pat|..], rep);
    }
  }

  /** Replacing a pattern by itself changes nothing. */
  lemma SelfReplacement(s: string, pat: string, n: int)
    requires pat != ""
    ensures RReplace(s, pat, pat, Count(n)) == Ok(s)
    ensures RReplace(s, pat, pat, All) == Ok(s)
  {
    RSplitJoin(s, pat, n);
    RSplitJoin(s, pat, -1);
  }

  /** A count of `-1` and `'*'` mean the same in the corrected model. */
  lemma AllIsUnlimited(s: string, pat: string, rep: string)
    requires pat != ""
    ensures RReplace(s, pat, rep, All) == RReplace(s, pat, rep, Count(-1))
  {
  }

  /** A split count that reaches every occurrence splits everywhere. */
  lemma {:induction false} RSplitEnough(s: string, sep: string, n: int)
    requires sep != "" && n >= |RSplit(s, sep, -1)| - 1
    ensures RSplit(s, sep, n) == RSplit(s, sep, -1)
    decreases |s|
  {
    var k := RFind(s, sep);
    if k != -1 {
      RSplitEnough(s[..k], sep, n - 1);
    }
  }

  /** A count no smaller than the number of occurrences replaces them all. */
  lemma EnoughIsAll(s: string, pat: string, rep: string, n: int)
    requires pat != "" && n >= |RSplit(s, pat, -1)| - 1
    ensures RReplace(s, pat, rep, Count(n)) == RReplace(s, pat, rep, All)
    ensures RReplaceAsWritten(s, pat, rep, Count(n)) == RReplace(s, pat, rep, All)
  {
    RSplitEnough(s, pat, n);
  }

  /** A two-character pattern occurs where its two characters do. */
  lemma OccursAtPair(s: string, pat: string, k: int)
    requires |pat| == 2
    ensures OccursAt(s, pat, k) <==> 0 <= k && k + 2 <= |s| && s[k] == pat[0] && s[k + 1] == pat[1]
  {
    if 0 <= k && k + 2 <= |s| && s[k] == pat[0] && s[k + 1] == pat[1] {
      assert s[k..k + 2] == pat;
    }
  }

  /** Every occurrence of a two-character pattern, from the right. */
  lemma LastPair(s: string, pat: string, k: int)
    requires |pat| == 2 && 0 <= k && k + 2 <= |s| && s[k] == pat[0] && s[k + 1] == pat[1]
    requires forall j :: k < j && j + 2 <= |s| ==> !(s[j] == pat[0] && s[j + 1] == pat[1])
    ensures RFind(s, pat) == k
  {
    OccursAtPair(s, pat, k);
    var r := RFind(s, pat);
    if r != -1 {
      OccursAtPair(s, pat, r);
    }
  }

  /** No occurrence of a two-character pattern. */
  lemma NoPair(s: string, pat: string)
    requires |pat| == 2
    requires forall j :: 0 <= j && j + 2 <= |s| ==> !(s[j] == pat[0] && s[j + 1] == pat[1])
    ensures RFind(s, pat) == -1 && Find(s, pat, 0) == -1
  {
    var r := RFind(s, pat);
    if r != -1 {
      OccursAtPair(s, pat, r);
    }
    var f := Find(s, pat, 0);
    if f != -1 {
      OccursAtPair(s, pat, f);
    }
  }

  /** The first occurrence of a two-character pattern. */
  lemma FirstPair(s: string, pat: string, k: int)
    requires |pat| == 2 && 0 <= k && k + 2 <= |s| && s[k] == pat[0] && s[k + 1] == pat[1]
    requires forall j :: 0 <= j < k ==> !(s[j] == pat[0] && s[j + 1] == pat[1])
    ensures Find(s, pat, 0) == k
  {
    OccursAtPair(s, pat, k);
    var f := Find(s, pat, 0);
    if f != -1 {
      OccursAtPair(s, pat, f);
    }
  }

  /** The documentation's examples on `haha1haha`. */
  lemma DocExamples(s: string)
    requires s == "haha1haha"
    ensures RReplaceAsWritten(s, "ha", "", All) == Ok("1")
    ensures RReplace(s, "ha", "", All) == Ok("1")
    ensures RReplaceAsWritten(s, "ha", "", Count(1)) == Ok("haha1ha")
  {
    StarExample(s);
    RSplitStar(s);
    LastPair(s, "ha", 7);
    ReplaceLastOnce(s, "ha", "");
    assert s[..7] + "" + s[9..] == "haha1ha";
  }

  lemma StarExample(s: string)
    requires s == "haha1haha"
    ensures ReplaceAll(s, "ha", "") == "1"
  {
    var u1 := s[2..];
    var u2 := u1[2..];
    var u3 := u2[3..];
    var u4 := u3[2..];
    assert u2 == "1haha" && u3 == "ha" && u4 == "";
    FirstPair(s, "ha", 0);
    FirstPair(u1, "ha", 0);
    FirstPair(u2, "ha", 1);
    FirstPair(u3, "ha", 0);
    NoPair(u4, "ha");
    assert ReplaceAll(u4, "ha", "") == "";
    assert ReplaceAll(u3, "ha", "") == "";
    assert ReplaceAll(u2, "ha", "") == u2[..1] + "" + "";
    assert u2[..1] == "1";
    assert ReplaceAll(u1, "ha", "") == "1";
  }

  lemma RSplitStar(s: string)
    requires s == "haha1haha"
    ensures JoinWith(RSplit(s, "ha", -1), "") == "1"
  {
    var s1 := s[..7];
    var s2 := s1[..5];
    var s3 := s2[..2];
    var s4 := s3[..0];
    assert s1 == "haha1ha" && s2 == "haha1" && s3 == "ha";
    LastPair(s, "ha", 7);
    LastPair(s1, "ha", 5);
    LastPair(s2, "ha", 2);
    LastPair(s3, "ha", 0);
    NoPair(s4, "ha");
    assert s[9..] == "" && s1[7..] == "" && s2[4..] == "1" && s3[2..] == "";
    assert RSplit(s4, "ha", -1) == [""];
    assert RSplit(s3, "ha", -1) == ["", ""];
    assert RSplit(s2, "ha", -1) == ["", "", "1"];
    assert RSplit(s1, "ha", -1) == ["", "", "1", ""];
    assert RSplit(s, "ha", -1) == ["", "", "1", "", ""];
    assert JoinWith(["", "", "1", "", ""], "") == "1";
  }

  /** The overlapping pattern `aa` in `aaa`: `'*'` as written replaces the
      left pair, a replacement from the end replaces the right pair. */
  lemma StarReplacesFromTheLeft(s: string)
    requires s == "aaa"
    ensures RReplaceAsWritten(s, "aa", "X", All) == Ok("Xa")
    ensures RReplace(s, "aa", "X", All) == Ok("aX")
  {
    FirstPair(s, "aa", 0);
    NoPair(s[2..], "aa");
    assert s[2..] == "a";
    assert ReplaceAll(s[2..], "aa", "X") == "a";
    assert ReplaceAll(s, "aa", "X") == s[..0] + "X" + ReplaceAll(s[2..], "aa", "X");
    assert s[..0] + "X" + "a" == "Xa";
    assert ReplaceAll(s, "aa", "X") == "Xa";
    assert RReplaceAsWritten(s, "aa", "X", All) == Ok(ReplaceAll(s, "aa", "X"));
    LastPair(s, "aa", 1);
    NoPair(s[..1], "aa");
    assert s[..1] == "a" && s[3..] == "";
    assert RSplit(s[..1], "aa", -1) == ["a"];
    assert RSplit(s, "aa", -1) == ["a", ""];
    assert JoinWith(["a", ""], "X") == "a" + "X" + "";
    assert "a" + "X" + "" == "aX";
  }
}
