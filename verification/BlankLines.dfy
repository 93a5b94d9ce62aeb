/** Pass E against its documentation, which speaks of runs of three or more blank lines. */
module BlankLines {
  import opened Basics
  import opened Whitespace

  predicate IsBlank(l: string) { TrimEnd(l) == "" }

  /** How many blank lines the list starts with. */
  function Blanks(ls: seq<string>): (n: nat)
    ensures n <= |ls| && forall k :: 0 <= k < n ==> IsBlank(ls[k])
    ensures n < |ls| ==> !IsBlank(ls[n])
  {
    if ls == [] || !IsBlank(ls[0]) then 0 else 1 + Blanks(ls[1..])
  }

  function Empties(n: nat): (ls: seq<string>)
    ensures |ls| == n && forall k :: 0 <= k < n ==> ls[k] == ""
  {
    if n == 0 then [] else [""] + Empties(n - 1)
  }

  /** The documented rule: a run of three or more blank lines becomes one, a shorter one stays. */
  function Kept(n: nat): nat { if n >= 3 then 1 else n }

  function CollapseThree(ls: seq<string>): seq<string>
    decreases |ls|
  {
    if ls == [] then []
    else
      var n := Blanks(ls);
      if n == 0 then [TrimEnd(ls[0])] + CollapseThree(ls[1..]) else Empties(Kept(n)) + CollapseThree(ls[n..])
  }

  function NormalizeThree(s: string): string {
    var out := Unlines(CollapseThree(Lines(CrToLf(DropCrLf(s)))));
    if EndsWithNewline(s) then out else TrimNewlines(out)
  }

  /** Somewhere exactly two blank lines stand in a row. */
  predicate HasDouble(ls: seq<string>)
    decreases |ls|
  {
    ls != [] &&
    var n := Blanks(ls);
    if n == 0 then HasDouble(ls[1..]) else n == 2 || HasDouble(ls[n..])
  }

  /** The lines without the blank ones at their end. */
  function DropTail(ls: seq<string>): (r: seq<string>)
    ensures r <= ls && SolidEnd(r) && forall k :: |r| <= k < |ls| ==> IsBlank(ls[k])
  {
    if ls != [] && IsBlank(ls[|ls| - 1]) then DropTail(ls[..|ls| - 1]) else ls
  }

  predicate SolidEnd(ls: seq<string>) { ls == [] || !IsBlank(ls[|ls| - 1]) }

  /** The lines in which a double blank line matters: those at the end only do when the text ends
      with a newline. */
  function Significant(s: string): seq<string> {
    var ls := Lines(CrToLf(DropCrLf(s)));
    if EndsWithNewline(s) then ls else DropTail(ls)
  }

  // ---- the two rules on lists of lines ----

  lemma {:induction false} CollapseSkips(ls: seq<string>, run: nat)
    requires run >= 1
    ensures Collapse(ls, run) == Collapse(ls[Blanks(ls)..], 0)
  {
    if ls != [] && IsBlank(ls[0]) {
      CollapseSkips(ls[1..], run + 1);
      assert ls[Blanks(ls)..] == ls[1..][Blanks(ls[1..])..];
    }
  }

  /** The code's rule, run by run. */
  lemma CollapseByRuns(ls: seq<string>)
    requires ls != []
    ensures Collapse(ls, 0) ==
            if Blanks(ls) == 0 then [TrimEnd(ls[0])] + Collapse(ls[1..], 0) else [""] + Collapse(ls[Blanks(ls)..], 0)
  {
    if Blanks(ls) > 0 {
      CollapseSkips(ls[1..], 1);
      assert ls[Blanks(ls)..] == ls[1..][Blanks(ls[1..])..];
    }
  }

  lemma SamePrefix(p: seq<string>, a: seq<string>, b: seq<string>)
    ensures p + a == p + b <==> a == b
  {
    assert (p + a)[|p|..] == a && (p + b)[|p|..] == b;
  }

  lemma {:induction false} RulesAgreeOnLines(ls: seq<string>)
    ensures CollapseThree(ls) == Collapse(ls, 0) <==> !HasDouble(ls)
    decreases |ls|
  {
    if ls != [] {
      CollapseByRuns(ls);
      var n := Blanks(ls);
      if n == 0 {
        RulesAgreeOnLines(ls[1..]);
        SamePrefix([TrimEnd(ls[0])], CollapseThree(ls[1..]), Collapse(ls[1..], 0));
      } else if n == 2 {
        var rest := Collapse(ls[2..], 0);
        assert CollapseThree(ls)[1] == "";
        if 2 < |ls| { CollapseByRuns(ls[2..]); }
        assert rest != [] ==> rest[0] != "";
      } else {
        RulesAgreeOnLines(ls[n..]);
        assert Empties(Kept(n)) == [""];
        SamePrefix([""], CollapseThree(ls[n..]), Collapse(ls[n..], 0));
      }
    }
  }

  lemma {:induction false} ThreeStaysPlain(ls: seq<string>)
    requires PlainLines(ls)
    ensures PlainLines(CollapseThree(ls))
    decreases |ls|
  {
    if ls != [] {
      var n := Blanks(ls);
      if n == 0 {
        CollapseStaysPlain(ls[..1], 0);
        assert Collapse(ls[..1], 0) == [TrimEnd(ls[0])] by { assert ls[..1][1..] == []; }
        assert NoNewline(Collapse(ls[..1], 0)[0]);
        ThreeStaysPlain(ls[1..]);
      } else {
        ThreeStaysPlain(ls[n..]);
      }
    }
  }

  /** The documented rule, run by run. */
  lemma ThreeByRuns(ls: seq<string>)
    ensures CollapseThree(ls) ==
            if ls == [] then []
            else if Blanks(ls) == 0 then [TrimEnd(ls[0])] + CollapseThree(ls[1..])
            else Empties(Kept(Blanks(ls))) + CollapseThree(ls[Blanks(ls)..])
  {
  }

  lemma AllBlank(b: seq<string>)
    requires forall k :: 0 <= k < |b| ==> IsBlank(b[k])
    ensures Collapse(b, 0) == Empties(if b == [] then 0 else 1)
    ensures CollapseThree(b) == Empties(Kept(|b|))
  {
    ThreeByRuns(b);
    ThreeByRuns([]);
    if b != [] {
      CollapseByRuns(b);
      assert Blanks(b) == |b| && b[|b|..] == [];
      assert Collapse(b[|b|..], 0) == [] && Empties(1) == [""];
    }
  }

  lemma Assoc(a: seq<string>, b: seq<string>, c: seq<string>)
    ensures (a + b) + c == a + (b + c)
  {
  }

  /** Blank lines at the end only add blank lines at the end, under the code's rule. */
  lemma {:induction false} TailsCollapse(a: seq<string>, b: seq<string>)
    requires SolidEnd(a) && forall k :: 0 <= k < |b| ==> IsBlank(b[k])
    ensures Collapse(a + b, 0) == Collapse(a, 0) + Empties(if b == [] then 0 else 1)
    decreases |a|
  {
    hide Collapse, CollapseThree, Blanks, Empties, TrimEnd;
    var one := Empties(if b == [] then 0 else 1);
    if a == [] {
      assert a + b == b && [] + one == one;
      AllBlank(a);
      AllBlank(b);
    } else {
      var n := Blanks(a);
      BlanksOfPrefix(a, b);
      CollapseByRuns(a);
      CollapseByRuns(a + b);
      CutPrefix(a, b, if n == 0 then 1 else n);
      if n == 0 {
        TailsCollapse(a[1..], b);
        Assoc([TrimEnd(a[0])], Collapse(a[1..], 0), one);
      } else {
        TailsCollapse(a[n..], b);
        Assoc([""], Collapse(a[n..], 0), one);
      }
    }
  }

  lemma CutPrefix(a: seq<string>, b: seq<string>, m: nat)
    requires 0 < m <= |a|
    ensures (a + b)[m..] == a[m..] + b && (a + b)[0] == a[0]
  {
  }

  /** The same under the documented rule. */
  lemma {:induction false} TailsCollapseThree(a: seq<string>, b: seq<string>)
    requires SolidEnd(a) && forall k :: 0 <= k < |b| ==> IsBlank(b[k])
    ensures CollapseThree(a + b) == CollapseThree(a) + Empties(Kept(|b|))
    decreases |a|
  {
    hide Collapse, CollapseThree, Blanks, Empties, TrimEnd;
    var three := Empties(Kept(|b|));
    if a == [] {
      assert a + b == b && [] + three == three;
      AllBlank(a);
      AllBlank(b);
    } else {
      var n := Blanks(a);
      BlanksOfPrefix(a, b);
      ThreeByRuns(a);
      ThreeByRuns(a + b);
      CutPrefix(a, b, if n == 0 then 1 else n);
      if n == 0 {
        TailsCollapseThree(a[1..], b);
        Assoc([TrimEnd(a[0])], CollapseThree(a[1..]), three);
      } else {
        TailsCollapseThree(a[n..], b);
        Assoc(Empties(Kept(n)), CollapseThree(a[n..]), three);
      }
    }
  }

  lemma {:induction false} BlanksOfPrefix(a: seq<string>, b: seq<string>)
    requires Blanks(a) < |a|
    ensures Blanks(a + b) == Blanks(a)
  {
    if IsBlank(a[0]) {
      assert (a + b)[1..] == a[1..] + b;
      BlanksOfPrefix(a[1..], b);
    }
  }

  lemma {:induction false} SolidEndsStay(a: seq<string>)
    requires a != [] && SolidEnd(a)
    ensures var x, y := Collapse(a, 0), CollapseThree(a);
            x != [] && x[|x| - 1] != "" && y != [] && y[|y| - 1] != ""
    decreases |a|
  {
    hide Collapse, CollapseThree, Blanks, Empties, TrimEnd;
    var n := Blanks(a);
    CollapseByRuns(a);
    ThreeByRuns(a);
    NothingCollapses();
    var m := if n == 0 then 1 else n;
    if m < |a| { SolidEndsStay(a[m..]); }
  }

  // ---- the two rules on texts ----

  lemma {:induction false} TrimBlankTail(a: seq<string>, k: nat)
    ensures TrimNewlines(Unlines(a + Empties(k))) == TrimNewlines(Unlines(a))
  {
    hide Unlines;
    if k == 0 {
      assert a + Empties(0) == a;
    } else {
      TrimBlankTail(a, k - 1);
      UnlinesOfLast(a + Empties(k - 1), "");
      assert Empties(k) == Empties(k - 1) + [""] by { assert |Empties(k)| == k; }
      assert a + Empties(k) == (a + Empties(k - 1)) + [""];
      var s := Unlines(a + Empties(k - 1));
      assert (s + "" + "\n")[..|s|] == s;
    }
  }

  /** Lines whose last is not empty are recovered from their text even without its final newline. */
  lemma LinesOfTrimmed(a: seq<string>)
    requires PlainLines(a) && (a == [] || a[|a| - 1] != "")
    ensures Lines(TrimNewlines(Unlines(a))) == a
  {
    hide Lines, Unlines, TrimNewlines;
    if a == [] {
      NoLines();
    } else {
      var init, last := a[..|a| - 1], a[|a| - 1];
      var u := Unlines(init) + last;
      assert a == init + [last];
      UnlinesOfLast(init, last);
      LastLineStays(Unlines(init), last);
      TrimSingle(u);
      LinesAre(u, a);
    }
  }

  lemma NoLines()
    ensures Lines(TrimNewlines(Unlines([]))) == []
  {
  }

  lemma LastLineStays(s: string, last: string)
    requires NoNewline(last) && last != ""
    ensures s + last != "" && !EndsWithNewline(s + last)
  {
    assert (s + last)[|s + last| - 1] == last[|last| - 1];
  }

  lemma UnlinesOfLast(init: seq<string>, last: string)
    ensures Unlines(init + [last]) == (Unlines(init) + last) + "\n"
  {
    UnlinesConcat(init, [last]);
    UnlinesHead(last, []);
    assert [last] + [] == [last];
  }

  /** The code and its documentation agree on a text exactly when no two blank lines in a row, and no
      more and no fewer, stand where they matter. */
  lemma DocumentedRuleIff(s: string)
    ensures NormalizeThree(s) == Normalize(s) <==> !HasDouble(Significant(s))
  {
    var ls := Lines(CrToLf(DropCrLf(s)));
    LinesArePlain(CrToLf(DropCrLf(s)));
    if EndsWithNewline(s) {
      RulesAgreeOnLines(ls);
      ThreeStaysPlain(ls);
      CollapseStaysPlain(ls, 0);
      LinesOfUnlines(CollapseThree(ls));
      LinesOfUnlines(Collapse(ls, 0));
    } else {
      var a := DropTail(ls);
      var b := ls[|a|..];
      assert a + b == ls;
      TailsCollapse(a, b);
      TailsCollapseThree(a, b);
      TrimBlankTail(Collapse(a, 0), if b == [] then 0 else 1);
      TrimBlankTail(CollapseThree(a), Kept(|b|));
      if a != [] { SolidEndsStay(a); }
      ThreeStaysPlain(a);
      CollapseStaysPlain(a, 0);
      LinesOfTrimmed(Collapse(a, 0));
      LinesOfTrimmed(CollapseThree(a));
      RulesAgreeOnLines(a);
    }
  }

  /** The lines of a text are those it is joined from. */
  lemma LinesAre(s: string, ls: seq<string>)
    requires PlainLines(ls) && s != "" && !EndsWithNewline(s) && Unlines(ls) == s + "\n"
    ensures Lines(s) == ls
  {
    UnlinesOfLines(s);
    LinesArePlain(s);
    LinesOfUnlines(Lines(s));
    LinesOfUnlines(ls);
    hide Lines, Unlines;
  }

  /** Four lines, the middle two blank. */
  lemma TwoBlanks(a: string, b: string)
    requires TrimEnd(a) == a != "" && TrimEnd(b) == b != ""
    ensures Collapse([a, "", "", b], 0) == [a, "", b] && CollapseThree([a, "", "", b]) == [a, "", "", b]
  {
    hide TrimEnd, Collapse, CollapseThree, Empties;
    var l1, l2 := [a, "", "", b], ["", "", b];
    assert TrimEnd("") == "" by { TrimEndTrims(""); }
    assert l1[1..] == l2 && l2[2..] == [b] && [b][1..] == [];
    assert l2[1..][1..] == [b] && Blanks(l2) == 2 && Blanks([b]) == 0 && Blanks(l1) == 0;
    CollapseByRuns(l1);
    CollapseByRuns(l2);
    CollapseByRuns([b]);
    ThreeByRuns(l1);
    ThreeByRuns(l2);
    ThreeByRuns([b]);
    ThreeByRuns([]);
    NothingCollapses();
    assert Empties(2) == ["", ""];
  }

  lemma NothingCollapses()
    ensures Collapse([], 0) == [] && CollapseThree([]) == []
  {
  }

  lemma UnlinesOfThree(a: string, b: string, c: string)
    ensures Unlines([a, b, c]) == a + "\n" + (b + "\n" + (c + "\n"))
  {
    UnlinesHead(a, [b, c]);
    UnlinesHead(b, [c]);
    UnlinesHead(c, []);
    assert [a] + [b, c] == [a, b, c] && [b] + [c] == [b, c] && [c] + [] == [c];
  }

  /** Two blank lines become one, where the documentation keeps both. */
  lemma TwoBlankLinesCollapse()
    ensures Normalize("a\n\n\nb") == "a\n\nb" && NormalizeThree("a\n\n\nb") == "a\n\n\nb"
  {
    var s, t := "a\n\n\nb", "a\n\nb";
    assert TrimEnd("a") == "a" && TrimEnd("b") == "b";
    NoCrUntouched(s);
    UnlinesOfThree("", "", "b");
    UnlinesHead("a", ["", "", "b"]);
    UnlinesOfThree("a", "", "b");
    hide Unlines, Lines, TrimEnd, TrimNewlines, Collapse, CollapseThree, DropCrLf, CrToLf;
    assert ["a"] + ["", "", "b"] == ["a", "", "", "b"];
    assert Unlines(["a", "", "", "b"]) == s + "\n";
    assert Unlines(["a", "", "b"]) == t + "\n";
    LinesAre(s, ["a", "", "", "b"]);
    TwoBlanks("a", "b");
    TrimSingle(t);
    TrimSingle(s);
  }
}
