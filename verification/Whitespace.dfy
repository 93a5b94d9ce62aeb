/** Pass E: normalizing insignificant whitespace. */
module Whitespace {
  import opened Basics

  /** The Unicode White_Space property, which Rust's trimming uses. */
  predicate IsSpace(c: char) {
    var k := c as int;
    0x09 <= k <= 0x0d || k == 0x20 || k == 0x85 || k == 0xa0 || k == 0x1680 || 0x2000 <= k <= 0x200a ||
    k == 0x2028 || k == 0x2029 || k == 0x202f || k == 0x205f || k == 0x3000
  }

  predicate EndsWithNewline(s: string) { s != "" && s[|s| - 1] == '\n' }

  // ---- the string operations the source borrows from the standard library ----

  /** `replace("\r\n", "\n")` */
  function DropCrLf(s: string): string {
    if s == "" then ""
    else if s[0] == '\r' && |s| > 1 && s[1] == '\n' then "\n" + DropCrLf(s[2..])
    else [s[0]] + DropCrLf(s[1..])
  }

  /** `replace('\r', "\n")` */
  function CrToLf(s: string): string {
    if s == "" then "" else [if s[0] == '\r' then '\n' else s[0]] + CrToLf(s[1..])
  }

  /** Where the first line stops: at its newline, or at the end of the text. */
  function FirstNewline(s: string): (k: nat)
    ensures k <= |s|
  {
    if s == "" || s[0] == '\n' then 0 else 1 + FirstNewline(s[1..])
  }

  lemma {:induction false} FirstNewlineStops(s: string)
    ensures var k := FirstNewline(s); (k < |s| ==> s[k] == '\n') && forall i :: 0 <= i < k ==> s[i] != '\n'
  {
    if s != "" && s[0] != '\n' {
      FirstNewlineStops(s[1..]);
      var k := FirstNewline(s);
      forall i | 0 <= i < k ensures s[i] != '\n' {
        if i > 0 { assert s[i] == s[1..][i - 1]; }
      }
    }
  }

  /** `lines()` on text without carriage returns: no line for a final newline. */
  function Lines(s: string): seq<string> {
    if s == "" then []
    else
      var k := FirstNewline(s);
      [s[..k]] + if k == |s| then [] else Lines(s[k + 1..])
  }

  /** `trim_end()` */
  function TrimEnd(s: string): (t: string)
    ensures |t| <= |s|
  {
    if s != "" && IsSpace(s[|s| - 1]) then TrimEnd(s[..|s| - 1]) else s
  }

  /** `trim_end_matches('\n')` */
  function TrimNewlines(s: string): (t: string)
    ensures |t| <= |s|
  {
    if EndsWithNewline(s) then TrimNewlines(s[..|s| - 1]) else s
  }

  /** `t` is `s` without some white space from its end. */
  ghost predicate Trimmed(t: string, s: string) {
    |t| <= |s| && t == s[..|t|] && forall i :: |t| <= i < |s| ==> IsSpace(s[i])
  }

  lemma {:induction false} TrimEndTrims(s: string)
    ensures Trimmed(TrimEnd(s), s)
    ensures TrimEnd(s) == "" || !IsSpace(TrimEnd(s)[|TrimEnd(s)| - 1])
    ensures TrimEnd(TrimEnd(s)) == TrimEnd(s)
  {
    if s != "" && IsSpace(s[|s| - 1]) { TrimEndTrims(s[..|s| - 1]); }
  }

  lemma {:induction false} TrimNewlinesTrims(s: string)
    ensures Trimmed(TrimNewlines(s), s)
    ensures !EndsWithNewline(TrimNewlines(s))
  {
    if EndsWithNewline(s) { TrimNewlinesTrims(s[..|s| - 1]); }
  }

  // ---- the normalizer ----

  /** The lines kept after `run` blank lines in a row, each trimmed. */
  function Collapse(ls: seq<string>, run: nat): seq<string> {
    if ls == [] then []
    else
      var t := TrimEnd(ls[0]);
      var run' := if t == "" then run + 1 else 0;
      if run' > 1 then Collapse(ls[1..], run') else [t] + Collapse(ls[1..], run')
  }

  function Unlines(ls: seq<string>): string {
    if ls == [] then "" else ls[0] + "\n" + Unlines(ls[1..])
  }

  lemma UnlinesHead(l: string, ls: seq<string>)
    ensures Unlines([l] + ls) == l + "\n" + Unlines(ls)
  {
    assert ([l] + ls)[1..] == ls;
  }

  function Normalize(s: string): string {
    var out := Unlines(Collapse(Lines(CrToLf(DropCrLf(s))), 0));
    if EndsWithNewline(s) then out else TrimNewlines(out)
  }

  method NormalizeWs(input: string) returns (out: string)
    ensures out == Normalize(input)
  {
    out := "";
    var lines := Lines(CrToLf(DropCrLf(input)));
    var blankRun: nat := 0;
    var i := 0;
    while i < |lines|
      invariant i <= |lines|
      invariant out + Unlines(Collapse(lines[i..], blankRun)) == Unlines(Collapse(lines, 0))
    {
      var trimmed := TrimEnd(lines[i]);
      var run := if trimmed == "" then blankRun + 1 else 0;
      assert lines[i..][1..] == lines[i + 1..];
      i := i + 1;
      if run <= 1 {
        UnlinesHead(trimmed, Collapse(lines[i..], run));
        assert out + (trimmed + "\n" + Unlines(Collapse(lines[i..], run))) ==
               (out + trimmed + "\n") + Unlines(Collapse(lines[i..], run));
        out := out + trimmed + "\n";
      }
      blankRun := run;
    }
    assert out + "" == out;
    if !EndsWithNewline(input) {
      out := TrimNewlines(out);
    }
  }

  // ---- carriage returns ----

  predicate NoCr(s: string) { '\r' !in s }

  lemma {:induction false} NoCrUntouched(s: string)
    requires NoCr(s)
    ensures DropCrLf(s) == s && CrToLf(s) == s
  {
    if s != "" {
      NoCrUntouched(s[1..]);
    }
  }

  lemma {:induction false} CrToLfRemovesCr(s: string)
    ensures NoCr(CrToLf(s))
  {
    if s != "" {
      CrToLfRemovesCr(s[1..]);
    }
  }

  // ---- lines ----

  predicate NoNewline(s: string) { '\n' !in s }

  ghost predicate PlainLines(ls: seq<string>) { forall i :: 0 <= i < |ls| ==> NoNewline(ls[i]) }

  lemma {:induction false} LinesArePlain(s: string)
    ensures PlainLines(Lines(s))
  {
    FirstNewlineStops(s);
    var k := FirstNewline(s);
    if k < |s| { LinesArePlain(s[k + 1..]); }
  }

  /** The text with its final newline supplied if it lacks one. */
  function Closed(s: string): string {
    if s == "" || EndsWithNewline(s) then s else s + "\n"
  }

  lemma ClosedSplit(s: string, k: nat)
    requires k < |s| && s[k] == '\n'
    ensures Closed(s) == s[..k] + "\n" + Closed(s[k + 1..])
  {
    var rest := s[k + 1..];
    assert s == s[..k] + "\n" + rest;
    if rest != "" { assert rest[|rest| - 1] == s[|s| - 1]; }
  }

  /** Rejoining the lines restores the text, up to a missing final newline. */
  lemma {:induction false} UnlinesOfLines(s: string)
    ensures Unlines(Lines(s)) == Closed(s)
  {
    if s != "" {
      var k := FirstNewline(s);
      FirstNewlineStops(s);
      if k == |s| {
        UnlinesHead(s, []);
        assert s[..k] == s && [s] + [] == [s];
      } else {
        UnlinesOfLines(s[k + 1..]);
        UnlinesHead(s[..k], Lines(s[k + 1..]));
        ClosedSplit(s, k);
      }
    }
  }

  lemma LinesOfLine(l: string, rest: string)
    requires NoNewline(l)
    ensures Lines(l + "\n" + rest) == [l] + Lines(rest)
  {
    var s := l + "\n" + rest;
    FirstNewlineStops(s);
    assert s[|l|] == '\n';
    assert FirstNewline(s) == |l| by {
      assert forall i :: 0 <= i < |l| ==> s[i] == l[i];
    }
    assert s[..|l|] == l && s[|l| + 1..] == rest;
  }

  lemma {:induction false} LinesOfUnlines(ls: seq<string>)
    requires PlainLines(ls)
    ensures Lines(Unlines(ls)) == ls
  {
    if ls != [] {
      LinesOfUnlines(ls[1..]);
      LinesOfLine(ls[0], Unlines(ls[1..]));
    }
  }

  /** Plain lines are recovered from any text that rejoins them. */
  lemma LinesOfText(s: string, ls: seq<string>)
    requires PlainLines(ls) && s == Unlines(ls)
    ensures Lines(s) == ls
  {
    LinesOfUnlines(ls);
  }

  /** A further newline never changes the lines that were there. */
  lemma LinesPlusNewline(s: string)
    ensures Lines(s + "\n") == Lines(s) || Lines(s + "\n") == Lines(s) + [""]
  {
    var ls, nl := Lines(s), "\n";
    LinesArePlain(s);
    UnlinesOfLines(s);
    if s == "" || EndsWithNewline(s) {
      UnlinesConcat(ls, [""]);
      UnlinesHead("", []);
      assert [""] + [] == [""];
      assert Unlines([""]) == nl;
      LinesOfText(s + nl, ls + [""]);
    } else {
      LinesOfText(s + nl, ls);
    }
  }

  lemma {:induction false} UnlinesConcat(a: seq<string>, b: seq<string>)
    ensures Unlines(a + b) == Unlines(a) + Unlines(b)
  {
    if a == [] {
      assert a + b == b;
    } else {
      assert (a + b)[1..] == a[1..] + b;
      UnlinesConcat(a[1..], b);
    }
  }

  // ---- the normal form of a list of lines ----

  /** Every line trimmed, and no blank line straight after `run` others. */
  predicate Tidy(ls: seq<string>, run: nat) {
    ls == [] ||
    (TrimEnd(ls[0]) == ls[0] &&
     var run' := if ls[0] == "" then run + 1 else 0;
     run' <= 1 && Tidy(ls[1..], run'))
  }

  lemma {:induction false} TidyIsFixed(ls: seq<string>, run: nat)
    requires Tidy(ls, run)
    ensures Collapse(ls, run) == ls
  {
    if ls != [] {
      TidyIsFixed(ls[1..], if ls[0] == "" then run + 1 else 0);
    }
  }

  /** What was skipped only makes the rest tidier. */
  lemma {:induction false} TidyForFewerBlanks(ls: seq<string>, run: nat, fewer: nat)
    requires Tidy(ls, run) && fewer <= run
    ensures Tidy(ls, fewer)
  {
    if ls != [] && ls[0] == "" {
      TidyForFewerBlanks(ls[1..], run + 1, fewer + 1);
    }
  }

  lemma {:induction false} CollapseIsTidy(ls: seq<string>, run: nat)
    ensures Tidy(Collapse(ls, run), run)
  {
    if ls != [] {
      var t := TrimEnd(ls[0]);
      var run' := if t == "" then run + 1 else 0;
      TrimEndTrims(ls[0]);
      CollapseIsTidy(ls[1..], run');
      if run' > 1 {
        TidyForFewerBlanks(Collapse(ls[1..], run'), run', run);
      } else {
        var c := Collapse(ls, run);
        assert c[0] == t && c[1..] == Collapse(ls[1..], run');
      }
    }
  }

  lemma {:induction false} TidyPrefix(a: seq<string>, b: seq<string>, run: nat)
    requires Tidy(a + b, run)
    ensures Tidy(a, run)
  {
    if a != [] {
      assert (a + b)[1..] == a[1..] + b;
      TidyPrefix(a[1..], b, if a[0] == "" then run + 1 else 0);
    }
  }

  lemma {:induction false} CollapseStaysPlain(ls: seq<string>, run: nat)
    requires PlainLines(ls)
    ensures PlainLines(Collapse(ls, run))
  {
    if ls != [] {
      var t := TrimEnd(ls[0]);
      TrimEndTrims(ls[0]);
      assert NoNewline(t) by { forall i | 0 <= i < |t| ensures t[i] != '\n' { assert t[i] == ls[0][i]; } }
      CollapseStaysPlain(ls[1..], if t == "" then run + 1 else 0);
    }
  }

  // ---- shrinking ----

  lemma TrimByteLen(s: string)
    ensures ByteLen(TrimEnd(s)) <= ByteLen(s)
    ensures TrimEnd(s) != s ==> ByteLen(TrimEnd(s)) < ByteLen(s)
  {
    var t := TrimEnd(s);
    TrimEndTrims(s);
    ByteLenConcat(t, s[|t|..]);
    assert t + s[|t|..] == s;
    ByteLenAtLeast(s[|t|..]);
  }

  lemma UnlinesCons(l: string, ls: seq<string>)
    ensures ByteLen(Unlines([l] + ls)) == ByteLen(l) + 1 + ByteLen(Unlines(ls))
  {
    assert ([l] + ls)[1..] == ls;
    ByteLenConcat(l, "\n");
    ByteLenConcat(l + "\n", Unlines(ls));
  }

  lemma {:induction false} CollapseShrinks(ls: seq<string>, run: nat)
    ensures ByteLen(Unlines(Collapse(ls, run))) <= ByteLen(Unlines(ls))
    ensures Collapse(ls, run) != ls ==> ByteLen(Unlines(Collapse(ls, run))) < ByteLen(Unlines(ls))
  {
    if ls != [] {
      var t := TrimEnd(ls[0]);
      var run' := if t == "" then run + 1 else 0;
      CollapseShrinks(ls[1..], run');
      TrimByteLen(ls[0]);
      assert ls == [ls[0]] + ls[1..];
      UnlinesCons(ls[0], ls[1..]);
      if run' <= 1 { UnlinesCons(t, Collapse(ls[1..], run')); }
    }
  }

  lemma TrimNewlinesByteLen(s: string)
    ensures ByteLen(TrimNewlines(s)) <= ByteLen(s)
    ensures EndsWithNewline(s) ==> ByteLen(TrimNewlines(s)) < ByteLen(s)
  {
    var t := TrimNewlines(s);
    TrimNewlinesTrims(s);
    ByteLenConcat(t, s[|t|..]);
    assert t + s[|t|..] == s;
    ByteLenAtLeast(s[|t|..]);
  }

  /** On text without carriage returns, normalizing is the identity or strictly shortens. */
  lemma NormalizeShrinksOrKeeps(s: string)
    requires NoCr(s)
    ensures Normalize(s) == s || ByteLen(Normalize(s)) < ByteLen(s)
  {
    NoCrUntouched(s);
    var c := Collapse(Lines(s), 0);
    UnlinesOfLines(s);
    CollapseShrinks(Lines(s), 0);
    if !EndsWithNewline(s) && s != "" {
      ByteLenConcat(s, "\n");
      TrimNewlinesByteLen(Unlines(c));
      if c == Lines(s) { TrimSingle(s); } else { UnlinesEndsWithNewline(c); }
    }
  }

  lemma TrimSingle(s: string)
    requires !EndsWithNewline(s)
    ensures TrimNewlines(s + "\n") == s
  {
    assert (s + "\n")[..|s|] == s;
  }

  lemma {:induction false} UnlinesEndsWithNewline(ls: seq<string>)
    requires ls != []
    ensures EndsWithNewline(Unlines(ls))
  {
    if |ls| > 1 {
      UnlinesEndsWithNewline(ls[1..]);
    }
  }

  // ---- idempotence ----

  /** Trimming final newlines only drops lines from the end. */
  lemma {:induction false} TrimNewlinesDropsLines(s: string)
    ensures Lines(TrimNewlines(s)) <= Lines(s)
  {
    hide Lines, FirstNewline;
    if EndsWithNewline(s) {
      var u := SplitNewline(s);
      LinesPlusNewline(u);
      TrimNewlinesDropsLines(u);
      assert TrimNewlines(s) == TrimNewlines(u);
      PrefixTrans(Lines(TrimNewlines(u)), Lines(u), Lines(s));
    }
  }

  lemma PrefixTrans(a: seq<string>, b: seq<string>, c: seq<string>)
    requires a <= b && (c == b || c == b + [""])
    ensures a <= c
  {
  }

  lemma SplitNewline(s: string) returns (u: string)
    requires EndsWithNewline(s)
    ensures u == s[..|s| - 1] && u + "\n" == s
  {
    u := s[..|s| - 1];
  }

  lemma UnlinesNoCr(s: string)
    ensures NoCr(Normalize(s))
  {
    CrToLfRemovesCr(DropCrLf(s));
    CollapseNoCr(CrToLf(DropCrLf(s)));
    TrimNewlinesTrims(Unlines(Collapse(Lines(CrToLf(DropCrLf(s))), 0)));
    var out := Unlines(Collapse(Lines(CrToLf(DropCrLf(s))), 0));
    forall i | 0 <= i < |TrimNewlines(out)| ensures TrimNewlines(out)[i] != '\r' {
      assert TrimNewlines(out)[i] == out[i];
    }
  }

  lemma CollapseNoCr(s: string)
    requires NoCr(s)
    ensures NoCr(Unlines(Collapse(Lines(s), 0)))
  {
    LinesNoCr(s);
    CollapseLinesNoCr(Lines(s), 0);
  }

  lemma {:induction false} LinesNoCr(s: string)
    requires NoCr(s)
    ensures forall i :: 0 <= i < |Lines(s)| ==> NoCr(Lines(s)[i])
  {
    var k := FirstNewline(s);
    if k < |s| { LinesNoCr(s[k + 1..]); }
  }

  lemma {:induction false} CollapseLinesNoCr(ls: seq<string>, run: nat)
    requires forall i :: 0 <= i < |ls| ==> NoCr(ls[i])
    ensures NoCr(Unlines(Collapse(ls, run)))
  {
    if ls != [] {
      var t := TrimEnd(ls[0]);
      var run' := if t == "" then run + 1 else 0;
      TrimEndTrims(ls[0]);
      assert NoCr(t) by { forall i | 0 <= i < |t| ensures t[i] != '\r' { assert t[i] == ls[0][i]; } }
      CollapseLinesNoCr(ls[1..], run');
      if run' <= 1 { UnlinesHead(t, Collapse(ls[1..], run')); }
    }
  }

  lemma NormalizeIdempotent(s: string)
    ensures Normalize(Normalize(s)) == Normalize(s)
  {
    hide Lines, Unlines, Tidy, PlainLines, Collapse, DropCrLf, CrToLf, IsSpace;
    var flat := CrToLf(DropCrLf(s));
    var c := Collapse(Lines(flat), 0);
    var out, n := Unlines(c), Normalize(s);
    UnlinesNoCr(s);
    NoCrUntouched(n);
    LinesArePlain(flat);
    CollapseStaysPlain(Lines(flat), 0);
    CollapseIsTidy(Lines(flat), 0);
    LinesOfUnlines(c);
    TrimNewlinesTrims(out);
    if n != out { TrimNewlinesDropsLines(out); }
    assert Lines(n) <= c;
    assert c == Lines(n) + c[|Lines(n)|..];
    TidyPrefix(Lines(n), c[|Lines(n)|..], 0);
    TidyIsFixed(Lines(n), 0);
    UnlinesOfLines(n);
    if n != "" && !EndsWithNewline(n) { TrimSingle(n); }
  }

  // ---- what normalizing keeps ----

  /** The visible characters of a text, in order. */
  function Ink(s: string): string {
    if s == "" then "" else (if IsSpace(s[0]) then "" else [s[0]]) + Ink(s[1..])
  }

  lemma {:induction false} InkConcat(s: string, t: string)
    ensures Ink(s + t) == Ink(s) + Ink(t)
  {
    if s == "" {
      assert s + t == t;
    } else {
      assert (s + t)[1..] == s[1..] + t;
      InkConcat(s[1..], t);
    }
  }

  lemma {:induction false} InkOfSpace(s: string)
    requires forall i :: 0 <= i < |s| ==> IsSpace(s[i])
    ensures Ink(s) == ""
  {
    if s != "" { InkOfSpace(s[1..]); }
  }

  lemma InkOfTrimmed(t: string, s: string)
    requires Trimmed(t, s)
    ensures Ink(t) == Ink(s)
  {
    InkOfSpace(s[|t|..]);
    InkConcat(t, s[|t|..]);
    assert t + s[|t|..] == s;
  }

  lemma {:induction false} InkOfDropCrLf(s: string)
    ensures Ink(DropCrLf(s)) == Ink(s)
  {
    if s == "" {
    } else if s[0] == '\r' && |s| > 1 && s[1] == '\n' {
      InkOfDropCrLf(s[2..]);
      assert s[1..][1..] == s[2..];
      InkConcat("\n", DropCrLf(s[2..]));
    } else {
      InkOfDropCrLf(s[1..]);
    }
  }

  lemma {:induction false} InkOfCrToLf(s: string)
    ensures Ink(CrToLf(s)) == Ink(s)
  {
    if s != "" { InkOfCrToLf(s[1..]); }
  }

  lemma InkUnlinesCons(l: string, ls: seq<string>)
    ensures Ink(Unlines([l] + ls)) == Ink(l) + Ink(Unlines(ls))
  {
    assert ([l] + ls)[1..] == ls;
    InkConcat(l, "\n");
    InkConcat(l + "\n", Unlines(ls));
  }

  lemma {:induction false} InkOfCollapse(ls: seq<string>, run: nat)
    ensures Ink(Unlines(Collapse(ls, run))) == Ink(Unlines(ls))
  {
    if ls != [] {
      var t := TrimEnd(ls[0]);
      var run' := if t == "" then run + 1 else 0;
      InkOfCollapse(ls[1..], run');
      TrimEndTrims(ls[0]);
      InkOfTrimmed(t, ls[0]);
      assert ls == [ls[0]] + ls[1..];
      InkUnlinesCons(ls[0], ls[1..]);
      if run' <= 1 { InkUnlinesCons(t, Collapse(ls[1..], run')); }
    }
  }

  /** Normalizing never touches a visible character. */
  lemma NormalizeKeepsInk(s: string)
    ensures Ink(Normalize(s)) == Ink(s)
  {
    var flat := CrToLf(DropCrLf(s));
    InkOfDropCrLf(s);
    InkOfCrToLf(DropCrLf(s));
    UnlinesOfLines(flat);
    InkConcat(flat, "\n");
    assert Ink("\n") == "";
    InkOfCollapse(Lines(flat), 0);
    var out := Unlines(Collapse(Lines(flat), 0));
    TrimNewlinesTrims(out);
    InkOfTrimmed(TrimNewlines(out), out);
  }

  /** The normal form reached: trimmed lines, no two blank lines in a row, and a final
      newline exactly when the input had one. */
  lemma NormalizeReachesNormalForm(s: string)
    ensures NoCr(Normalize(s))
    ensures Tidy(Lines(Normalize(s)), 0)
    ensures EndsWithNewline(Normalize(s)) <==> EndsWithNewline(s)
  {
    hide Lines, Collapse, CrToLf, DropCrLf;
    UnlinesNoCr(s);
    var flat := CrToLf(DropCrLf(s));
    var c := Collapse(Lines(flat), 0);
    LinesArePlain(flat);
    CollapseStaysPlain(Lines(flat), 0);
    CollapseIsTidy(Lines(flat), 0);
    LinesOfUnlines(c);
    TrimNewlinesDropsLines(Unlines(c));
    TrimNewlinesTrims(Unlines(c));
    var n := Normalize(s);
    assert c == Lines(n) + c[|Lines(n)|..];
    TidyPrefix(Lines(n), c[|Lines(n)|..], 0);
    if EndsWithNewline(s) {
      NonEmptyFlat(s);
      CollapseKeepsFirst(Lines(flat));
      UnlinesEndsWithNewline(c);
    }
  }

  lemma CollapseKeepsFirst(ls: seq<string>)
    ensures ls != [] ==> Collapse(ls, 0) != []
  {
  }

  lemma NonEmptyFlat(s: string)
    requires s != ""
    ensures Lines(CrToLf(DropCrLf(s))) != []
  {
  }
}
