/** What the white space pass reads as lines, and which of them it keeps. */
module LineRules {
  import opened Basics
  import opened Whitespace

  // ---- lines and their endings ----

  datatype Ending = Lf | CrLf | Cr

  datatype Line = Line(text: string, ending: Ending)

  function Mark(e: Ending): string { match e case Lf => "\n" case CrLf => "\r\n" case Cr => "\r" }

  function Spelled(ls: seq<Line>, last: string): string {
    if ls == [] then last else ls[0].text + Mark(ls[0].ending) + Spelled(ls[1..], last)
  }

  predicate PlainText(s: string) { '\n' !in s && '\r' !in s }

  /** A carriage return that ends a line by itself is not followed by a newline. */
  ghost predicate Divides(ls: seq<Line>, last: string) {
    (forall k :: 0 <= k < |ls| ==> PlainText(ls[k].text)) && PlainText(last) &&
    forall k :: 0 <= k < |ls| - 1 && ls[k].ending == Cr ==> !(ls[k + 1].text == "" && ls[k + 1].ending == Lf)
  }

  function Texts(ls: seq<Line>): seq<string> { if ls == [] then [] else [ls[0].text] + Texts(ls[1..]) }

  /** The lines read: one for every ending, and one for what follows the last. */
  function ReadLines(ls: seq<Line>, last: string): seq<string> { Texts(ls) + if last == "" then [] else [last] }

  lemma {:induction false} EveryTextDivides(s: string) returns (ls: seq<Line>, last: string)
    ensures Divides(ls, last) && Spelled(ls, last) == s
  {
    if s == "" {
      ls, last := [], "";
    } else {
      ls, last := EveryTextDivides(s[1..]);
      assert s == [s[0]] + s[1..];
      if s[0] == '\n' {
        ls := PutLine(Line("", Lf), ls, last);
      } else if s[0] == '\r' {
        if ls != [] && ls[0] == Line("", Lf) {
          assert Spelled(ls, last) == "" + "\n" + Spelled(ls[1..], last);
          var rest := ls[1..];
          DividesRest(ls, last);
          ls := PutLine(Line("", CrLf), rest, last);
          assert "" + "\r\n" + Spelled(rest, last) == ['\r'] + ("" + "\n" + Spelled(rest, last));
        } else {
          ls := PutLine(Line("", Cr), ls, last);
        }
      } else if ls == [] {
        last := [s[0]] + last;
      } else {
        ls := Prepend(s[0], ls, last);
      }
    }
  }

  lemma DividesRest(ls: seq<Line>, last: string)
    requires ls != [] && Divides(ls, last)
    ensures Divides(ls[1..], last)
  {
    var rest := ls[1..];
    forall k | 0 <= k < |rest| ensures PlainText(rest[k].text) { assert rest[k] == ls[k + 1]; }
    forall k | 0 <= k < |rest| - 1 && rest[k].ending ==
        Cr ensures !(rest[k + 1].text == "" && rest[k + 1].ending == Lf) {
      assert rest[k] == ls[k + 1] && rest[k + 1] == ls[k + 1 + 1];
    }
  }

  lemma PutLine(l: Line, ls: seq<Line>, last: string) returns (all: seq<Line>)
    requires Divides(ls, last) && PlainText(l.text)
    requires l.ending == Cr && ls != [] ==> ls[0] != Line("", Lf)
    ensures all == [l] + ls && Divides(all, last) && Spelled(all, last) == l.text + Mark(l.ending) + Spelled(ls, last)
  {
    all := [l] + ls;
    assert all[1..] == ls;
    forall k | 0 <= k < |all| ensures PlainText(all[k].text) { if k > 0 { assert all[k] == ls[k - 1]; } }
    forall k | 0 <= k < |all| - 1 && all[k].ending == Cr ensures !(all[k + 1].text == "" && all[k + 1].ending == Lf) {
      assert all[k + 1] == ls[k];
      if k > 0 { assert all[k] == ls[k - 1]; }
    }
  }

  lemma Prepend(c: char, ls: seq<Line>, last: string) returns (all: seq<Line>)
    requires ls != [] && Divides(ls, last) && c != '\n' && c != '\r'
    ensures Divides(all, last) && Spelled(all, last) == [c] + Spelled(ls, last)
  {
    var first := Line([c] + ls[0].text, ls[0].ending);
    DividesRest(ls, last);
    if |ls| > 1 { assert ls[1..][0] == ls[0 + 1]; }
    all := PutLine(first, ls[1..], last);
    assert [c] + ls[0].text + Mark(first.ending) + Spelled(ls[1..], last) ==
           [c] + (ls[0].text + Mark(first.ending) + Spelled(ls[1..], last));
  }

  // ---- what the pass reads ----

  function Flat(s: string): string { CrToLf(DropCrLf(s)) }

  lemma {:induction false} FlatOfText(t: string, rest: string)
    requires PlainText(t)
    ensures Flat(t + rest) == t + Flat(rest)
  {
    if t == "" {
      assert t + rest == rest;
    } else {
      FlatOfText(t[1..], rest);
      assert (t + rest)[0] == t[0] && (t + rest)[1..] == t[1..] + rest;
      var tail := DropCrLf(t[1..] + rest);
      assert ([t[0]] + tail)[1..] == tail;
      assert t[0] in t;
    }
  }

  lemma FlatOfMark(e: Ending, rest: string)
    requires e == Cr && rest != "" ==> rest[0] != '\n'
    ensures Flat(Mark(e) + rest) == "\n" + Flat(rest)
  {
    var s := Mark(e) + rest;
    match e {
      case CrLf =>
        assert s[2..] == rest && s[0] == '\r' && s[1] == '\n';
        assert ("\n" + DropCrLf(rest))[1..] == DropCrLf(rest);
      case _ =>
        assert s[1..] == rest;
        assert ([s[0]] + DropCrLf(rest))[1..] == DropCrLf(rest);
    }
  }

  lemma FirstOfSpelled(ls: seq<Line>, last: string)
    requires Divides(ls, last)
    ensures Spelled(ls, last) != "" && Spelled(ls, last)[0] == '\n' ==> ls != [] && ls[0] == Line("", Lf)
  {
    if ls == [] {
      if last != "" { assert last[0] in last; }
    } else {
      var l := ls[0];
      assert Spelled(ls, last) == l.text + (Mark(l.ending) + Spelled(ls[1..], last));
      if l.text != "" { assert l.text[0] in l.text && Spelled(ls, last)[0] == l.text[0]; }
    }
  }

  lemma FlatStep(l: Line, rest: string)
    requires PlainText(l.text) && (l.ending == Cr && rest != "" ==> rest[0] != '\n')
    ensures Flat(l.text + Mark(l.ending) + rest) == l.text + "\n" + Flat(rest)
  {
    hide Flat, Mark;
    var mark := Mark(l.ending);
    FlatOfText(l.text, mark + rest);
    FlatOfMark(l.ending, rest);
    assert l.text + mark + rest == l.text + (mark + rest);
  }

  lemma Assoc(a: string, b: string, c: string)
    ensures a + b + c == a + (b + c)
  {
  }

  /** Whatever their endings, the lines are read apart. */
  lemma {:induction false} FlatIsUnlines(ls: seq<Line>, last: string)
    requires Divides(ls, last)
    ensures Flat(Spelled(ls, last)) == Unlines(Texts(ls)) + last
  {
    if ls == [] {
      FlatOfText(last, "");
      assert last + "" == last;
    } else {
      hide Flat, Mark, PlainText;
      var l, rest := ls[0], Spelled(ls[1..], last);
      DividesRest(ls, last);
      FlatIsUnlines(ls[1..], last);
      FirstOfSpelled(ls[1..], last);
      if |ls| > 1 { assert ls[1..][0] == ls[0 + 1]; }
      FlatStep(l, rest);
      UnlinesHead(l.text, Texts(ls[1..]));
      hide Spelled, Divides, Unlines;
      Assoc(l.text + "\n", Unlines(Texts(ls[1..])), last);
    }
  }

  lemma {:induction false} TextsArePlain(ls: seq<Line>, last: string)
    requires Divides(ls, last)
    ensures PlainLines(Texts(ls))
  {
    if ls != [] {
      DividesRest(ls, last);
      TextsArePlain(ls[1..], last);
      var t := Texts(ls);
      assert t == [ls[0].text] + Texts(ls[1..]);
      assert PlainText(ls[0].text);
    }
  }

  // ---- which lines it keeps ----

  predicate IsBlank(l: string) { forall i :: 0 <= i < |l| ==> IsSpace(l[i]) }

  /** A line goes exactly when it is blank and so is the one before it. */
  predicate Goes(ls: seq<string>, k: nat)
    requires k < |ls|
  {
    k > 0 && IsBlank(ls[k]) && IsBlank(ls[k - 1])
  }

  /** `t` is `l` up to its last character that is no space. */
  ghost predicate IsTrimmed(t: string, l: string) {
    |t| <= |l| && t == l[..|t|] && IsBlank(l[|t|..]) && (t != "" ==> !IsSpace(t[|t| - 1]))
  }

  /** `out` is the first `n` lines, each trimmed, without those that go. */
  ghost predicate Keeps(ls: seq<string>, n: nat, out: seq<string>)
    requires n <= |ls|
    decreases n
  {
    if n == 0 then out == []
    else if Goes(ls, n - 1) then Keeps(ls, n - 1, out)
    else out != [] && Keeps(ls, n - 1, out[..|out| - 1]) && IsTrimmed(out[|out| - 1], ls[n - 1])
  }

  lemma TrimIs(l: string)
    ensures IsTrimmed(TrimEnd(l), l)
    ensures TrimEnd(l) == "" <==> IsBlank(l)
  {
    TrimEndTrims(l);
    var t := TrimEnd(l);
    hide TrimEnd;
    forall i | 0 <= i < |l[|t|..]| ensures IsSpace(l[|t|..][i]) { assert l[|t|..][i] == l[|t| + i]; }
    if t == "" { assert l[0..] == l; }
    if t != "" { assert t[|t| - 1] == l[|t| - 1]; }
  }

  function RunAt(ls: seq<string>, n: nat): nat
    requires n <= |ls|
  {
    if n == 0 || !IsBlank(ls[n - 1]) then 0 else 1 + RunAt(ls, n - 1)
  }

  lemma CollapseStep(ls: seq<string>, n: nat)
    requires n < |ls|
    ensures Collapse(ls[n..], RunAt(ls, n)) ==
            (if Goes(ls, n) then [] else [TrimEnd(ls[n])]) + Collapse(ls[n + 1..], RunAt(ls, n + 1))
  {
    hide TrimEnd, IsTrimmed, IsBlank;
    TrimIs(ls[n]);
    assert ls[n..][0] == ls[n] && ls[n..][1..] == ls[n + 1..];
    var rest := Collapse(ls[n + 1..], RunAt(ls, n + 1));
    assert [] + rest == rest;
  }

  lemma {:induction false} CollapseKeeps(ls: seq<string>, n: nat, done: seq<string>)
    requires n <= |ls| && Keeps(ls, n, done)
    ensures Keeps(ls, |ls|, done + Collapse(ls[n..], RunAt(ls, n)))
    decreases |ls| - n
  {
    if n == |ls| {
      assert done + [] == done;
    } else {
      hide Collapse, TrimEnd, IsTrimmed, Goes;
      CollapseStep(ls, n);
      TrimIs(ls[n]);
      var t, rest := TrimEnd(ls[n]), Collapse(ls[n + 1..], RunAt(ls, n + 1));
      if Goes(ls, n) {
        CollapseKeeps(ls, n + 1, done);
        assert [] + rest == rest;
      } else {
        var done' := done + [t];
        assert done'[..|done'| - 1] == done;
        CollapseKeeps(ls, n + 1, done');
        assert done + ([t] + rest) == done' + rest;
      }
    }
  }

  /** For every text, however its lines end: the output is the lines read, each trimmed, without blank lines
      right after blank ones, every line ended by a newline, and all newlines at the end taken off again
      unless the input ended in one. */
  lemma NormalizeIs(ls: seq<Line>, last: string) returns (kept: seq<string>)
    requires Divides(ls, last)
    ensures var s := Spelled(ls, last);
            Keeps(ReadLines(ls, last), |ReadLines(ls, last)|, kept) &&
            Normalize(s) == (if EndsWithNewline(s) then Unlines(kept) else TrimNewlines(Unlines(kept)))
  {
    var read := ReadLines(ls, last);
    FlatIsUnlines(ls, last);
    TextsArePlain(ls, last);
    if last == "" {
      LinesOfUnlines(Texts(ls));
      assert Unlines(Texts(ls)) + "" == Unlines(Texts(ls));
      assert Texts(ls) + [] == Texts(ls);
    } else {
      LinesOfOpen(Texts(ls), last);
    }
    CollapseKeeps(read, 0, []);
    kept := Collapse(read, 0);
    assert read[0..] == read && [] + kept == kept;
  }

  lemma {:induction false} LinesOfOpen(ls: seq<string>, last: string)
    requires PlainLines(ls) && PlainText(last) && last != ""
    ensures Lines(Unlines(ls) + last) == ls + [last]
  {
    hide PlainText;
    if ls == [] {
      assert Unlines(ls) + last == last && [] + [last] == [last];
      WholeLine(last);
    } else {
      var rest := ls[1..];
      LinesOfOpen(rest, last);
      UnlinesHead(ls[0], rest);
      assert [ls[0]] + rest == ls;
      LinesOfLine(ls[0], Unlines(rest) + last);
      hide Lines, Unlines;
      Assoc(ls[0] + "\n", Unlines(rest), last);
      assert [ls[0]] + (rest + [last]) == ls + [last];
    }
  }

  lemma WholeLine(l: string)
    requires PlainText(l) && l != ""
    ensures Lines(l) == [l]
  {
    FirstNewlineStops(l);
    forall i | 0 <= i < |l| ensures l[i] != '\n' { assert l[i] in l; }
    assert l[..|l|] == l;
  }
}
