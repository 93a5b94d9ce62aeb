/** What the markup scanner reads in a document put together piece by piece. */
module Documents {
  import opened Basics
  import opened Markup

  /** A character of text, a no-break space, a comment, a tag, or a whole script or style element. */
  datatype Piece =
    | Plain(c: char)
    | NoBreak
    | Comment(text: string)
    | Mark(closing: bool, name: string, rest: string)
    | Element(script: bool, name: string, rest: string, text: string, closeName: string, closeRest: string)

  /** A character of text as an author escapes it. */
  function Escaped(c: char): (s: string)
    ensures s != ""
  {
    match c
    case '&' => "&amp;"
    case '<' => "&lt;"
    case '>' => "&gt;"
    case '"' => "&quot;"
    case '\'' => "&#39;"
    case _ => [c]
  }

  function Inner(closing: bool, name: string, rest: string): string { (if closing then "/" else "") + name + rest }

  function Bracketed(inner: string): string { "<" + inner + ">" }

  function Spelling(p: Piece): (s: string)
    ensures s != ""
  {
    match p
    case Plain(c) => Escaped(c)
    case NoBreak => "&nbsp;"
    case Comment(text) => "<!--" + text + "-->"
    case Mark(closing, name, rest) => Bracketed(Inner(closing, name, rest))
    case Element(_, name, rest, text, closeName, closeRest) =>
      Bracketed(Inner(false, name, rest)) + text + Bracketed(Inner(true, closeName, closeRest))
  }

  /** The bracketed text ends at its own `>`: no earlier one outside quotes, every quote closed, and no
      unquoted run longer than 256 bytes. */
  ghost predicate Encloses(inner: string) {
    var tag := Bracketed(inner);
    ClosesAt(tag, 1, |tag| - 1)
  }

  /** `name` is the whole name: letters and digits, and `rest` does not go on with one. */
  predicate WholeName(name: string, rest: string) {
    (forall k :: 0 <= k < |name| ==> IsAlnum(name[k])) && (rest != "" ==> !IsAlnum(rest[0]))
  }

  function Hider(script: bool): string { if script then "script" else "style" }

  /** After `<`: a letter, a slash or an exclamation mark. */
  predicate OpensTag(c: char) { 'a' <= c <= 'z' || 'A' <= c <= 'Z' || c == '/' || c == '!' }

  ghost predicate WellSpelled(p: Piece) {
    match p
    case Plain(_) => true
    case NoBreak => true
    case Comment(text) => forall j :: 0 <= j < |text| ==> !StartsAt(text + "-->", j, "-->")
    case Mark(closing, name, rest) =>
      var inner := Inner(closing, name, rest);
      inner != "" && OpensTag(inner[0]) && !StartsAt(inner, 0, "!--") && Encloses(inner) && WholeName(name, rest) &&
      (!closing ==> inner[0] != '/' && forall script :: !SameName(name, Hider(script)))
    case Element(script, name, rest, text, closeName, closeRest) =>
      SameName(name, Hider(script)) && SameName(closeName, Hider(script)) &&
      (rest != "" ==> IsTagBoundary(rest[0])) && (closeRest != "" ==> IsTagBoundary(closeRest[0])) &&
      Encloses(Inner(false, name, rest)) && Encloses(Inner(true, closeName, closeRest)) &&
      forall j :: 0 <= j < |text| ==>
        !NamedTagAt(text + Bracketed(Inner(true, closeName, closeRest)), j, "</", Hider(script))
  }

  /** What a reader sees of it. */
  function Meaning(p: Piece): Token {
    match p
    case Plain(c) => Glyph(c)
    case NoBreak => Glyph(' ')
    case Comment(_) => Hidden
    case Mark(closing, name, rest) =>
      var inner := Inner(closing, name, rest);
      Tag(name, closing, inner != "" && inner[|inner| - 1] == '/')
    case Element(_, _, _, _, _, _) => Hidden
  }

  function SpellingOf(ps: seq<Piece>): string { if ps == [] then "" else Spelling(ps[0]) + SpellingOf(ps[1..]) }

  function Meanings(ps: seq<Piece>): seq<Token> { if ps == [] then [] else [Meaning(ps[0])] + Meanings(ps[1..]) }

  // ---- reading inside a longer text ----

  lemma InPlace(s: string, i: nat, t: string)
    requires StartsAt(s, i, t)
    ensures forall k :: 0 <= k < |t| ==> s[i + k] == t[k]
  {
    forall k | 0 <= k < |t| ensures s[i + k] == t[k] { assert s[i..i + |t|][k] == s[i + k]; }
  }

  lemma SliceOfSlice(s: string, i: nat, n: nat, a: nat, b: nat)
    requires i + n <= |s| && a <= b <= n
    ensures s[i..i + n][a..b] == s[i + a..i + b]
  {
    var x, y := s[i..i + n][a..b], s[i + a..i + b];
    forall k | 0 <= k < b - a ensures x[k] == y[k] { assert x[k] == s[i..i + n][a + k]; }
  }

  lemma PartInPlace(s: string, i: nat, t: string, from: nat, part: string)
    requires StartsAt(s, i, t) && from + |part| <= |t| && t[from..from + |part|] == part
    ensures StartsAt(s, i + from, part)
  {
    SliceOfSlice(s, i, |t|, from, from + |part|);
  }

  /** Whether a text starts somewhere inside `t` can be read off `t`. */
  lemma StartsInside(s: string, i: nat, t: string, j: nat, needle: string)
    requires StartsAt(s, i, t) && j + |needle| <= |t|
    ensures StartsAt(s, i + j, needle) <==> StartsAt(t, j, needle)
  {
    SliceOfSlice(s, i, |t|, j, j + |needle|);
  }

  lemma {:induction false} LexInside(s: string, i: nat, t: string, a: nat, j: nat)
    requires StartsAt(s, i, t) && a <= j <= |t|
    ensures LexAt(s, i + a, i + j) == LexAt(t, a, j)
    decreases j
  {
    if a < j {
      LexInside(s, i, t, a, j - 1);
      InPlace(s, i, t);
      assert s[i + (j - 1)] == t[j - 1];
    }
  }

  lemma TagEndInside(s: string, i: nat, inner: string)
    requires Encloses(inner) && StartsAt(s, i, Bracketed(inner))
    ensures TagEnd(s, i + 1, 0) == Some(i + 1 + |inner|)
  {
    ClosesInside(s, i, Bracketed(inner));
    hide ClosesAt, StartsAt, TagEnd;
    TagEndIsFirstUnquoted(s, i + 1, i + 1 + |inner|);
  }

  lemma ClosesInside(s: string, i: nat, tag: string)
    requires StartsAt(s, i, tag) && |tag| >= 2 && ClosesAt(tag, 1, |tag| - 1)
    ensures ClosesAt(s, i + 1, i + |tag| - 1)
  {
    var e := i + |tag| - 1;
    LexInside(s, i, tag, 1, |tag| - 1);
    InPlace(s, i, tag);
    assert s[i + (|tag| - 1)] == '>';
    OpenInside(s, i, tag, |tag| - 1);
    hide LexAt, StillOpen;
    assert i + (|tag| - 1) == e;
  }

  lemma OpenInside(s: string, i: nat, tag: string, n: nat)
    requires StartsAt(s, i, tag) && 1 <= n <= |tag| && StillOpen(tag, 1, n)
    ensures StillOpen(s, i + 1, i + n)
  {
    hide LexAt;
    InPlace(s, i, tag);
    var from := i + 1;
    forall k | from <= k < i + n && s[k] == '>' ensures LexAt(s, from, k).quote.Some? {
      LexInside(s, i, tag, 1, k - i);
      assert s[i + (k - i)] == tag[k - i];
    }
    forall k | from <= k <= i + n ensures LexAt(s, from, k).run <= UNQUOTED_TAG_WINDOW {
      LexInside(s, i, tag, 1, k - i);
    }
  }

  lemma {:induction false} NameIsRun(t: string, n: nat)
    requires n <= |t| && (forall k :: 0 <= k < n ==> IsAlnum(t[k])) && (n < |t| ==> !IsAlnum(t[n]))
    ensures NameLength(t) == n
  {
    if n > 0 { NameIsRun(t[1..], n - 1); }
  }

  // ---- one piece ----

  lemma EntityInPlace(s: string, i: nat, e: nat)
    requires e < |ENTITIES| && StartsAt(s, i, ENTITIES[e].0)
    ensures DecodedEntity(s, i, 0) == Some((ENTITIES[e].1, |ENTITIES[e].0|))
  {
    InPlace(s, i, ENTITIES[e].0);
    EarlierEntitiesDiffer(s, i, e);
    DecodesFirst(s, i, 0, e);
  }

  lemma EarlierEntitiesDiffer(s: string, i: nat, e: nat)
    requires e < |ENTITIES| && i + 1 < |s| && s[i + 1] == ENTITIES[e].0[1]
    ensures forall d :: 0 <= d < e ==> !StartsAt(s, i, ENTITIES[d].0)
  {
    forall d | 0 <= d < e ensures !StartsAt(s, i, ENTITIES[d].0) {
      assert ENTITIES[d].0[1] != ENTITIES[e].0[1];
      if StartsAt(s, i, ENTITIES[d].0) { InPlace(s, i, ENTITIES[d].0); }
    }
  }

  lemma {:induction false} DecodesFirst(s: string, i: nat, from: nat, e: nat)
    requires from <= e < |ENTITIES| && StartsAt(s, i, ENTITIES[e].0)
    requires forall d :: from <= d < e ==> !StartsAt(s, i, ENTITIES[d].0)
    ensures DecodedEntity(s, i, from) == Some((ENTITIES[e].1, |ENTITIES[e].0|))
    decreases e - from
  {
    if from < e { DecodesFirst(s, i, from + 1, e); }
  }

  lemma PlainIsRead(s: string, i: nat, c: char)
    requires i < |s| && StartsAt(s, i, Escaped(c))
    ensures Next(s, i) == Some((Glyph(c), i + |Escaped(c)|))
  {
    hide DecodedEntity, NamedTagAt, TagEnd, SkipElement, FindText, ParseTag;
    InPlace(s, i, Escaped(c));
    if StartsAt(s, i, "<!--") { InPlace(s, i, "<!--"); }
    if c == '&' { EntityInPlace(s, i, 0); }
    else if c == '<' { EntityInPlace(s, i, 1); }
    else if c == '>' { EntityInPlace(s, i, 2); }
    else if c == '"' { EntityInPlace(s, i, 3); }
    else if c == '\'' { EntityInPlace(s, i, 4); }
    else { assert s[i] == c; }
  }

  lemma NoBreakIsRead(s: string, i: nat)
    requires i < |s| && StartsAt(s, i, "&nbsp;")
    ensures Next(s, i) == Some((Glyph(' '), i + 6))
  {
    hide DecodedEntity, NamedTagAt, TagEnd, SkipElement, FindText, ParseTag;
    InPlace(s, i, "&nbsp;");
    if StartsAt(s, i, "<!--") { InPlace(s, i, "<!--"); }
    assert s[i + 0] == '&';
    assert ENTITIES[5] == ("&nbsp;", ' ');
    EntityInPlace(s, i, 5);
  }

  lemma CommentIsRead(s: string, i: nat, text: string)
    requires i < |s| && WellSpelled(Comment(text)) && StartsAt(s, i, Spelling(Comment(text)))
    ensures Next(s, i) == Some((Hidden, i + |text| + 7))
  {
    var whole, tail := Spelling(Comment(text)), text + "-->";
    CommentParts(text);
    hide Spelling, WellSpelled, StartsAt, Next, FindText;
    PartInPlace(s, i, whole, 0, "<!--");
    PartInPlace(s, i, whole, 4, tail);
    CommentCloses(s, i, text);
    NextIsComment(s, i);
  }

  lemma CommentParts(text: string)
    ensures var whole := Spelling(Comment(text));
            |whole| == |text| + 7 && whole[0..4] == "<!--" && whole[4..] == text + "-->" &&
            whole[4..4 + (|text| + 3)] == text + "-->"
  {
    var whole := Spelling(Comment(text));
    assert whole[4..4 + (|text| + 3)] == whole[4..];
  }

  lemma CommentCloses(s: string, i: nat, text: string)
    requires WellSpelled(Comment(text)) && StartsAt(s, i + 4, text + "-->")
    ensures FindText(s, i + 4, "-->") == Some(i + 4 + |text|)
  {
    var tail := text + "-->";
    assert tail[|text|..|text| + 3] == "-->";
    FirstInside(s, i + 4, tail, |text|, "-->");
  }

  lemma NextIsComment(s: string, i: nat)
    requires i < |s| && StartsAt(s, i, "<!--")
    ensures var close := FindText(s, i + 4, "-->");
            Next(s, i) == if close.None? then None else Some((Hidden, close.value + 3))
  {
    hide StartsAt, FindText;
  }

  lemma FirstInside(s: string, i: nat, t: string, k: nat, needle: string)
    requires StartsAt(s, i, t) && k + |needle| <= |t| && needle != "" && StartsAt(t, k, needle)
    requires forall j :: 0 <= j < k ==> !StartsAt(t, j, needle)
    ensures FindText(s, i, needle) == Some(i + k)
  {
    StartsInside(s, i, t, k, needle);
    forall j | i <= j < i + k ensures !StartsAt(s, j, needle) { StartsInside(s, i, t, j - i, needle); }
    FindFirst(s, i, i + k, needle);
  }

  lemma FindFirst(s: string, i: nat, k: nat, needle: string)
    requires i <= k < |s| && StartsAt(s, k, needle) && forall j :: i <= j < k ==> !StartsAt(s, j, needle)
    ensures FindText(s, i, needle) == Some(k)
  {
    hide StartsAt, FindText;
    var found := FindText(s, i, needle);
    assert found.None? ==> false;
  }

  lemma NamedTagMeans(s: string, i: nat, script: bool)
    ensures var n := |Hider(script)|;
            NamedTagAt(s, i, "<", Hider(script)) ==>
              i + 1 + n <= |s| &&
              (forall k :: 0 <= k < n ==> IsLetter(s[i + 1 + k]) && Lower(s[i + 1 + k]) == Hider(script)[k]) &&
              (i + 1 + n < |s| ==> !IsAlnum(s[i + 1 + n]))
  {
    var n := |Hider(script)|;
    if NamedTagAt(s, i, "<", Hider(script)) {
      var found := s[i + 1..i + 1 + n];
      forall k | 0 <= k < n ensures IsLetter(s[i + 1 + k]) && Lower(s[i + 1 + k]) == Hider(script)[k] {
        assert s[i + 1 + k] == found[k];
        assert Lower(found[k]) == Lower(Hider(script)[k]) == Hider(script)[k];
      }
    }
  }

  /** A tag of another name, or a closing one, does not open a hidden element. */
  lemma NotHiding(s: string, i: nat, closing: bool, name: string, rest: string, script: bool)
    requires StartsAt(s, i, Bracketed(Inner(closing, name, rest))) && WholeName(name, rest)
    requires !closing ==> !SameName(name, Hider(script))
    ensures !NamedTagAt(s, i, "<", Hider(script))
  {
    hide NamedTagAt;
    var n := |Hider(script)|;
    NamedTagMeans(s, i, script);
    CharsOfTag(s, i, closing, name, rest);
    if closing {
      assert s[i + 1] == '/';
      assert !IsLetter(s[i + 1 + 0]);
    } else if |name| == n {
      var k :| 0 <= k < n && Lower(name[k]) != Lower(Hider(script)[k]);
      assert Lower(Hider(script)[k]) == Hider(script)[k];
      assert s[i + 1 + k] == name[k];
    } else if |name| < n {
      assert !IsLetter(s[i + 1 + |name|]) && Hider(script)[|name|] in Hider(script);
    } else {
      assert IsAlnum(s[i + 1 + n]) by { assert s[i + 1 + n] == name[n]; }
    }
  }

  /** The characters of a tag in place. */
  lemma CharsOfTag(s: string, i: nat, closing: bool, name: string, rest: string)
    requires StartsAt(s, i, Bracketed(Inner(closing, name, rest))) && WholeName(name, rest)
    ensures var from := i + 1 + if closing then 1 else 0;
            from + |name| + |rest| == i + 1 + |Inner(closing, name, rest)| < |s| && (closing ==> s[i + 1] == '/') &&
            (forall k :: 0 <= k < |name| ==> s[from + k] == name[k] && IsAlnum(name[k])) &&
            !IsAlnum(s[from + |name|])
    ensures var inner := Inner(closing, name, rest);
            inner != "" ==> s[i + 1] == inner[0] && s[i + |inner|] == inner[|inner| - 1]
  {
    var inner, skip := Inner(closing, name, rest), if closing then 1 else 0;
    var tag := Bracketed(inner);
    InPlace(s, i, tag);
    forall k | 0 <= k < |inner| ensures s[i + 1 + k] == inner[k] { assert s[i + (1 + k)] == tag[1 + k]; }
    assert s[i + (1 + |inner|)] == tag[1 + |inner|];
    forall k | 0 <= k < |name| ensures s[i + 1 + skip + k] == name[k] {
      assert s[i + 1 + (skip + k)] == inner[skip + k];
    }
    if rest != "" { assert s[i + 1 + (skip + |name|)] == inner[skip + |name|] == rest[0]; }
    if inner != "" { assert s[i + 1 + 0] == inner[0] && s[i + 1 + (|inner| - 1)] == inner[|inner| - 1]; }
  }

  lemma NoCommentHere(s: string, i: nat, inner: string)
    requires StartsAt(s, i, Bracketed(inner)) && !StartsAt(inner, 0, "!--")
    ensures !StartsAt(s, i, "<!--")
  {
    var tag := Bracketed(inner);
    InPlace(s, i, tag);
    assert s[i + (1 + |inner|)] == '>';
    if |inner| >= 3 {
      assert inner[0..3] == [inner[0], inner[1], inner[2]];
      assert s[i + 1] == tag[1] == inner[0] && s[i + 2] == tag[2] == inner[1] && s[i + 3] == tag[3] == inner[2];
    }
    if StartsAt(s, i, "<!--") { InPlace(s, i, "<!--"); }
  }

  lemma NextIsTag(s: string, i: nat, end: nat)
    requires i + 2 < end + 1 <= |s| && s[i] == '<' && StartsTag(s[i + 1]) && !StartsAt(s, i, "<!--")
    requires TagEnd(s, i + 1, 0) == Some(end)
    ensures !NamedTagAt(s, i, "<", "script") && !NamedTagAt(s, i, "<", "style") ==>
              Next(s, i) == Some((ParseTag(s, i, end), end + 1))
    ensures NamedTagAt(s, i, "<", "script") ==>
              Next(s, i) == (match SkipElement(s, end, "script") case None => None case Some(n) => Some((Hidden, n)))
    ensures NamedTagAt(s, i, "<", "style") && !NamedTagAt(s, i, "<", "script") ==>
              Next(s, i) == (match SkipElement(s, end, "style") case None => None case Some(n) => Some((Hidden, n)))
  {
    hide StartsAt, TagEnd, NamedTagAt, SkipElement, ParseTag;
  }

  lemma MarkIsRead(s: string, i: nat, closing: bool, name: string, rest: string)
    requires i < |s| && WellSpelled(Mark(closing, name, rest)) && StartsAt(s, i, Spelling(Mark(closing, name, rest)))
    ensures Next(s, i) == Some((Meaning(Mark(closing, name, rest)), i + |Spelling(Mark(closing, name, rest))|))
  {
    hide Next, NamedTagAt, SkipElement, TagEnd, Encloses, ParseTag, StartsAt, WellSpelled, Spelling, WholeName, Meaning;
    var inner := Inner(closing, name, rest);
    MarkMeans(closing, name, rest);
    MarkStarts(s, i, inner);
    TagEndInside(s, i, inner);
    NoCommentHere(s, i, inner);
    NotHiding(s, i, closing, name, rest, true);
    NotHiding(s, i, closing, name, rest, false);
    NextIsTag(s, i, i + 1 + |inner|);
    TagIsParsed(s, i, closing, name, rest);
  }

  lemma MarkMeans(closing: bool, name: string, rest: string)
    requires WellSpelled(Mark(closing, name, rest))
    ensures var inner := Inner(closing, name, rest);
            inner != "" && StartsTag(inner[0]) && !StartsAt(inner, 0, "!--") && Encloses(inner) &&
            WholeName(name, rest) && Spelling(Mark(closing, name, rest)) == Bracketed(inner) &&
            (!closing ==> inner[0] != '/' && !SameName(name, Hider(true)) && !SameName(name, Hider(false)))
  {
  }

  lemma MarkStarts(s: string, i: nat, inner: string)
    requires StartsAt(s, i, Bracketed(inner)) && inner != ""
    ensures i + 1 + |inner| < |s| && s[i] == '<' && s[i + 1] == inner[0]
  {
    InPlace(s, i, Bracketed(inner));
    assert s[i + 0] == Bracketed(inner)[0] == '<' && s[i + 1] == Bracketed(inner)[1] == inner[0];
  }

  lemma TagIsParsed(s: string, i: nat, closing: bool, name: string, rest: string)
    requires StartsAt(s, i, Bracketed(Inner(closing, name, rest))) && Inner(closing, name, rest) != ""
    requires WholeName(name, rest) && (!closing ==> Inner(closing, name, rest)[0] != '/')
    ensures i + 1 + |Inner(closing, name, rest)| < |s|
    ensures ParseTag(s, i, i + 1 + |Inner(closing, name, rest)|) == Meaning(Mark(closing, name, rest))
  {
    hide StartsAt, NameLength, IsAlnum, Inner, Bracketed, WholeName;
    var inner := Inner(closing, name, rest);
    var from, end := i + 1 + (if closing then 1 else 0), i + 1 + |inner|;
    CharsOfTag(s, i, closing, name, rest);
    NameRead(s, from, end, name);
    assert s[i + |inner|] == s[end - 1];
  }

  lemma NameRead(s: string, from: nat, end: nat, name: string)
    requires from + |name| <= end < |s| && !IsAlnum(s[from + |name|])
    requires forall k :: 0 <= k < |name| ==> s[from + k] == name[k] && IsAlnum(name[k])
    ensures NameLength(s[from..end]) == |name| && s[from..from + |name|] == name
  {
    hide IsAlnum;
    var run := s[from..end];
    forall k | 0 <= k < |name| ensures IsAlnum(run[k]) && s[from..from + |name|][k] == name[k] {
      assert run[k] == s[from + k] == name[k] && IsAlnum(name[k]);
    }
    NameIsRun(run, |name|);
  }

  // ---- hidden elements ----

  /** Whether a closing tag starts inside `t` can be read off `t` when one character more of it is there. */
  lemma NamedInside(s: string, i: nat, t: string, j: nat, name: string)
    requires StartsAt(s, i, t) && j + 2 + |name| < |t|
    ensures NamedTagAt(s, i + j, "</", name) <==> NamedTagAt(t, j, "</", name)
  {
    hide SameName;
    StartsInside(s, i, t, j, "</");
    SliceOfSlice(s, i, |t|, j + 2, j + 2 + |name|);
    InPlace(s, i, t);
    assert s[i + (j + 2 + |name|)] == t[j + 2 + |name|];
  }

  lemma FirstClosing(s: string, i: nat, k: nat, name: string)
    requires i <= k < |s| && NamedTagAt(s, k, "</", name)
    requires forall j :: i <= j < k ==> !NamedTagAt(s, j, "</", name)
    ensures ClosingTag(s, i, name) == Some(k)
  {
    hide NamedTagAt, ClosingTag;
    var found := ClosingTag(s, i, name);
    assert found.None? ==> false;
  }

  lemma ClosesItself(closeName: string, closeRest: string, name: string)
    requires SameName(closeName, name) && (closeRest != "" ==> IsTagBoundary(closeRest[0]))
    ensures NamedTagAt(Bracketed(Inner(true, closeName, closeRest)), 0, "</", name)
    ensures |Bracketed(Inner(true, closeName, closeRest))| > 2 + |name|
  {
    var tag, n := Bracketed(Inner(true, closeName, closeRest)), |name|;
    assert tag[0..2] == "</" && tag[2..2 + n] == closeName;
    assert tag[2 + n] == if closeRest == "" then '>' else closeRest[0];
  }

  lemma OpensHidden(s: string, i: nat, script: bool, name: string, rest: string)
    requires StartsAt(s, i, Bracketed(Inner(false, name, rest))) && SameName(name, Hider(script))
    requires rest != "" ==> IsTagBoundary(rest[0])
    ensures NamedTagAt(s, i, "<", Hider(script))
    ensures i + 1 < |s| && s[i] == '<' && IsLetter(s[i + 1]) && WholeName(name, rest)
  {
    var n := |name|;
    forall k | 0 <= k < n ensures IsLetter(name[k]) { assert Lower(name[k]) == Lower(Hider(script)[k]); }
    assert WholeName(name, rest);
    CharsOfTag(s, i, false, name, rest);
    assert s[i + 1..i + 1 + n] == name;
    AfterName(s, i, name, rest);
    hide StartsAt;
    assert s[i + 1 + 0] == name[0];
    assert StartsAt(s, i, "<") by { OneAt(s, i, '<'); }
  }

  lemma AfterName(s: string, i: nat, name: string, rest: string)
    requires StartsAt(s, i, Bracketed(Inner(false, name, rest))) && (rest != "" ==> IsTagBoundary(rest[0]))
    ensures i + 1 + |name| < |s| && IsTagBoundary(s[i + 1 + |name|]) && s[i] == '<'
  {
    var tag := Bracketed(Inner(false, name, rest));
    InPlace(s, i, tag);
    assert s[i + 0] == tag[0];
    assert tag[1 + |name|] == if rest == "" then '>' else rest[0];
    assert s[i + (1 + |name|)] == tag[1 + |name|];
  }

  lemma OneAt(s: string, i: nat, c: char)
    requires i < |s| && s[i] == c
    ensures StartsAt(s, i, [c])
  {
  }

  lemma SkipsElement(s: string, from: nat, text: string, inner: string, name: string)
    requires from >= 1 && StartsAt(s, from, text + Bracketed(inner)) && Encloses(inner)
    requires |Bracketed(inner)| > 2 + |name| && NamedTagAt(Bracketed(inner), 0, "</", name)
    requires forall j :: 0 <= j < |text| ==> !NamedTagAt(text + Bracketed(inner), j, "</", name)
    ensures SkipElement(s, from - 1, name) == Some(from + |text| + |Bracketed(inner)|)
  {
    hide NamedTagAt, ClosingTag, TagEnd, Encloses;
    var tag := Bracketed(inner);
    var t := text + tag;
    forall j | from <= j < from +
        |text| ensures !NamedTagAt(s, j, "</", name) { NamedInside(s, from, t, j - from, name); }
    assert t[|text|..|text| + |tag|] == tag;
    PartInPlace(s, from, t, |text|, tag);
    NamedInside(s, from + |text|, tag, 0, name);
    FirstClosing(s, from, from + |text|, name);
    TagEndInside(s, from + |text|, inner);
  }

  lemma ElementIsRead(
    s: string, i: nat, script: bool, name: string, rest: string, text: string, closeName: string, closeRest: string)
    requires i < |s| && WellSpelled(Element(script, name, rest, text, closeName, closeRest))
    requires StartsAt(s, i, Spelling(Element(script, name, rest, text, closeName, closeRest)))
    ensures Next(s, i) ==
            Some((Hidden, i + |Spelling(Element(script, name, rest, text, closeName, closeRest))|))
  {
    hide StartsAt, NamedTagAt, SkipElement, TagEnd, Encloses, ParseTag, Next, Spelling, SameName, Inner;
    var inner, inner' := Inner(false, name, rest), Inner(true, closeName, closeRest);
    var tag, tail := Bracketed(inner), text + Bracketed(inner');
    ElementMeans(script, name, rest, text, closeName, closeRest);
    hide WellSpelled;
    ElementParts(s, i, script, name, rest, text, closeName, closeRest);
    TagEndInside(s, i, inner);
    OpensHidden(s, i, script, name, rest);
    ClosesItself(closeName, closeRest, Hider(script));
    SkipsElement(s, i + |tag|, text, inner', Hider(script));
    if !script { StyleIsNotScript(s, i, name, rest); }
    NoCommentBeforeLetter(s, i);
    NextIsTag(s, i, i + 1 + |inner|);
  }

  lemma ElementMeans(script: bool, name: string, rest: string, text: string, closeName: string, closeRest: string)
    requires WellSpelled(Element(script, name, rest, text, closeName, closeRest))
    ensures var inner' := Inner(true, closeName, closeRest);
            SameName(name, Hider(script)) && SameName(closeName, Hider(script)) &&
            (rest != "" ==> IsTagBoundary(rest[0])) && (closeRest != "" ==> IsTagBoundary(closeRest[0])) &&
            Encloses(Inner(false, name, rest)) && Encloses(inner') &&
            forall j :: 0 <= j < |text| ==> !NamedTagAt(text + Bracketed(inner'), j, "</", Hider(script))
  {
  }

  lemma ElementParts(
    s: string, i: nat, script: bool, name: string, rest: string, text: string, closeName: string, closeRest: string)
    requires StartsAt(s, i, Spelling(Element(script, name, rest, text, closeName, closeRest)))
    ensures var tag, tail := Bracketed(Inner(false, name, rest)), text + Bracketed(Inner(true, closeName, closeRest));
            StartsAt(s, i, tag) && StartsAt(s, i + |tag|, tail) &&
            |Spelling(Element(script, name, rest, text, closeName, closeRest))| == |tag| + |tail|
  {
    var tag, tail := Bracketed(Inner(false, name, rest)), text + Bracketed(Inner(true, closeName, closeRest));
    var whole := Spelling(Element(script, name, rest, text, closeName, closeRest));
    hide Bracketed;
    assert whole == tag + tail;
    hide Spelling;
    assert whole[0..0 + |tag|] == tag && whole[|tag|..|tag| + |tail|] == tail;
    PartInPlace(s, i, whole, 0, tag);
    PartInPlace(s, i, whole, |tag|, tail);
  }

  lemma StyleIsNotScript(s: string, i: nat, name: string, rest: string)
    requires StartsAt(s, i, Bracketed(Inner(false, name, rest))) && SameName(name, "style") && WholeName(name, rest)
    ensures !NamedTagAt(s, i, "<", "script")
  {
    NotHiding(s, i, false, name, rest, true);
  }

  lemma NoCommentBeforeLetter(s: string, i: nat)
    requires i + 1 < |s| && IsLetter(s[i + 1])
    ensures !StartsAt(s, i, "<!--")
  {
    if StartsAt(s, i, "<!--") { InPlace(s, i, "<!--"); }
  }

  // ---- whole documents ----

  lemma PieceIsRead(s: string, i: nat, p: Piece)
    requires i < |s| && WellSpelled(p) && StartsAt(s, i, Spelling(p))
    ensures Next(s, i) == Some((Meaning(p), i + |Spelling(p)|))
  {
    hide Next, StartsAt, WellSpelled;
    match p {
      case Plain(c) => PlainIsRead(s, i, c);
      case NoBreak => NoBreakIsRead(s, i);
      case Comment(text) => CommentIsRead(s, i, text);
      case Mark(closing, name, rest) => MarkIsRead(s, i, closing, name, rest);
      case Element(script, name, rest, text, closeName, closeRest) =>
        ElementIsRead(s, i, script, name, rest, text, closeName, closeRest);
    }
  }

  lemma {:induction false} RestIsRead(s: string, i: nat, ps: seq<Piece>)
    requires i <= |s| && s[i..] == SpellingOf(ps) && forall k :: 0 <= k < |ps| ==> WellSpelled(ps[k])
    ensures Tokens(s, i) == Some(Meanings(ps))
    decreases |ps|
  {
    hide Next, WellSpelled, Spelling, Meaning;
    if ps != [] {
      var piece := Spelling(ps[0]);
      assert s[i..][..|piece|] == piece && s[i..][|piece|..] == SpellingOf(ps[1..]);
      assert s[i..i + |piece|] == s[i..][..|piece|] && s[i + |piece|..] == s[i..][|piece|..];
      PieceIsRead(s, i, ps[0]);
      RestIsRead(s, i + |piece|, ps[1..]);
    }
  }

  /** Every document is read as the pieces it was put together from: escaped text as the characters meant,
      a no-break space as a space, each tag as one, comments and script and style elements not at all. */
  lemma DocumentIsRead(ps: seq<Piece>)
    requires forall k :: 0 <= k < |ps| ==> WellSpelled(ps[k])
    ensures Tokens(SpellingOf(ps), 0) == Some(Meanings(ps))
  {
    var s := SpellingOf(ps);
    assert s[0..] == s;
    RestIsRead(s, 0, ps);
  }

  function Escape(t: string): string { if t == "" then "" else Escaped(t[0]) + Escape(t[1..]) }

  function Plains(t: string): seq<Piece> { if t == "" then [] else [Plain(t[0])] + Plains(t[1..]) }

  lemma {:induction false} EscapeIsPieces(t: string)
    ensures SpellingOf(Plains(t)) == Escape(t) && Glyphs(Meanings(Plains(t))) == t && |Meanings(Plains(t))| == |t|
    ensures forall k :: 0 <= k < |Plains(t)| ==> WellSpelled(Plains(t)[k])
  {
    hide Escaped;
    if t != "" {
      EscapeIsPieces(t[1..]);
      var rest := Plains(t[1..]);
      assert ([Plain(t[0])] + rest)[1..] == rest;
      assert ([Glyph(t[0])] + Meanings(rest))[1..] == Meanings(rest);
      assert t == [t[0]] + t[1..];
    }
  }

  /** Escaping and reading any text gives it back. */
  lemma EscapeRoundTrips(t: string)
    ensures Tokens(Escape(t), 0).Some? && |Tokens(Escape(t), 0).value| == |t| &&
            Glyphs(Tokens(Escape(t), 0).value) == t
  {
    EscapeIsPieces(t);
    DocumentIsRead(Plains(t));
  }

  /** An `&` that begins none of the six entities, and a `<` that no letter, slash or exclamation mark
      follows, stand for themselves; a `<` at the very end is malformed. */
  lemma LoneSignsStand(s: string, i: nat)
    requires i < |s|
    ensures s[i] == '&' && !StartsAt(s, i, "&amp;") && !StartsAt(s, i, "&lt;") && !StartsAt(s, i, "&gt;") &&
            !StartsAt(s, i, "&quot;") && !StartsAt(s, i, "&#39;") && !StartsAt(s, i, "&nbsp;") ==>
              Next(s, i) == Some((Glyph('&'), i + 1))
    ensures s[i] == '<' && i + 1 < |s| && !IsLetter(s[i + 1]) && s[i + 1] != '/' && s[i + 1] != '!' ==>
              Next(s, i) == Some((Glyph('<'), i + 1))
    ensures s[i] == '<' && i + 1 == |s| ==> Next(s, i) == None
  {
    hide NamedTagAt, SkipElement, TagEnd, ParseTag, FindText;
    if StartsAt(s, i, "<!--") { InPlace(s, i, "<!--"); }
    if s[i] == '&' { NoEntity(s, i, 0); }
  }

  lemma {:induction false} NoEntity(s: string, i: nat, e: nat)
    requires e <= 6
    ensures |ENTITIES| == 6
    ensures (forall d :: e <= d < 6 ==> !StartsAt(s, i, ENTITIES[d].0)) ==> DecodedEntity(s, i, e) == None
    decreases 6 - e
  {
    hide StartsAt;
    if e < 6 { NoEntity(s, i, e + 1); }
  }

  // ---- malformed markup ----

  ghost predicate TagSpans(s: string, i: nat, e: nat)
    requires i < |s|
  {
    ClosesAt(s, i + 1, e)
  }

  /** The tag opened at `i` closes at `e`, and opens a hidden element of that name. */
  ghost predicate HidesFrom(s: string, i: nat, e: nat, name: string)
    requires i < |s|
  {
    TagSpans(s, i, e) && NamedTagAt(s, i, "<", name)
  }

  /** The first closing tag of that name after `e` is at `k` and closes at `e'`. */
  ghost predicate HidesTo(s: string, e: nat, name: string, k: nat, e': nat) {
    e < k < |s| && NamedTagAt(s, k, "</", name) && (forall j :: e < j < k ==> !NamedTagAt(s, j, "</", name)) &&
    TagSpans(s, k, e')
  }

  /** An unclosed comment or tag, a script or style element that never ends, or a last lone `<`. */
  ghost predicate Malformed(s: string, i: nat)
    requires i < |s|
  {
    if StartsAt(s, i, "<!--") then forall j :: i + 4 <= j < |s| ==> !StartsAt(s, j, "-->")
    else if s[i] != '<' then false
    else if i + 1 == |s| then true
    else if !OpensTag(s[i + 1]) then false
    else
      (forall e :: !TagSpans(s, i, e)) ||
      exists e, script :: HidesFrom(s, i, e, Hider(script)) &&
                          forall k, e' :: !HidesTo(s, e, Hider(script), k, e')
  }

  lemma TagEndNone(s: string, i: nat)
    requires i < |s|
    ensures TagEnd(s, i + 1, 0) == None <==> forall e :: !TagSpans(s, i, e)
    ensures forall e: nat :: TagSpans(s, i, e) <==> TagEnd(s, i + 1, 0) == Some(e)
  {
    hide ClosesAt;
    forall e: nat ensures TagEnd(s, i + 1, 0) == Some(e) <==> TagSpans(s, i, e) { TagEndIsFirstUnquoted(s, i + 1, e); }
  }

  lemma SkipNone(s: string, e: nat, name: string)
    requires e < |s|
    ensures SkipElement(s, e, name) == None <==> forall k, e' :: !HidesTo(s, e, name, k, e')
  {
    hide TagSpans, NamedTagAt, ClosingTag, TagEnd;
    var close := ClosingTag(s, e + 1, name);
    forall k: nat, e' | HidesTo(s, e, name, k, e') ensures close == Some(k) { FirstClosing(s, e + 1, k, name); }
    if close.Some? {
      TagEndNone(s, close.value);
      if e': nat :| TagSpans(s, close.value, e') { assert HidesTo(s, e, name, close.value, e'); }
    }
  }

  /** Scanning stops exactly there. */
  lemma MalformedIff(s: string, i: nat)
    requires i < |s|
    ensures Next(s, i) == None <==> Malformed(s, i)
  {
    hide TagSpans, NamedTagAt, TagEnd, SkipElement, DecodedEntity, ParseTag, StartsAt, FindText, HidesTo;
    if s[i] == '<' && i + 1 < |s| && StartsTag(s[i + 1]) && !StartsAt(s, i, "<!--") {
      TagEndNone(s, i);
      var end := TagEnd(s, i + 1, 0);
      if end.Some? {
        SkipNone(s, end.value, "script");
        SkipNone(s, end.value, "style");
        NotBoth(s, i);
        assert forall e, script :: HidesFrom(s, i, e, Hider(script)) ==> e == end.value;
        assert NamedTagAt(s, i, "<", "script") ==> HidesFrom(s, i, end.value, Hider(true));
        assert NamedTagAt(s, i, "<", "style") ==> HidesFrom(s, i, end.value, Hider(false));
      }
    }
  }

  lemma NotBoth(s: string, i: nat)
    ensures !(NamedTagAt(s, i, "<", "script") && NamedTagAt(s, i, "<", "style"))
  {
    NamedTagMeans(s, i, true);
    NamedTagMeans(s, i, false);
    hide NamedTagAt;
    assert Hider(true)[1] == 'c' && Hider(false)[1] == 't';
  }

  // ---- the tags that part the text ----

  const BLOCKS := ["p", "div", "li", "tr", "table", "ul", "ol", "h1", "h2", "h3", "h4", "h5", "h6", "section",
                   "article", "header", "footer", "pre", "blockquote"]

  predicate IsCell(name: string) { SameName(name, "td") || SameName(name, "th") }

  predicate IsBlock(name: string) { exists k :: 0 <= k < |BLOCKS| && SameName(name, BLOCKS[k]) }

  /** A line break tag breaks the line wherever it stands; a cell or block does when it closes. */
  lemma SeparatorTable(t: Token)
    requires t.Tag?
    ensures SeparatorOf(t) ==
            if SameName(t.name, "br") then Some(Newline)
            else if !t.closing && !t.selfClosing then None
            else if IsCell(t.name) then Some(Space)
            else if IsBlock(t.name) then Some(Newline)
            else None
    ensures IsPre(t) <==> SameName(t.name, "pre") || SameName(t.name, "code")
  {
    hide SameName;
    assert CELL_TAGS[0] == "td" && CELL_TAGS[1] == "th" && BLOCK_TAGS[13] == "br";
    if k :| 0 <= k < |BLOCKS| && SameName(t.name, BLOCKS[k]) {
      assert BLOCK_TAGS[if k < 13 then k else k + 1] == BLOCKS[k];
    }
    if k :| 0 <= k < |BLOCK_TAGS| && SameName(t.name, BLOCK_TAGS[k]) && k != 13 {
      assert BLOCKS[if k < 13 then k else k - 1] == BLOCK_TAGS[k];
    }
  }
}
