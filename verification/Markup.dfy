/** Pass I: stripping HTML markup from a leaf. Every character the scanner tests for is ASCII, so the
    model walks scalar values and weighs them in UTF-8 bytes. */
module Markup {
  import opened Basics
  import opened Whitespace

  // ---- lexical rules ----

  const UNQUOTED_TAG_WINDOW := 256

  const BLOCK_TAGS := ["p", "div", "li", "tr", "table", "ul", "ol", "h1", "h2", "h3", "h4", "h5", "h6", "br",
                       "section", "article", "header", "footer", "pre", "blockquote"]

  const CELL_TAGS := ["td", "th"]

  predicate IsLetter(c: char) { 'a' <= c <= 'z' || 'A' <= c <= 'Z' }

  predicate IsAlnum(c: char) { IsLetter(c) || '0' <= c <= '9' }

  /** What makes a `<` open a tag rather than stand for itself. */
  predicate StartsTag(c: char) { IsLetter(c) || c == '/' || c == '!' }

  function Lower(c: char): char { if 'A' <= c <= 'Z' then (c as int + 32) as char else c }

  predicate SameName(a: string, b: string) {
    |a| == |b| && forall i :: 0 <= i < |a| ==> Lower(a[i]) == Lower(b[i])
  }

  predicate StartsAt(s: string, i: nat, needle: string) { i + |needle| <= |s| && s[i..i + |needle|] == needle }

  /** Where a tag name ends for the matcher of script and style tags. */
  predicate IsTagBoundary(c: char) { c in " \t\n\U{0c}\r" || c == '/' || c == '>' }

  predicate NamedTagAt(s: string, i: nat, prefix: string, name: string) {
    var from := i + |prefix|;
    var to := from + |name|;
    StartsAt(s, i, prefix) && to <= |s| && SameName(s[from..to], name) && (to < |s| ==> IsTagBoundary(s[to]))
  }

  function FindChar(s: string, i: nat, c: char): (k: Option<nat>)
    ensures k.Some? ==> i <= k.value < |s| && s[k.value] == c && c !in s[i..k.value]
    ensures k.None? && i <= |s| ==> c !in s[i..]
    decreases |s| - i
  {
    if i >= |s| then None
    else if s[i] == c then Some(i)
    else
      var k := FindChar(s, i + 1, c);
      assert s[i..] == [s[i]] + s[i + 1..];
      assert k.Some? ==> s[i..k.value] == [s[i]] + s[i + 1..k.value];
      k
  }

  function FindText(s: string, i: nat, needle: string): (k: Option<nat>)
    ensures k.Some? ==> i <= k.value && StartsAt(s, k.value, needle)
    ensures forall j :: i <= j < (if k.Some? then k.value else |s|) ==> !StartsAt(s, j, needle)
    decreases |s| - i
  {
    if i >= |s| then None else if StartsAt(s, i, needle) then Some(i) else FindText(s, i + 1, needle)
  }

  function NameLength(s: string): (n: nat)
    ensures n <= |s|
  {
    if s == "" || !IsAlnum(s[0]) then 0 else 1 + NameLength(s[1..])
  }

  /** The `>` closing a tag, seen from position `i` with `run` unquoted bytes behind it. */
  function TagEnd(s: string, i: nat, run: nat): (e: Option<nat>)
    ensures e.Some? ==> i <= e.value < |s| && s[e.value] == '>'
    decreases |s| - i
  {
    if i >= |s| then None
    else if s[i] == '>' then Some(i)
    else if s[i] == '"' || s[i] == '\'' then
      var quote := FindChar(s, i + 1, s[i]);
      if quote.None? then None else TagEnd(s, quote.value + 1, 0)
    else if run + Utf8Len(s[i]) > UNQUOTED_TAG_WINDOW then None
    else TagEnd(s, i + 1, run + Utf8Len(s[i]))
  }

  /** The first closing tag of that name at or after `i`. */
  function ClosingTag(s: string, i: nat, name: string): (k: Option<nat>)
    ensures k.Some? ==> i <= k.value < |s| && NamedTagAt(s, k.value, "</", name)
    ensures forall j :: i <= j < (if k.Some? then k.value else |s|) ==> !NamedTagAt(s, j, "</", name)
    decreases |s| - i
  {
    if i >= |s| then None else if NamedTagAt(s, i, "</", name) then Some(i) else ClosingTag(s, i + 1, name)
  }

  const ENTITIES: seq<(string, char)> :=
    [("&amp;", '&'), ("&lt;", '<'), ("&gt;", '>'), ("&quot;", '"'), ("&#39;", '\''), ("&nbsp;", ' ')]

  function DecodedEntity(s: string, i: nat, e: nat): (d: Option<(char, nat)>)
    requires e <= |ENTITIES|
    ensures d.Some? ==> i + d.value.1 <= |s| && d.value.1 >= 4 && Utf8Len(d.value.0) == 1
    decreases |ENTITIES| - e
  {
    if e == |ENTITIES| then None
    else if StartsAt(s, i, ENTITIES[e].0) then Some((ENTITIES[e].1, |ENTITIES[e].0|))
    else DecodedEntity(s, i, e + 1)
  }

  // ---- tokens ----

  datatype Token = Glyph(c: char) | Tag(name: string, closing: bool, selfClosing: bool) | Hidden

  function ParseTag(s: string, start: nat, end: nat): (t: Token)
    requires start + 1 < end < |s|
    ensures t.Tag?
  {
    var closing := s[start + 1] == '/';
    var from := start + 1 + if closing then 1 else 0;
    Tag(s[from..from + NameLength(s[from..end])], closing, s[end - 1] == '/')
  }

  /** A script or style element from its opening tag on: where the text after it starts. */
  function SkipElement(s: string, tagEnd: nat, name: string): (next: Option<nat>)
    requires tagEnd < |s|
    ensures next.Some? ==> tagEnd < next.value <= |s|
  {
    var close := ClosingTag(s, tagEnd + 1, name);
    if close.None? then None
    else
      var end := TagEnd(s, close.value + 1, 0);
      if end.None? then None else Some(end.value + 1)
  }

  /** The token at `i` and the index after it; nothing when the markup is malformed there. */
  function Next(s: string, i: nat): (t: Option<(Token, nat)>)
    requires i < |s|
    ensures t.Some? ==> i < t.value.1 <= |s|
  {
    if StartsAt(s, i, "<!--") then
      var close := FindText(s, i + 4, "-->");
      if close.None? then None else Some((Hidden, close.value + 3))
    else if s[i] == '<' && i + 1 == |s| then None
    else if s[i] == '<' && StartsTag(s[i + 1]) then
      var end := TagEnd(s, i + 1, 0);
      if end.None? then None
      else if NamedTagAt(s, i, "<", "script") then
        var next := SkipElement(s, end.value, "script");
        if next.None? then None else Some((Hidden, next.value))
      else if NamedTagAt(s, i, "<", "style") then
        var next := SkipElement(s, end.value, "style");
        if next.None? then None else Some((Hidden, next.value))
      else
        Some((ParseTag(s, i, end.value), end.value + 1))
    else if s[i] == '&' && DecodedEntity(s, i, 0).Some? then
      var (c, width) := DecodedEntity(s, i, 0).value;
      Some((Glyph(c), i + width))
    else Some((Glyph(s[i]), i + 1))
  }

  function Tokens(s: string, i: nat): Option<seq<Token>>
    requires i <= |s|
    decreases |s| - i
  {
    if i == |s| then Some([])
    else if Next(s, i).None? then None
    else
      var (t, next) := Next(s, i).value;
      var rest := Tokens(s, next);
      if rest.None? then None else Some([t] + rest.value)
  }

  // ---- the renderer ----

  datatype Separator = Space | Newline

  datatype Page = Page(out: string, trailing: nat, pending: Option<Separator>, depth: nat)

  const BLANK_PAGE := Page("", 0, None, 0)

  function Written(p: Page, c: char): Page {
    p.(out := p.out + [c], trailing := if c == '\n' then p.trailing + 1 else 0)
  }

  function Capped(p: Page): Page { if p.trailing < 2 then Written(p, '\n') else p }

  function Flushed(p: Page): Page {
    var q := p.(pending := None);
    match p.pending case None => q case Some(Newline) => Capped(q) case Some(Space) => Written(q, ' ')
  }

  function Put(p: Page, c: char): Page { if c == '\n' then Capped(p) else Written(p, c) }

  function Pushed(p: Page, c: char): Page {
    if p.depth > 0 then Written(Flushed(p), c)
    else if p.pending == Some(Newline) && c == '\n' then Put(p.(pending := None), c)
    else if p.pending == Some(Newline) && (c == ' ' || c == '\t') then p
    else if p.pending == Some(Space) && IsSpace(c) then Put(p.(pending := None), c)
    else Put(Flushed(p), c)
  }

  predicate IsPre(t: Token) { t.Tag? && (SameName(t.name, "pre") || SameName(t.name, "code")) }

  predicate Among(name: string, names: seq<string>) { exists k :: 0 <= k < |names| && SameName(name, names[k]) }

  function SeparatorOf(t: Token): Option<Separator>
    requires t.Tag?
  {
    if SameName(t.name, "br") then Some(Newline)
    else if !t.closing && !t.selfClosing then None
    else if Among(t.name, CELL_TAGS) then Some(Space)
    else if Among(t.name, BLOCK_TAGS) then Some(Newline)
    else None
  }

  function Deeper(p: Page, t: Token): Page
    requires t.Tag?
  {
    if !IsPre(t) then p
    else if t.closing then p.(depth := if p.depth == 0 then 0 else p.depth - 1)
    else if t.selfClosing then p
    else p.(depth := p.depth + 1)
  }

  /** A line break outranks a space. */
  function Stronger(prior: Option<Separator>, sep: Separator): Separator {
    if prior == Some(Newline) then Newline else sep
  }

  function Marked(p: Page, t: Token): Page
    requires t.Tag?
  {
    var q := Deeper(p, t);
    var sep := SeparatorOf(t);
    if sep.Some? && q.depth == 0 && q.out != "" then q.(pending := Some(Stronger(q.pending, sep.value))) else q
  }

  function Feed(p: Page, t: Token): Page {
    match t case Glyph(c) => Pushed(p, c) case Tag(_, _, _) => Marked(p, t) case Hidden => p
  }

  function Render(p: Page, ts: seq<Token>): Page
    decreases |ts|
  {
    if ts == [] then p else Render(Feed(p, ts[0]), ts[1..])
  }

  class Renderer {
    var out: string
    var trailingNewlines: nat
    var pending: Option<Separator>
    var preDepth: nat

    function View(): Page reads this { Page(out, trailingNewlines, pending, preDepth) }

    constructor ()
      ensures View() == BLANK_PAGE
    {
      out, trailingNewlines, pending, preDepth := "", 0, None, 0;
    }

    method Tag(tag: Token)
      requires tag.Tag?
      modifies this
      ensures View() == Marked(old(View()), tag)
    {
      if IsPre(tag) {
        if tag.closing {
          if preDepth > 0 { preDepth := preDepth - 1; }
        } else if !tag.selfClosing {
          preDepth := preDepth + 1;
        }
      }
      var sep := SeparatorOf(tag);
      if sep.Some? && preDepth == 0 && out != "" {
        pending := Some(Stronger(pending, sep.value));
      }
    }

    method Push(c: char)
      modifies this
      ensures View() == Pushed(old(View()), c)
    {
      if preDepth > 0 {
        FlushPending();
        Raw(c);
        return;
      }
      if pending == Some(Newline) && c == '\n' {
        pending := None;
      } else if pending == Some(Newline) && (c == ' ' || c == '\t') {
        return;
      } else if pending == Some(Space) && IsSpace(c) {
        pending := None;
      } else if pending.Some? {
        FlushPending();
      }
      if c == '\n' { NewlineCapped(); } else { Raw(c); }
    }

    method FlushPending()
      modifies this
      ensures View() == Flushed(old(View()))
    {
      var sep := pending;
      pending := None;
      match sep
      case Some(Newline) => NewlineCapped();
      case Some(Space) => Raw(' ');
      case None =>
    }

    method NewlineCapped()
      modifies this
      ensures View() == Capped(old(View()))
    {
      if trailingNewlines < 2 { Raw('\n'); }
    }

    method Raw(c: char)
      modifies this
      ensures View() == Written(old(View()), c)
    {
      trailingNewlines := if c == '\n' then trailingNewlines + 1 else 0;
      out := out + [c];
    }
  }

  // ---- the scanner ----

  method FindTagEnd(s: string, start: nat) returns (e: Option<nat>)
    requires start < |s|
    ensures e == TagEnd(s, start + 1, 0)
  {
    var i: nat, run: nat := start + 1, 0;
    while i < |s|
      invariant TagEnd(s, i, run) == TagEnd(s, start + 1, 0)
      decreases |s| - i
    {
      if s[i] == '>' {
        return Some(i);
      } else if s[i] == '"' || s[i] == '\'' {
        var quote := FindChar(s, i + 1, s[i]);
        if quote.None? { return None; }
        i, run := quote.value + 1, 0;
      } else {
        run := run + Utf8Len(s[i]);
        if run > UNQUOTED_TAG_WINDOW { return None; }
        i := i + 1;
      }
    }
    return None;
  }

  lemma NotHere(s: string, i: nat, upTo: nat, name: string)
    requires i <= upTo <= |s| && '<' !in s[i..upTo]
    ensures ClosingTag(s, i, name) == ClosingTag(s, upTo, name)
    decreases upTo - i
  {
    if i < upTo {
      assert s[i] == s[i..upTo][0];
      assert i + 2 <= |s| ==> s[i..i + 2][0] == s[i];
      assert s[i + 1..upTo] == s[i..upTo][1..];
      NotHere(s, i + 1, upTo, name);
    }
  }

  method FindClosingTag(s: string, start: nat, name: string) returns (k: Option<nat>)
    requires start <= |s|
    ensures k == ClosingTag(s, start, name)
  {
    hide NamedTagAt;
    var cursor := start;
    while cursor < |s|
      invariant cursor <= |s|
      invariant ClosingTag(s, cursor, name) == ClosingTag(s, start, name)
    {
      var candidate := FindChar(s, cursor, '<');
      if candidate.None? {
        assert s[cursor..|s|] == s[cursor..];
        NotHere(s, cursor, |s|, name);
        return None;
      }
      NotHere(s, cursor, candidate.value, name);
      if NamedTagAt(s, candidate.value, "</", name) { return candidate; }
      cursor := candidate.value + 1;
    }
    return None;
  }

  method StripElement(s: string, tagEnd: nat, name: string) returns (next: Option<nat>)
    requires tagEnd < |s|
    ensures next == SkipElement(s, tagEnd, name)
  {
    var close := FindClosingTag(s, tagEnd + 1, name);
    if close.None? { return None; }
    var end := FindTagEnd(s, close.value);
    if end.None? { return None; }
    return Some(end.value + 1);
  }

  /** The page of a text: absent when the markup is malformed anywhere. */
  function PageOf(s: string): Option<Page> {
    var ts := Tokens(s, 0);
    if ts.None? then None else Some(Render(BLANK_PAGE, ts.value))
  }

  /** The page still to come when `p` is done and `i` is next. */
  function PageFrom(p: Page, s: string, i: nat): Option<Page>
    requires i <= |s|
  {
    var ts := Tokens(s, i);
    if ts.None? then None else Some(Render(p, ts.value))
  }

  lemma PageStep(p: Page, s: string, i: nat)
    requires i < |s|
    ensures PageFrom(p, s, i) ==
            if Next(s, i).None? then None else PageFrom(Feed(p, Next(s, i).value.0), s, Next(s, i).value.1)
  {
  }

  lemma PageEnds(p: Page, s: string)
    ensures PageFrom(p, s, |s|) == Some(p)
    ensures PageFrom(BLANK_PAGE, s, 0) == PageOf(s)
  {
  }

  /** The rendered text, when the markup is well formed and rendering shrinks it. */
  function Stripped(s: string): Option<string> {
    match PageOf(s)
    case None => None
    case Some(p) => if ByteLen(p.out) < ByteLen(s) then Some(p.out) else None
  }

  method StripHtml(s: string) returns (r: Option<string>)
    ensures r == Stripped(s)
  {
    hide PageFrom, PageOf, Tokens, TagEnd, ClosingTag, SkipElement, FindText, NamedTagAt, DecodedEntity, ParseTag;
    hide Pushed, Marked, ByteLen;
    var renderer := new Renderer();
    var i := 0;
    PageEnds(BLANK_PAGE, s);
    while i < |s|
      invariant i <= |s|
      invariant PageFrom(renderer.View(), s, i) == PageOf(s)
      decreases |s| - i
    {
      PageStep(renderer.View(), s, i);
      if StartsAt(s, i, "<!--") {
        var close := FindText(s, i + 4, "-->");
        if close.None? { return None; }
        i := close.value + 3;
      } else if s[i] == '<' {
        if i + 1 == |s| { return None; }
        if StartsTag(s[i + 1]) {
          var end := FindTagEnd(s, i);
          if end.None? { return None; }
          if NamedTagAt(s, i, "<", "script") {
            var next := StripElement(s, end.value, "script");
            if next.None? { return None; }
            i := next.value;
          } else if NamedTagAt(s, i, "<", "style") {
            var next := StripElement(s, end.value, "style");
            if next.None? { return None; }
            i := next.value;
          } else {
            renderer.Tag(ParseTag(s, i, end.value));
            i := end.value + 1;
          }
        } else {
          renderer.Push('<');
          i := i + 1;
        }
      } else {
        var decoded := if s[i] == '&' then DecodedEntity(s, i, 0) else None;
        if decoded.Some? {
          renderer.Push(decoded.value.0);
          i := i + decoded.value.1;
        } else {
          renderer.Push(s[i]);
          i := i + 1;
        }
      }
    }
    PageEnds(renderer.View(), s);
    if ByteLen(renderer.out) < ByteLen(s) { return Some(renderer.out); }
    return None;
  }

  // ---- where a tag ends ----

  /** The open quote and the unquoted bytes behind a position, read from the left. */
  datatype Lex = Lex(quote: Option<char>, run: nat)

  function LexAt(s: string, i: nat, j: nat): Lex
    requires i <= j <= |s|
  {
    if j == i then Lex(None, 0)
    else
      var prior, c := LexAt(s, i, j - 1), s[j - 1];
      match prior.quote
      case Some(q) => if c == q then Lex(None, 0) else prior
      case None => if c == '"' || c == '\'' then Lex(Some(c), prior.run) else Lex(None, prior.run + Utf8Len(c))
  }

  /** No unquoted `>` and no overlong unquoted run before `j`. */
  ghost predicate StillOpen(s: string, i: nat, j: nat)
    requires i <= j <= |s|
  {
    (forall k :: i <= k < j && s[k] == '>' ==> LexAt(s, i, k).quote.Some?) &&
    (forall k :: i <= k <= j ==> LexAt(s, i, k).run <= 256)
  }

  ghost predicate ClosesAt(s: string, i: nat, e: nat)
    requires i <= |s|
  {
    i <= e < |s| && s[e] == '>' && LexAt(s, i, e).quote.None? && StillOpen(s, i, e)
  }

  lemma {:induction false} InsideQuotes(s: string, i: nat, k: nat, m: nat, q: char)
    requires i <= k < m <= |s| && LexAt(s, i, k).quote.None?
    requires (q == '"' || q == '\'') && s[k] == q && forall x :: k < x < m ==> s[x] != q
    ensures LexAt(s, i, m) == Lex(Some(q), LexAt(s, i, k).run)
  {
    if m > k + 1 {
      InsideQuotes(s, i, k, m - 1, q);
    }
  }

  /** Everything from the quote at `k` up to `m` is quoted. */
  ghost predicate Quoted(s: string, i: nat, k: nat, m: nat)
    requires i <= k < m <= |s|
  {
    forall j :: k < j <= m ==> LexAt(s, i, j) == Lex(Some(s[k]), LexAt(s, i, k).run)
  }

  lemma SpanIsQuoted(s: string, i: nat, k: nat, m: nat)
    requires i <= k < m <= |s| && LexAt(s, i, k).quote.None? && (s[k] == '"' || s[k] == '\'') && s[k] !in s[k + 1..m]
    ensures Quoted(s, i, k, m)
  {
    hide LexAt;
    forall x | k < x < m ensures s[x] != s[k] { assert s[x] == s[k + 1..m][x - k - 1]; }
    forall j | k < j <= m ensures LexAt(s, i, j) == Lex(Some(s[k]), LexAt(s, i, k).run) {
      InsideQuotes(s, i, k, j, s[k]);
    }
  }

  lemma OpenAfterQuote(s: string, i: nat, k: nat, m: nat)
    requires i <= k < m < |s| && StillOpen(s, i, k) && Quoted(s, i, k, m) && s[m] == s[k] && s[k] != '>'
    ensures LexAt(s, i, m + 1) == Lex(None, 0) && StillOpen(s, i, m + 1)
  {
    hide LexAt;
    LexStep(s, i, m);
    forall j | i <= j <= m + 1 ensures LexAt(s, i, j).run <= UNQUOTED_TAG_WINDOW {
      if k < j <= m { assert LexAt(s, i, j).run == LexAt(s, i, k).run; }
    }
  }

  lemma SkipQuoted(s: string, i: nat, k: nat)
    requires i <= k < |s| && LexAt(s, i, k).quote.None? && StillOpen(s, i, k) && (s[k] == '"' || s[k] == '\'')
    ensures var quote := FindChar(s, k + 1, s[k]);
            if quote.Some? then
              LexAt(s, i, quote.value + 1) == Lex(None, 0) && StillOpen(s, i, quote.value + 1) &&
              forall e :: k <= e <= quote.value ==> !ClosesAt(s, i, e)
            else forall e :: k <= e ==> !ClosesAt(s, i, e)
  {
    var quote := FindChar(s, k + 1, s[k]);
    var m := if quote.Some? then quote.value else |s|;
    hide FindChar, LexAt, StillOpen;
    assert quote.None? ==> s[k + 1..m] == s[k + 1..];
    SpanIsQuoted(s, i, k, m);
    if quote.Some? { OpenAfterQuote(s, i, k, m); }
    forall e | k <= e <= m ensures !ClosesAt(s, i, e) {
      if k < e <= m { assert LexAt(s, i, e) == Lex(Some(s[k]), LexAt(s, i, k).run); }
    }
  }

  lemma LexStep(s: string, i: nat, j: nat)
    requires i <= j < |s|
    ensures var l, c := LexAt(s, i, j), s[j];
            LexAt(s, i, j + 1) ==
            match l.quote
            case Some(q) => if c == q then Lex(None, 0) else l
            case None => if c == '"' || c == '\'' then Lex(Some(c), l.run) else Lex(None, l.run + Utf8Len(c))
  {
  }

  lemma {:induction false} TagEndFrom(s: string, i: nat, k: nat, e: nat)
    requires i <= k <= |s| && LexAt(s, i, k).quote.None? && StillOpen(s, i, k)
    ensures TagEnd(s, k, LexAt(s, i, k).run) == Some(e) <==> ClosesAt(s, i, e)
    decreases |s| - k
  {
    hide FindChar, LexAt;
    if k < |s| && s[k] != '>' {
      LexStep(s, i, k);
      if s[k] == '"' || s[k] == '\'' {
        SkipQuoted(s, i, k);
        var quote := FindChar(s, k + 1, s[k]);
        if quote.Some? { TagEndFrom(s, i, quote.value + 1, e); }
      } else if LexAt(s, i, k + 1).run <= UNQUOTED_TAG_WINDOW {
        TagEndFrom(s, i, k + 1, e);
      }
    }
  }

  /** A tag ends at its first `>` outside quotes, and only if no unquoted run on the way there is
      longer than the window. */
  lemma TagEndIsFirstUnquoted(s: string, i: nat, e: nat)
    requires i <= |s|
    ensures TagEnd(s, i, 0) == Some(e) <==> ClosesAt(s, i, e)
  {
    TagEndFrom(s, i, i, e);
  }

  // ---- size ----

  function PendingBytes(p: Page): nat { if p.pending.Some? then 1 else 0 }

  lemma ByteLenPush(s: string, c: char)
    ensures ByteLen(s + [c]) == ByteLen(s) + Utf8Len(c)
  {
    ByteLenConcat(s, [c]);
    assert ByteLen([c]) == Utf8Len(c) + ByteLen([]);
  }

  function Size(p: Page): nat { ByteLen(p.out) + PendingBytes(p) }

  lemma WrittenSize(p: Page, c: char)
    ensures Size(Written(p, c)) == Size(p) + Utf8Len(c)
  {
    ByteLenPush(p.out, c);
  }

  lemma PutSize(p: Page, c: char)
    ensures Size(Put(p, c)) <= Size(p) + Utf8Len(c)
    ensures Size(Put(p, c)) == Size(p) + Utf8Len(c) ==> Put(p, c).out == p.out + [c]
  {
    WrittenSize(p, c);
    hide ByteLen;
  }

  lemma FlushedSize(p: Page)
    ensures Size(Flushed(p)) <= Size(p)
    ensures p.pending.None? ==> Flushed(p) == p
  {
    WrittenSize(p.(pending := None), '\n');
    WrittenSize(p.(pending := None), ' ');
    hide ByteLen;
  }

  /** One token costs at least the bytes it adds, and as many only when it is the character it was
      read from. */
  lemma FeedFits(p: Page, t: Token)
    ensures Size(Feed(p, t)) <= Size(p) + (match t case Glyph(c) => Utf8Len(c) case Tag(_, _, _) => 1 case Hidden => 0)
    ensures t.Glyph? && p.pending.None? && Size(Feed(p, t)) == Size(p) + Utf8Len(t.c) ==>
            Feed(p, t).out == p.out + [t.c] && Feed(p, t).pending.None?
  {
    if t.Glyph? {
      FlushedSize(p);
      PutSize(p.(pending := None), t.c);
      PutSize(Flushed(p), t.c);
      WrittenSize(Flushed(p), t.c);
      hide ByteLen, Utf8Len, Flushed, Put;
    } else {
      hide ByteLen, SeparatorOf;
    }
  }

  lemma ByteLenSpan(s: string, i: nat, j: nat)
    requires i <= j <= |s|
    ensures ByteLen(s[..j]) >= ByteLen(s[..i]) + (j - i)
    ensures j == i + 1 ==> s[..j] == s[..i] + [s[i]] && ByteLen(s[..j]) == ByteLen(s[..i]) + Utf8Len(s[i])
  {
    assert s[..j] == s[..i] + s[i..j];
    ByteLenConcat(s[..i], s[i..j]);
    ByteLenAtLeast(s[i..j]);
    if j == i + 1 {
      assert s[i..j] == [s[i]];
      ByteLenPush(s[..i], s[i]);
    }
  }

  lemma TokenWidth(s: string, i: nat)
    requires i < |s| && Next(s, i).Some?
    ensures var (t, next) := Next(s, i).value;
            t.Glyph? ==> (next == i + 1 && t.c == s[i]) || (next >= i + 4 && Utf8Len(t.c) == 1)
    ensures var (t, next) := Next(s, i).value; t.Tag? ==> next >= i + 3
  {
    hide ParseTag, TagEnd, ClosingTag, FindText, NamedTagAt, SkipElement, StartsAt;
    if s[i] == '<' && i + 1 < |s| && StartsTag(s[i + 1]) { TagIsWide(s, i); }
  }

  lemma TagIsWide(s: string, i: nat)
    requires i + 1 < |s| && StartsTag(s[i + 1])
    ensures TagEnd(s, i + 1, 0).Some? ==> TagEnd(s, i + 1, 0).value >= i + 2
  {
  }

  ghost predicate Within(p: Page, done: string) {
    ByteLen(p.out) + PendingBytes(p) <= ByteLen(done) &&
    (ByteLen(p.out) + PendingBytes(p) == ByteLen(done) ==> p.out == done && p.pending.None?)
  }

  lemma StepFits(p: Page, s: string, i: nat)
    requires i < |s| && Next(s, i).Some? && Within(p, s[..i])
    ensures var (t, next) := Next(s, i).value; Within(Feed(p, t), s[..next])
  {
    var (t, next) := Next(s, i).value;
    FeedFits(p, t);
    TokenWidth(s, i);
    ByteLenSpan(s, i, next);
    hide Next, ByteLen, Feed, Utf8Len;
  }

  lemma {:induction false} RestFits(p: Page, s: string, i: nat)
    requires i <= |s| && Within(p, s[..i]) && Tokens(s, i).Some?
    ensures Within(Render(p, Tokens(s, i).value), s)
    decreases |s| - i
  {
    if i == |s| {
      assert s[..i] == s;
    } else {
      var (t, next) := Next(s, i).value;
      StepFits(p, s, i);
      RestFits(Feed(p, t), s, next);
    }
  }

  /** The rendered text is never longer than the markup, and as long only when it is the same. */
  lemma RenderingFits(s: string)
    requires PageOf(s).Some?
    ensures var p := PageOf(s).value;
            ByteLen(p.out) + PendingBytes(p) <= ByteLen(s) && (ByteLen(p.out) >= ByteLen(s) <==> p.out == s)
  {
    RestFits(BLANK_PAGE, s, 0);
  }

  // ---- content ----

  function Glyphs(ts: seq<Token>): string
    decreases |ts|
  {
    if ts == [] then "" else (if ts[0].Glyph? then [ts[0].c] else "") + Glyphs(ts[1..])
  }

  lemma InkPush(s: string, c: char)
    ensures Ink(s + [c]) == Ink(s) + if IsSpace(c) then "" else [c]
  {
    InkConcat(s, [c]);
    assert Ink([c]) == (if IsSpace(c) then "" else [c]) + Ink([]);
  }

  lemma PutInk(p: Page, c: char)
    ensures Ink(Put(p, c).out) == Ink(p.out) + if IsSpace(c) then "" else [c]
    ensures Ink(Written(p, c).out) == Ink(p.out) + if IsSpace(c) then "" else [c]
  {
    InkPush(p.out, c);
    hide Ink;
  }

  lemma FlushedInk(p: Page)
    ensures Ink(Flushed(p).out) == Ink(p.out)
  {
    PutInk(p.(pending := None), '\n');
    PutInk(p.(pending := None), ' ');
    hide Ink;
  }

  lemma FeedInk(p: Page, t: Token)
    ensures Ink(Feed(p, t).out) == Ink(p.out) + if t.Glyph? && !IsSpace(t.c) then [t.c] else ""
  {
    if t.Glyph? {
      FlushedInk(p);
      PutInk(Flushed(p), t.c);
      PutInk(p.(pending := None), t.c);
      hide Ink, Flushed, Put;
    } else {
      hide Ink, SeparatorOf;
    }
  }

  /** Rendering keeps every visible character of the text nodes, in order, and invents none. */
  lemma {:induction false} RenderKeepsInk(p: Page, ts: seq<Token>)
    ensures Ink(Render(p, ts).out) == Ink(p.out) + Ink(Glyphs(ts))
    decreases |ts|
  {
    hide Feed, Ink, IsSpace;
    if ts == [] {
      NoInk();
    } else {
      var glyph := if ts[0].Glyph? then [ts[0].c] else "";
      FeedInk(p, ts[0]);
      RenderKeepsInk(Feed(p, ts[0]), ts[1..]);
      InkConcat(glyph, Glyphs(ts[1..]));
      GlyphInk(ts[0]);
      assert (Ink(p.out) + Ink(glyph)) + Ink(Glyphs(ts[1..])) == Ink(p.out) + (Ink(glyph) + Ink(Glyphs(ts[1..])));
    }
  }

  lemma NoInk()
    ensures Ink("") == "" && Glyphs([]) == ""
  {
  }

  lemma GlyphInk(t: Token)
    ensures Ink(if t.Glyph? then [t.c] else "") == if t.Glyph? && !IsSpace(t.c) then [t.c] else ""
  {
    if t.Glyph? {
      InkPush("", t.c);
      assert "" + [t.c] == [t.c];
    }
  }

  /** Inside `pre` or `code`, text is copied as it stands after any separator still due. */
  lemma {:induction false} PreIsVerbatim(p: Page, text: string)
    requires p.depth > 0 && text != ""
    ensures var q := Render(p, seq(|text|, i requires 0 <= i < |text| => Glyph(text[i])));
            q.out == Flushed(p).out + text && q.depth == p.depth && q.pending.None?
    decreases |text|
  {
    var ts := seq(|text|, i requires 0 <= i < |text| => Glyph(text[i]));
    var p1 := Feed(p, ts[0]);
    if |text| == 1 {
      assert ts[1..] == [];
    } else {
      PreIsVerbatim(p1, text[1..]);
      assert ts[1..] == seq(|text[1..]|, i requires 0 <= i < |text[1..]| => Glyph(text[1..][i]));
      assert Flushed(p1) == p1;
      assert [text[0]] + text[1..] == text;
    }
  }

  // ---- line breaks ----

  function TrailingNewlines(s: string): nat {
    if s == "" || s[|s| - 1] != '\n' then 0 else 1 + TrailingNewlines(s[..|s| - 1])
  }

  lemma TrailingPush(s: string, c: char)
    ensures TrailingNewlines(s + [c]) == if c == '\n' then TrailingNewlines(s) + 1 else 0
  {
    assert (s + [c])[..|s|] == s;
  }

  /** The renderer's count is the true count. */
  ghost predicate Counted(p: Page) { p.trailing == TrailingNewlines(p.out) }

  lemma PutCounts(p: Page, c: char)
    requires Counted(p)
    ensures Counted(Put(p, c)) && Counted(Written(p, c))
  {
    TrailingPush(p.out, c);
    hide TrailingNewlines;
  }

  lemma FlushedCounts(p: Page)
    requires Counted(p)
    ensures Counted(Flushed(p))
  {
    PutCounts(p.(pending := None), '\n');
    PutCounts(p.(pending := None), ' ');
    hide TrailingNewlines;
  }

  lemma FeedCounts(p: Page, t: Token)
    requires Counted(p)
    ensures Counted(Feed(p, t))
  {
    if t.Glyph? {
      FlushedCounts(p);
      PutCounts(Flushed(p), t.c);
      PutCounts(p.(pending := None), t.c);
      hide TrailingNewlines, Flushed, Put;
    } else {
      hide TrailingNewlines, SeparatorOf;
    }
  }

  predicate NoThreeBreaks(s: string) {
    forall i {:trigger s[i]} :: 0 <= i < |s| - 2 ==> !(s[i] == '\n' && s[i + 1] == '\n' && s[i + 2] == '\n')
  }

  lemma LastTwo(s: string)
    requires |s| >= 2
    ensures TrailingNewlines(s) >= 2 <==> s[|s| - 1] == '\n' && s[|s| - 2] == '\n'
  {
    assert s[..|s| - 1][|s| - 2] == s[|s| - 2];
  }

  lemma AppendKeepsBreaks(s: string, c: char)
    requires NoThreeBreaks(s) && (c == '\n' ==> TrailingNewlines(s) < 2)
    ensures NoThreeBreaks(s + [c])
  {
    var t := s + [c];
    if |s| >= 2 { LastTwo(s); }
    hide TrailingNewlines;
    forall i {:trigger t[i]} | 0 <= i < |t| - 2 ensures !(t[i] == '\n' && t[i + 1] == '\n' && t[i + 2] == '\n') {
      if i < |s| - 2 { assert s[i] == t[i] && s[i + 1] == t[i + 1] && s[i + 2] == t[i + 2]; }
    }
  }

  ghost predicate Airy(p: Page) { Counted(p) && p.depth == 0 && NoThreeBreaks(p.out) }

  lemma PutAiry(p: Page, c: char)
    requires Airy(p)
    ensures Airy(Put(p, c))
  {
    PutCounts(p, c);
    if c != '\n' || p.trailing < 2 { AppendKeepsBreaks(p.out, c); }
    hide TrailingNewlines, NoThreeBreaks;
  }

  lemma FlushedAiry(p: Page)
    requires Airy(p)
    ensures Airy(Flushed(p))
  {
    PutAiry(p.(pending := None), '\n');
    PutAiry(p.(pending := None), ' ');
    hide TrailingNewlines, NoThreeBreaks;
  }

  lemma FeedKeepsAiry(p: Page, t: Token)
    requires Airy(p) && !OpensPre(t)
    ensures Airy(Feed(p, t))
  {
    if t.Glyph? {
      FlushedAiry(p);
      PutAiry(Flushed(p), t.c);
      PutAiry(p.(pending := None), t.c);
      hide TrailingNewlines, NoThreeBreaks, Flushed, Put;
    } else {
      hide TrailingNewlines, NoThreeBreaks, SeparatorOf, SameName;
    }
  }

  predicate OpensPre(t: Token) { IsPre(t) && !t.closing && !t.selfClosing }

  lemma {:induction false} RenderKeepsAiry(p: Page, ts: seq<Token>)
    requires Airy(p) && forall k :: 0 <= k < |ts| ==> !OpensPre(ts[k])
    ensures Airy(Render(p, ts))
    decreases |ts|
  {
    if ts != [] {
      FeedKeepsAiry(p, ts[0]);
      RenderKeepsAiry(Feed(p, ts[0]), ts[1..]);
    }
  }

  /** Without `pre` and `code` elements the rendered text never holds three line breaks in a row. */
  lemma NoPreNoTripleBreaks(s: string)
    requires Tokens(s, 0).Some? && forall k :: 0 <= k < |Tokens(s, 0).value| ==> !OpensPre(Tokens(s, 0).value[k])
    ensures NoThreeBreaks(PageOf(s).value.out)
  {
    RenderKeepsAiry(BLANK_PAGE, Tokens(s, 0).value);
  }

  // ---- separators ----

  /** The white space a text ends with. */
  function Tail(s: string): (t: string)
    ensures |t| <= |s|
  {
    if s == "" || !IsSpace(s[|s| - 1]) then "" else Tail(s[..|s| - 1]) + [s[|s| - 1]]
  }

  lemma TailPush(s: string, c: char)
    ensures Tail(s + [c]) == if IsSpace(c) then Tail(s) + [c] else ""
  {
    assert (s + [c])[..|s|] == s;
  }

  /** The text ends in white space as strong as the separator. */
  predicate Broken(s: string, sep: Separator) {
    match sep case Space => Tail(s) != "" case Newline => '\n' in Tail(s)
  }

  /** A separator of that strength is due or already written. */
  predicate Apart(p: Page, sep: Separator) {
    p.pending == Some(Newline) || p.pending == Some(sep) || Broken(p.out, sep)
  }

  lemma NewlineTail(p: Page)
    requires Counted(p) && p.trailing > 0
    ensures '\n' in Tail(p.out)
  {
    assert IsSpace('\n');
  }

  lemma PutApart(p: Page, c: char, sep: Separator)
    requires Counted(p)
    ensures IsSpace(c) && (c == '\n' || sep == Space || Broken(p.out, sep)) ==> Broken(Put(p, c).out, sep)
    ensures !IsSpace(c) ==> Put(p, c).out == p.out + [c] && Written(p, c).out == p.out + [c]
    ensures IsSpace(c) && Broken(p.out, sep) ==> Broken(Written(p, c).out, sep)
  {
    TailPush(p.out, c);
    if p.trailing > 0 { NewlineTail(p); }
    assert IsSpace('\n');
    hide Tail, TrailingNewlines, IsSpace;
  }

  lemma FlushedApart(p: Page, sep: Separator)
    requires Counted(p) && Apart(p, sep)
    ensures Broken(Flushed(p).out, sep)
  {
    PutApart(p.(pending := None), '\n', sep);
    PutApart(p.(pending := None), ' ', sep);
    assert IsSpace(' ') && IsSpace('\n');
    hide Tail, TrailingNewlines, IsSpace;
  }

  lemma InkAfterFlush(p: Page, c: char)
    requires !IsSpace(c)
    ensures Pushed(p, c).out == Flushed(p).out + [c]
  {
    assert IsSpace('\n') && IsSpace(' ') && IsSpace('\t');
    hide Flushed, IsSpace;
  }

  lemma BlankStaysApart(p: Page, c: char, sep: Separator)
    requires Counted(p) && Apart(p, sep) && IsSpace(c)
    ensures Apart(Pushed(p, c), sep)
  {
    hide Broken, TrailingNewlines, IsSpace, Flushed, Put, Written;
    FlushedCounts(p);
    FlushedApart(p, sep);
    PutApart(Flushed(p), c, sep);
    PutApart(p.(pending := None), c, sep);
  }

  /** A due separator is written before the next visible character, whatever comes in between. */
  lemma FeedStaysApart(p: Page, t: Token, sep: Separator)
    requires Counted(p) && Apart(p, sep)
    ensures if t.Glyph? && !IsSpace(t.c) then Feed(p, t).out == Flushed(p).out + [t.c] && Broken(Flushed(p).out, sep)
            else Apart(Feed(p, t), sep)
  {
    if t.Glyph? {
      if IsSpace(t.c) {
        BlankStaysApart(p, t.c, sep);
      } else {
        InkAfterFlush(p, t.c);
        FlushedApart(p, sep);
      }
      hide Broken, Pushed, Flushed, TrailingNewlines, IsSpace;
    } else {
      hide Broken, TrailingNewlines, SeparatorOf, SameName;
    }
  }

  /** A closing tag outside `pre` and `code` keeps what follows it apart from what was before. */
  lemma {:induction false} ElementsStayApart(p: Page, closing: Token, between: seq<Token>, c: char)
    requires Counted(p) && p.out != "" && closing.Tag? && SeparatorOf(closing).Some? && Deeper(p, closing).depth == 0
    requires forall k :: 0 <= k < |between| ==> between[k].Glyph? ==> IsSpace(between[k].c)
    requires !IsSpace(c)
    ensures var out := Feed(Render(Feed(p, closing), between), Glyph(c)).out;
            |out| > 0 && Broken(out[..|out| - 1], SeparatorOf(closing).value)
  {
    var sep := SeparatorOf(closing).value;
    FeedCounts(p, closing);
    StaysApart(Feed(p, closing), between, sep);
    var q := Render(Feed(p, closing), between);
    FeedStaysApart(q, Glyph(c), sep);
    assert (Flushed(q).out + [c])[..|Flushed(q).out|] == Flushed(q).out;
  }

  lemma {:induction false} StaysApart(p: Page, ts: seq<Token>, sep: Separator)
    requires Counted(p) && Apart(p, sep)
    requires forall k :: 0 <= k < |ts| ==> ts[k].Glyph? ==> IsSpace(ts[k].c)
    ensures Counted(Render(p, ts)) && Apart(Render(p, ts), sep)
    decreases |ts|
  {
    if ts != [] {
      FeedCounts(p, ts[0]);
      FeedStaysApart(p, ts[0], sep);
      StaysApart(Feed(p, ts[0]), ts[1..], sep);
    }
  }
}
