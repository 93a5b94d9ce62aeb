/** The page as a reference: marks where elements part the text, then what each mark turns into, then no
    more than two line breaks in a row. The renderer does the three in one pass. */
module Layout {
  import opened Basics
  import opened Whitespace
  import opened Markup
  import opened Documents

  /** A character, verbatim when it stands in `pre` or `code`, or a place where elements part. */
  datatype Mark = Char(c: char, verbatim: bool) | Break(sep: Separator)

  // ---- marking ----

  predicate Preserves(name: string) { SameName(name, "pre") || SameName(name, "code") }

  /** How deep in preserving elements the text after the tag is. */
  function DepthAfter(t: Token, depth: nat): nat
    requires t.Tag?
  {
    if !Preserves(t.name) then depth
    else if t.closing then (if depth == 0 then 0 else depth - 1)
    else if t.selfClosing then depth
    else depth + 1
  }

  /** A line break tag parts the text wherever it stands, a cell or block where it closes. */
  function Parts(t: Token): Option<Separator>
    requires t.Tag?
  {
    if SameName(t.name, "br") then Some(Newline)
    else if !t.closing && !t.selfClosing then None
    else if IsCell(t.name) then Some(Space)
    else if IsBlock(t.name) then Some(Newline)
    else None
  }

  function Marks(ts: seq<Token>, depth: nat): seq<Mark>
    decreases |ts|
  {
    if ts == [] then []
    else
      match ts[0]
      case Glyph(c) => [Char(c, depth > 0)] + Marks(ts[1..], depth)
      case Hidden => Marks(ts[1..], depth)
      case Tag(_, _, _) =>
        var d := DepthAfter(ts[0], depth);
        (if d == 0 && Parts(ts[0]).Some? then [Break(Parts(ts[0]).value)] else []) + Marks(ts[1..], d)
  }

  /** Nothing parts before the first character. */
  function FromFirstChar(ms: seq<Mark>): seq<Mark> { if ms == [] || ms[0].Char? then ms else FromFirstChar(ms[1..]) }

  // ---- what a mark turns into ----

  function SignOf(sep: Separator): char { match sep case Space => ' ' case Newline => '\n' }

  /** Marks in a row are one, a line break outranking a space. A line break swallows the spaces and tabs after
      it and is itself replaced by a line break of the text; a space is replaced by any white space. At the end
      nothing parts. */
  function Resolved(ms: seq<Mark>): seq<Mark>
    decreases |ms|
  {
    if ms == [] then []
    else if ms[0].Char? then [ms[0]] + Resolved(ms[1..])
    else if |ms| == 1 then []
    else
      var sep := ms[0].sep;
      match ms[1]
      case Break(next) => Resolved([Break(if sep == Newline then Newline else next)] + ms[2..])
      case Char(c, verbatim) =>
        if !verbatim && sep == Newline && (c == ' ' || c == '\t') then Resolved([ms[0]] + ms[2..])
        else if !verbatim && (if sep == Newline then c == '\n' else IsSpace(c)) then Resolved(ms[1..])
        else [Char(SignOf(sep), false)] + Resolved(ms[1..])
  }

  /** Of line breaks outside preserving elements, none goes after two others. */
  function Spaced(ms: seq<Mark>, breaks: nat): string {
    if ms == [] then ""
    else if ms[0].Break? then Spaced(ms[1..], breaks)
    else if ms[0].c != '\n' then [ms[0].c] + Spaced(ms[1..], 0)
    else if !ms[0].verbatim && breaks >= 2 then Spaced(ms[1..], breaks)
    else "\n" + Spaced(ms[1..], breaks + 1)
  }

  function Page(ts: seq<Token>): string { Spaced(Resolved(FromFirstChar(Marks(ts, 0))), 0) }

  // ---- the renderer agrees ----

  function Pending(p: Markup.Page): seq<Mark> { match p.pending case Some(sep) => [Break(sep)] case None => [] }

  /** What is still to come on the page. */
  function Rest(p: Markup.Page, ts: seq<Token>): string {
    var ms := Marks(ts, p.depth);
    Spaced(Resolved(Pending(p) + if p.out == "" then FromFirstChar(ms) else ms), p.trailing)
  }

  /** Nothing is pending on an empty page. */
  predicate Started(p: Markup.Page) { p.out == "" ==> p.pending.None? }

  lemma ResolvedChar(c: Mark, ms: seq<Mark>)
    requires c.Char?
    ensures Resolved([c] + ms) == [c] + Resolved(ms)
  {
    assert ([c] + ms)[1..] == ms;
  }

  lemma ResolvedBreak(sep: Separator, m: Mark, ms: seq<Mark>)
    ensures Resolved([Break(sep)] + ([m] + ms)) ==
            match m
            case Break(next) => Resolved([Break(if sep == Newline then Newline else next)] + ms)
            case Char(c, verbatim) =>
              if !verbatim && sep == Newline && (c == ' ' || c == '\t') then Resolved([Break(sep)] + ms)
              else if !verbatim && (if sep == Newline then c == '\n' else IsSpace(c)) then Resolved([m] + ms)
              else [Char(SignOf(sep), false)] + Resolved([m] + ms)
  {
    var all := [Break(sep)] + ([m] + ms);
    assert all[1..] == [m] + ms && all[2..] == ms && all[1] == m;
    hide IsSpace;
  }

  lemma SpacedChar(m: Mark, ms: seq<Mark>, breaks: nat)
    requires m.Char?
    ensures Spaced([m] + ms, breaks) ==
            if m.c != '\n' then [m.c] + Spaced(ms, 0)
            else if !m.verbatim && breaks >= 2 then Spaced(ms, breaks)
            else "\n" + Spaced(ms, breaks + 1)
  {
    assert ([m] + ms)[1..] == ms;
  }

  /** Writing one character, capped or not, leaves the rest to come. */
  lemma WriteStep(p: Markup.Page, c: char, verbatim: bool, ms: seq<Mark>)
    ensures var q := if verbatim then Written(p, c) else Put(p, c);
            p.out + Spaced([Char(c, verbatim)] + ms, p.trailing) == q.out + Spaced(ms, q.trailing)
    ensures var q := if verbatim then Written(p, c) else Put(p, c);
            q.pending == p.pending && q.depth == p.depth && (p.out != "" || p.trailing < 2 ==> q.out != "")
  {
    SpacedChar(Char(c, verbatim), ms, p.trailing);
    var rest := Spaced(ms, if c == '\n' then p.trailing + 1 else 0);
    assert p.out + ([c] + rest) == p.out + [c] + rest;
  }

  lemma FlushStep(p: Markup.Page, ms: seq<Mark>)
    requires p.pending.Some?
    ensures var q := Flushed(p);
            p.out + Spaced([Char(SignOf(p.pending.value), false)] + ms, p.trailing) == q.out + Spaced(ms, q.trailing) &&
            q.pending == None && q.depth == p.depth && (p.out != "" ==> q.out != "")
  {
    WriteStep(p.(pending := None), SignOf(p.pending.value), false, ms);
  }

  lemma PushStep(p: Markup.Page, c: char, ms: seq<Mark>)
    requires Started(p) && (p.out == "" ==> p.trailing == 0)
    ensures var q := Pushed(p, c);
            p.out + Spaced(Resolved(Pending(p) + ([Char(c, p.depth > 0)] + ms)), p.trailing) ==
            q.out + Spaced(Resolved(Pending(q) + ms), q.trailing) && q.depth == p.depth && q.out != ""
  {
    hide Resolved, Spaced, Put, Written, Flushed, IsSpace;
    var m := Char(c, p.depth > 0);
    ResolvedChar(m, ms);
    var rest := Resolved(ms);
    match p.pending {
      case None =>
        assert [] + ([m] + ms) == [m] + ms && [] + ms == ms;
        assert Flushed(p) == p by { FlushedNothing(p); }
        WriteStep(p, c, m.verbatim, rest);
      case Some(sep) =>
        ResolvedBreak(sep, m, ms);
        assert [] + ms == ms;
        var q := Flushed(p);
        FlushStep(p, [m] + rest);
        WriteStep(q, c, m.verbatim, rest);
        WriteStep(p.(pending := None), c, m.verbatim, rest);
    }
  }

  lemma FlushedNothing(p: Markup.Page)
    requires p.pending.None?
    ensures Flushed(p) == p
  {
  }

  lemma MarkStep(p: Markup.Page, t: Token, ms: seq<Mark>)
    requires t.Tag? && Started(p)
    ensures var q := Marked(p, t);
            var d := DepthAfter(t, p.depth);
            var parted := (if d == 0 && Parts(t).Some? then [Break(Parts(t).value)] else []) + ms;
            q.depth == d && q.out == p.out && q.trailing == p.trailing && Started(q) &&
            Resolved(Pending(q) + if p.out == "" then FromFirstChar(ms) else ms) ==
            Resolved(Pending(p) + if p.out == "" then FromFirstChar(parted) else parted)
  {
    SeparatorTable(t);
    hide SameName, SeparatorOf, IsCell, IsBlock;
    assert Parts(t) == SeparatorOf(t);
    var d, q := DepthAfter(t, p.depth), Marked(p, t);
    assert Deeper(p, t) == p.(depth := d);
    if d == 0 && Parts(t).Some? {
      var sep := Parts(t).value;
      var parted := [Break(sep)] + ms;
      assert parted[1..] == ms;
      if p.pending.Some? { ResolvedBreak(p.pending.value, Break(sep), ms); }
      assert [] + parted == parted;
    } else {
      assert [] + ms == ms;
    }
  }

  lemma {:induction false} RenderIs(p: Markup.Page, ts: seq<Token>)
    requires Started(p) && (p.out == "" ==> p.trailing == 0)
    ensures Markup.Render(p, ts).out == p.out + Rest(p, ts)
    decreases |ts|
  {
    if ts == [] {
      assert Spaced([], p.trailing) == "" && p.out + "" == p.out;
      assert Resolved(Pending(p) + []) == [] by { assert Pending(p) + [] == Pending(p); }
    } else {
      var t, ms := ts[0], Marks(ts[1..], Feed(p, ts[0]).depth);
      match t {
        case Glyph(c) =>
          PushStep(p, c, ms);
          assert FromFirstChar([Char(c, p.depth > 0)] + ms) == [Char(c, p.depth > 0)] + ms;
        case Hidden =>
        case Tag(_, _, _) =>
          MarkStep(p, t, ms);
      }
      RenderIs(Feed(p, t), ts[1..]);
    }
  }

  /** For every text that scans, the one-pass renderer gives the reference page of what was scanned, and the
      pass answers with it unless it is the text itself. */
  lemma PageIs(s: string)
    requires Tokens(s, 0).Some?
    ensures var page := Page(Tokens(s, 0).value);
            PageOf(s).Some? && PageOf(s).value.out == page && Stripped(s) == if page == s then None else Some(page)
  {
    var ts := Tokens(s, 0).value;
    RenderIs(BLANK_PAGE, ts);
    RenderingFits(s);
    var ms := FromFirstChar(Marks(ts, 0));
    assert [] + ms == ms && "" + Page(ts) == Page(ts);
  }

  /** So the page of a document is the reference page of its pieces. */
  lemma DocumentPageIs(ps: seq<Piece>)
    requires forall k :: 0 <= k < |ps| ==> WellSpelled(ps[k])
    ensures PageOf(SpellingOf(ps)).Some? && PageOf(SpellingOf(ps)).value.out == Page(Meanings(ps))
  {
    DocumentIsRead(ps);
    PageIs(SpellingOf(ps));
  }
}
