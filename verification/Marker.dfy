/** The ref markers written into prompts, and the scanner that finds them again. */
module Marker {
  import opened Basics

  // The two pattern heads, spelled in short pieces.
  const REF_SIGN := "\U{b7} ref="
  const PLACEHOLDER_TEXT := "cc-squash: " + ("squashed " + ("segment " + REF_SIGN))
  const BACKREF_TEXT := "same as " + ("earlier " + ("message " + REF_SIGN))
  const PLACEHOLDER_HEAD := "[" + PLACEHOLDER_TEXT
  const BACKREF_HEAD := "[" + BACKREF_TEXT
  const REF_PREFIX := "sha256:"
  const REF_HEX_LEN := 64

  predicate IsLowerHex(c: char) { '0' <= c <= '9' || 'a' <= c <= 'f' }

  predicate IsDigit(c: char) { '0' <= c <= '9' }

  predicate AllHex(s: string) { forall i :: 0 <= i < |s| ==> IsLowerHex(s[i]) }

  predicate AllDigits(s: string) { forall i :: 0 <= i < |s| ==> IsDigit(s[i]) }

  /** A ref id: the prefix and 64 lowercase hex characters. */
  predicate IsRefId(s: string) {
    |s| == |REF_PREFIX| + REF_HEX_LEN && REF_PREFIX <= s && AllHex(s[|REF_PREFIX|..])
  }

  type RefId = s: string | IsRefId(s) witness ZeroId()

  function Zeros(n: nat): (s: string)
    ensures |s| == n && AllHex(s)
  {
    if n == 0 then "" else ['0'] + Zeros(n - 1)
  }

  function ZeroId(): (s: string)
    ensures IsRefId(s)
  {
    var s := REF_PREFIX + Zeros(REF_HEX_LEN);
    assert s[|REF_PREFIX|..] == Zeros(REF_HEX_LEN);
    s
  }

  /** Decimal rendering of a count. */
  function Decimal(n: nat): (s: string)
    ensures s != "" && AllDigits(s)
  {
    (if n < 10 then "" else Decimal(n / 10)) + ['0' + (n % 10) as char]
  }

  // ---- the renderers ----

  function RenderBackref(id: RefId): string { BACKREF_HEAD + (id + "]") }

  function RenderHeader(id: RefId, tokens: nat, bytes: nat): string {
    PLACEHOLDER_HEAD + (id + (" \U{b7} ~" + (Decimal(tokens) + (" tokens \U{b7} " + (Decimal(bytes) + " bytes]")))))
  }

  function FuseName(id: RefId): string { "sha256-" + (id[|REF_PREFIX|..] + ".txt") }

  const ADVICE_HEAD := "\nPull the full original " + "if you need it:\n  \U{2022} retrieve(\""
  const FUSE_HEAD := "\n  \U{2022} Read(\".cc-squash/refs/"

  function Advice(id: RefId, fuseUp: bool): string {
    ADVICE_HEAD + (id + ("\")" + if fuseUp then FUSE_HEAD + (FuseName(id) + "\")") else ""))
  }

  function RenderPlaceholder(id: RefId, tokens: nat, bytes: nat, summary: string, fuseUp: bool): string {
    RenderHeader(id, tokens, bytes) + ("\n" + (summary + Advice(id, fuseUp)))
  }

  // ---- the scanner: the two anchored patterns, tried at each position ----

  function AfterLiteral(lit: string, s: string): Option<string> {
    if lit <= s then Some(s[|lit|..]) else None
  }

  /** The longest run of digits, at least one. */
  function AfterDigits(s: string): Option<string> {
    if s == "" || !IsDigit(s[0]) then None
    else match AfterDigits(s[1..]) case Some(rest) => Some(rest) case None => Some(s[1..])
  }

  function AfterRefId(s: string): Option<string> {
    var n := |REF_PREFIX| + REF_HEX_LEN;
    if |s| >= n && IsRefId(s[..n]) then Some(s[n..]) else None
  }

  datatype Match = Match(id: RefId, rest: string)

  /** `[same as earlier message · ref=<id>]` */
  function MatchBackref(s: string): Option<Match> {
    match AfterLiteral(BACKREF_HEAD, s)
    case None => None
    case Some(a) =>
      (match AfterRefId(a)
       case None => None
       case Some(b) =>
         (match AfterLiteral("]", b)
          case None => None
          case Some(rest) => Some(Match(a[..|REF_PREFIX| + REF_HEX_LEN], rest))))
  }

  /** ` · ~N tokens · M bytes]` */
  function AfterSizes(s: string): Option<string> {
    match AfterLiteral(" \U{b7} ~", s)
    case None => None
    case Some(a) =>
      (match AfterDigits(a)
       case None => None
       case Some(b) =>
         (match AfterLiteral(" tokens \U{b7} ", b)
          case None => None
          case Some(c) =>
            (match AfterDigits(c)
             case None => None
             case Some(d) => AfterLiteral(" bytes]", d))))
  }

  /** `[cc-squash: squashed segment · ref=<id> · ~N tokens · M bytes]` */
  function MatchPlaceholder(s: string): Option<Match> {
    match AfterLiteral(PLACEHOLDER_HEAD, s)
    case None => None
    case Some(a) =>
      (match AfterRefId(a)
       case None => None
       case Some(b) =>
         (match AfterSizes(b)
          case None => None
          case Some(rest) => Some(Match(a[..|REF_PREFIX| + REF_HEX_LEN], rest))))
  }

  function MatchMarker(s: string): Option<Match> {
    match MatchPlaceholder(s) case Some(m) => Some(m) case None => MatchBackref(s)
  }

  lemma {:induction false} AfterDigitsShorter(s: string)
    ensures AfterDigits(s).Some? ==> |AfterDigits(s).value| < |s|
  {
    if s != "" { AfterDigitsShorter(s[1..]); }
  }

  lemma MatchShorter(s: string)
    ensures MatchMarker(s).Some? ==> |MatchMarker(s).value.rest| < |s|
  {
    if MatchPlaceholder(s).Some? {
      var a := AfterLiteral(PLACEHOLDER_HEAD, s).value;
      var b := AfterRefId(a).value;
      SizesShorter(b);
    }
  }

  lemma SizesShorter(s: string)
    ensures AfterSizes(s).Some? ==> |AfterSizes(s).value| < |s|
  {
    if AfterSizes(s).Some? {
      var a := AfterLiteral(" \U{b7} ~", s).value;
      AfterDigitsShorter(a);
      var c := AfterLiteral(" tokens \U{b7} ", AfterDigits(a).value).value;
      AfterDigitsShorter(c);
    }
  }

  /** Leftmost, non-overlapping matches. */
  function ExtractRefs(s: string): seq<RefId>
    decreases |s|
  {
    if s == "" then []
    else
      MatchShorter(s);
      match MatchMarker(s)
      case Some(m) => [m.id] + ExtractRefs(m.rest)
      case None => ExtractRefs(s[1..])
  }

  method Extract(text: string) returns (refs: seq<RefId>)
    ensures refs == ExtractRefs(text)
  {
    refs := [];
    var s := text;
    while s != ""
      invariant refs + ExtractRefs(s) == ExtractRefs(text)
      decreases |s|
    {
      hide MatchMarker;
      MatchShorter(s);
      var m := MatchMarker(s);
      if m.Some? {
        assert refs + ([m.value.id] + ExtractRefs(m.value.rest)) == (refs + [m.value.id]) + ExtractRefs(m.value.rest);
        refs, s := refs + [m.value.id], m.value.rest;
      } else {
        s := s[1..];
      }
    }
  }

  // ---- a marker cannot cross a character that only starts patterns, or occurs in none ----

  /** Characters no pattern has past its first position. */
  predicate Stopper(c: char) { c == '[' || c == '\n' }

  ghost predicate StartsFresh(t: string) { t == "" || Stopper(t[0]) }

  predicate NoStopper(s: string) { forall i :: 0 <= i < |s| ==> !Stopper(s[i]) }

  /** Extends every remainder by the same text. */
  function Extend(o: Option<string>, t: string): Option<string> {
    match o case Some(rest) => Some(rest + t) case None => None
  }

  lemma PrefixAgrees(lit: string, u: string, k: nat)
    requires k < |lit| && k < |u|
    ensures lit <= u ==> lit[k] == u[k]
  {
  }

  lemma LiteralLocal(lit: string, s: string, t: string)
    requires NoStopper(lit) && StartsFresh(t)
    ensures AfterLiteral(lit, s + t) == Extend(AfterLiteral(lit, s), t)
  {
    if |s| < |lit| && t != "" {
      PrefixAgrees(lit, s + t, |s|);
      assert (s + t)[|s|] == t[0];
    } else if |lit| <= |s| {
      assert (s + t)[..|lit|] == s[..|lit|];
      assert lit <= s <==> lit == s[..|lit|];
      assert lit <= s + t <==> lit == (s + t)[..|lit|];
      assert (s + t)[|lit|..] == s[|lit|..] + t;
    }
  }

  lemma {:induction false} DigitsLocal(s: string, t: string)
    requires StartsFresh(t)
    ensures AfterDigits(s + t) == Extend(AfterDigits(s), t)
  {
    if s == "" {
      assert s + t == t;
    } else {
      assert (s + t)[1..] == s[1..] + t;
      DigitsLocal(s[1..], t);
    }
  }

  lemma RefIdLocal(s: string, t: string)
    requires StartsFresh(t)
    ensures AfterRefId(s + t) == Extend(AfterRefId(s), t)
    ensures AfterRefId(s).Some? ==> (s + t)[..|REF_PREFIX| + REF_HEX_LEN] == s[..|REF_PREFIX| + REF_HEX_LEN]
  {
    var n := |REF_PREFIX| + REF_HEX_LEN;
    if |s| < n <= |s + t| {
      var id := (s + t)[..n];
      assert id[|s|] == t[0];
      assert |s| >= |REF_PREFIX| ==> id[|REF_PREFIX|..][|s| - |REF_PREFIX|] == t[0];
      if |s| < |REF_PREFIX| { PrefixAgrees(REF_PREFIX, id, |s|); }
    } else if |s| >= n {
      assert (s + t)[..n] == s[..n] && (s + t)[n..] == s[n..] + t;
    }
  }

  lemma SizesLocal(s: string, t: string)
    requires StartsFresh(t)
    ensures AfterSizes(s + t) == Extend(AfterSizes(s), t)
  {
    hide AfterLiteral, AfterDigits, StartsFresh;
    LiteralLocal(" \U{b7} ~", s, t);
    var a := AfterLiteral(" \U{b7} ~", s);
    if a.Some? {
      DigitsLocal(a.value, t);
      var b := AfterDigits(a.value);
      if b.Some? {
        LiteralLocal(" tokens \U{b7} ", b.value, t);
        var c := AfterLiteral(" tokens \U{b7} ", b.value);
        if c.Some? {
          DigitsLocal(c.value, t);
          var d := AfterDigits(c.value);
          if d.Some? { LiteralLocal(" bytes]", d.value, t); }
        }
      }
    }
  }

  /** A head literal starts with `[`, so it is local as soon as some of it is on the left. */
  lemma HeadLocal(head: string, s: string, t: string)
    requires head != "" && NoStopper(head[1..]) && s != "" && StartsFresh(t)
    ensures AfterLiteral(head, s + t) == Extend(AfterLiteral(head, s), t)
  {
    LiteralLocal(head[1..], s[1..], t);
    assert (s + t)[1..] == s[1..] + t;
    HeadThenTail(head, s);
    HeadThenTail(head, s + t);
  }

  lemma HeadThenTail(head: string, s: string)
    requires head != "" && s != ""
    ensures AfterLiteral(head, s) == if head[0] == s[0] then AfterLiteral(head[1..], s[1..]) else None
  {
    if head[0] == s[0] {
      if head[1..] <= s[1..] {
        assert head == [head[0]] + head[1..] && s == [s[0]] + s[1..];
        assert s[1..][|head| - 1..] == s[|head|..];
      }
    }
  }

  lemma NoStopperConcat(a: string, b: string)
    requires NoStopper(a) && NoStopper(b)
    ensures NoStopper(a + b)
  {
  }

  lemma PlaceholderTextHasNoStopper()
    ensures NoStopper(PLACEHOLDER_TEXT)
  {
    assert NoStopper("cc-squash: ") && NoStopper("squashed ") && NoStopper("segment ") && NoStopper(REF_SIGN);
    NoStopperConcat("segment ", REF_SIGN);
    NoStopperConcat("squashed ", "segment " + REF_SIGN);
    NoStopperConcat("cc-squash: ", "squashed " + ("segment " + REF_SIGN));
  }

  lemma BackrefTextHasNoStopper()
    ensures NoStopper(BACKREF_TEXT)
  {
    assert NoStopper("same as ") && NoStopper("earlier ") && NoStopper("message ") && NoStopper(REF_SIGN);
    NoStopperConcat("message ", REF_SIGN);
    NoStopperConcat("earlier ", "message " + REF_SIGN);
    NoStopperConcat("same as ", "earlier " + ("message " + REF_SIGN));
  }

  lemma HeadTail(text: string)
    ensures ("[" + text)[1..] == text
  {
  }

  lemma HeadsHaveOneBracket()
    ensures NoStopper(PLACEHOLDER_HEAD[1..]) && NoStopper(BACKREF_HEAD[1..])
  {
    PlaceholderTextHasNoStopper();
    BackrefTextHasNoStopper();
    HeadTail(PLACEHOLDER_TEXT);
    HeadTail(BACKREF_TEXT);
  }

  function ExtendMatch(o: Option<Match>, t: string): Option<Match> {
    match o case Some(m) => Some(Match(m.id, m.rest + t)) case None => None
  }

  lemma CloseLocal(s: string, t: string)
    requires StartsFresh(t)
    ensures AfterLiteral("]", s + t) == Extend(AfterLiteral("]", s), t)
  {
    LiteralLocal("]", s, t);
  }

  lemma BackrefLocal(s: string, t: string)
    requires s != "" && StartsFresh(t)
    ensures MatchBackref(s + t) == ExtendMatch(MatchBackref(s), t)
  {
    hide AfterLiteral, AfterRefId, StartsFresh, NoStopper;
    HeadsHaveOneBracket();
    HeadLocal(BACKREF_HEAD, s, t);
    var a := AfterLiteral(BACKREF_HEAD, s);
    if a.Some? {
      RefIdLocal(a.value, t);
      var b := AfterRefId(a.value);
      if b.Some? { CloseLocal(b.value, t); }
    }
  }

  lemma PlaceholderLocal(s: string, t: string)
    requires s != "" && StartsFresh(t)
    ensures MatchPlaceholder(s + t) == ExtendMatch(MatchPlaceholder(s), t)
  {
    hide AfterLiteral, AfterRefId, AfterSizes, StartsFresh, NoStopper;
    HeadsHaveOneBracket();
    HeadLocal(PLACEHOLDER_HEAD, s, t);
    var a := AfterLiteral(PLACEHOLDER_HEAD, s);
    if a.Some? {
      RefIdLocal(a.value, t);
      var b := AfterRefId(a.value);
      if b.Some? { SizesLocal(b.value, t); }
    }
  }

  lemma MarkerLocal(s: string, t: string)
    requires s != "" && StartsFresh(t)
    ensures MatchMarker(s + t) == ExtendMatch(MatchMarker(s), t)
  {
    hide MatchPlaceholder, MatchBackref;
    PlaceholderLocal(s, t);
    BackrefLocal(s, t);
  }

  /** Scanning splits at every `[` and every line break. */
  lemma {:induction false} ExtractSplits(s: string, t: string)
    requires StartsFresh(t)
    ensures ExtractRefs(s + t) == ExtractRefs(s) + ExtractRefs(t)
    decreases |s|
  {
    hide MatchMarker, StartsFresh;
    if s == "" {
      assert s + t == t;
    } else {
      MarkerLocal(s, t);
      MatchShorter(s);
      MatchShorter(s + t);
      var m := MatchMarker(s);
      if m.Some? {
        ExtractSplits(m.value.rest, t);
      } else {
        assert (s + t)[1..] == s[1..] + t;
        ExtractSplits(s[1..], t);
      }
    }
  }

  /** Text without `[` holds no marker, and none can start in it. */
  lemma {:induction false} NothingInPlainText(s: string, t: string)
    requires '[' !in s
    ensures ExtractRefs(s + t) == ExtractRefs(t)
  {
    if s == "" {
      assert s + t == t;
    } else {
      assert (s + t)[1..] == s[1..] + t;
      HeadThenTail(PLACEHOLDER_HEAD, s + t);
      HeadThenTail(BACKREF_HEAD, s + t);
      assert (s + t)[0] == s[0] && s[0] in s;
      NothingInPlainText(s[1..], t);
    }
  }

  // ---- what the renderers print, the scanner reads ----

  lemma ReadLiteral(lit: string, rest: string)
    ensures AfterLiteral(lit, lit + rest) == Some(rest)
  {
  }

  lemma ReadRefId(id: RefId, rest: string)
    ensures AfterRefId(id + rest) == Some(rest)
    ensures (id + rest)[..|REF_PREFIX| + REF_HEX_LEN] == id
  {
    assert (id + rest)[..|id|] == id && (id + rest)[|id|..] == rest;
  }

  lemma {:induction false} ReadDigits(digits: string, rest: string)
    requires digits != "" && AllDigits(digits) && (rest == "" || !IsDigit(rest[0]))
    ensures AfterDigits(digits + rest) == Some(rest)
  {
    assert (digits + rest)[1..] == digits[1..] + rest;
    if |digits| > 1 {
      ReadDigits(digits[1..], rest);
    } else {
      assert digits[1..] + rest == rest;
    }
  }

  lemma ReadBackref(id: RefId, post: string)
    ensures MatchMarker(RenderBackref(id) + post) == Some(Match(id, post))
  {
    hide AfterLiteral, AfterRefId;
    var s := RenderBackref(id) + post;
    assert s == BACKREF_HEAD + (id + ("]" + post));
    ReadLiteral(BACKREF_HEAD, id + ("]" + post));
    ReadRefId(id, "]" + post);
    ReadLiteral("]", post);
    assert MatchBackref(s) == Some(Match(id, post));
    NotBoth(s, id + ("]" + post));
  }

  lemma NotBoth(s: string, rest: string)
    requires s == BACKREF_HEAD + rest
    ensures MatchPlaceholder(s) == None
  {
    assert s[1] == 's' && PLACEHOLDER_HEAD[1] == 'c';
  }

  lemma ReadSizes(tokens: nat, bytes: nat, post: string)
    ensures AfterSizes(" \U{b7} ~" +
            (Decimal(tokens) + (" tokens \U{b7} " + (Decimal(bytes) + (" bytes]" + post))))) == Some(post)
  {
    hide AfterLiteral, AfterDigits, Decimal;
    var d := " bytes]" + post;
    var c := " tokens \U{b7} " + (Decimal(bytes) + d);
    ReadLiteral(" \U{b7} ~", Decimal(tokens) + c);
    ReadDigits(Decimal(tokens), c);
    ReadLiteral(" tokens \U{b7} ", Decimal(bytes) + d);
    ReadDigits(Decimal(bytes), d);
    ReadLiteral(" bytes]", post);
  }

  lemma ReadHeader(id: RefId, tokens: nat, bytes: nat, post: string)
    ensures MatchMarker(RenderHeader(id, tokens, bytes) + post) == Some(Match(id, post))
  {
    hide AfterLiteral, AfterRefId, AfterSizes, Decimal;
    var sizes := " \U{b7} ~" + (Decimal(tokens) + (" tokens \U{b7} " + (Decimal(bytes) + (" bytes]" + post))));
    HeaderShape(id, tokens, bytes, post);
    ReadLiteral(PLACEHOLDER_HEAD, id + sizes);
    ReadRefId(id, sizes);
    ReadSizes(tokens, bytes, post);
  }

  lemma HeaderShape(id: RefId, tokens: nat, bytes: nat, post: string)
    ensures RenderHeader(id, tokens, bytes) + post ==
            PLACEHOLDER_HEAD + (id + (" \U{b7} ~" +
                (Decimal(tokens) + (" tokens \U{b7} " + (Decimal(bytes) + (" bytes]" + post))))))
  {
    hide Decimal;
    var t, b := Decimal(tokens), Decimal(bytes);
    assert b + " bytes]" + post == b + (" bytes]" + post);
    Assoc(" tokens \U{b7} ", b + " bytes]", post);
    Assoc(t, " tokens \U{b7} " + (b + " bytes]"), post);
    Assoc(" \U{b7} ~", t + (" tokens \U{b7} " + (b + " bytes]")), post);
    Assoc(id, " \U{b7} ~" + (t + (" tokens \U{b7} " + (b + " bytes]"))), post);
    Assoc(PLACEHOLDER_HEAD, id + (" \U{b7} ~" + (t + (" tokens \U{b7} " + (b + " bytes]")))), post);
  }

  lemma Assoc(a: string, b: string, c: string)
    ensures (a + b) + c == a + (b + c)
  {
  }

  /** A back-reference is found in any context, and disturbs nothing around it. */
  lemma BackrefRoundTrip(pre: string, id: RefId, post: string)
    ensures ExtractRefs(pre + RenderBackref(id) + post) == ExtractRefs(pre) + [id] + ExtractRefs(post)
  {
    hide MatchMarker;
    var m := RenderBackref(id) + post;
    assert pre + RenderBackref(id) + post == pre + m;
    ReadBackref(id, post);
    MatchShorter(m);
    assert m[0] == '[';
    ExtractSplits(pre, m);
    assert ExtractRefs(m) == [id] + ExtractRefs(post);
  }

  lemma AdviceIsPlain(id: RefId, fuseUp: bool)
    ensures '[' !in Advice(id, fuseUp) && Advice(id, fuseUp) != "" && Advice(id, fuseUp)[0] == '\n'
  {
    RefIdIsPlain(id);
    assert '[' !in "\nPull the full original " && '[' !in "if you need it:\n  \U{2022} retrieve(\"";
    assert '[' !in ADVICE_HEAD && ADVICE_HEAD[0] == '\n';
    assert '[' !in FUSE_HEAD && '[' !in "\")" && '[' !in "sha256-" && '[' !in ".txt";
    assert '[' !in FuseName(id);
  }

  lemma RefIdIsPlain(id: RefId)
    ensures '[' !in id
  {
    forall i | 0 <= i < |id| ensures id[i] != '[' {
      if i >= |REF_PREFIX| {
        assert id[i] == id[|REF_PREFIX|..][i - |REF_PREFIX|];
      } else {
        assert id[i] == REF_PREFIX[i];
      }
    }
  }

  /** A placeholder yields its own id and then whatever its summary mentions, in any context. */
  lemma PlaceholderRoundTrip(
    pre: string, id: RefId, tokens: nat, bytes: nat, summary: string, fuseUp: bool, post: string)
    ensures ExtractRefs(pre + RenderPlaceholder(id, tokens, bytes, summary, fuseUp) + post) ==
            ExtractRefs(pre) + [id] + ExtractRefs(summary) + ExtractRefs(post)
  {
    hide MatchMarker, RenderHeader, Advice;
    var header, advice := RenderHeader(id, tokens, bytes), Advice(id, fuseUp);
    var tail := advice + post;
    var body := "\n" + (summary + tail);
    var m := header + body;
    AdviceIsPlain(id, fuseUp);
    Assoc(summary, advice, post);
    Assoc("\n", summary + advice, post);
    Assoc(header, "\n" + (summary + advice), post);
    Assoc(pre, RenderPlaceholder(id, tokens, bytes, summary, fuseUp), post);
    ReadHeader(id, tokens, bytes, body);
    MatchShorter(m);
    HeaderStarts(id, tokens, bytes);
    ExtractSplits(pre, m);
    assert ExtractRefs(m) == [id] + ExtractRefs(body);
    NothingInPlainText("\n", summary + tail);
    assert StartsFresh(tail);
    ExtractSplits(summary, tail);
    NothingInPlainText(advice, post);
  }

  lemma HeaderStarts(id: RefId, tokens: nat, bytes: nat)
    ensures RenderHeader(id, tokens, bytes) != "" && RenderHeader(id, tokens, bytes)[0] == '['
  {
    hide Decimal;
  }

  // ---- nothing else is ever read as a marker ----

  lemma DigitsRead(s: string) returns (digits: string)
    requires AfterDigits(s).Some?
    ensures digits != "" && AllDigits(digits) && s == digits + AfterDigits(s).value
  {
    if AfterDigits(s[1..]).Some? {
      digits := DigitsRead(s[1..]);
      digits := [s[0]] + digits;
    } else {
      digits := [s[0]];
    }
  }

  lemma LiteralRead(lit: string, s: string)
    requires AfterLiteral(lit, s).Some?
    ensures s == lit + AfterLiteral(lit, s).value
  {
  }

  /** Whatever the scanner accepts is, end to end, one of the two emitted shapes. */
  lemma OnlyMarkersMatch(s: string) returns (n: string, m: string)
    requires MatchMarker(s).Some?
    ensures var id, rest := MatchMarker(s).value.id, MatchMarker(s).value.rest;
            s == BACKREF_HEAD + (id + ("]" + rest)) ||
            (n != "" && AllDigits(n) && m != "" && AllDigits(m) &&
             s == PLACEHOLDER_HEAD + (id + (" \U{b7} ~" + (n + (" tokens \U{b7} " + (m + (" bytes]" + rest)))))))
  {
    hide AfterLiteral, AfterDigits, IsRefId;
    n, m := "", "";
    if MatchPlaceholder(s).Some? {
      LiteralRead(PLACEHOLDER_HEAD, s);
      var a := AfterLiteral(PLACEHOLDER_HEAD, s).value;
      var b := AfterRefId(a).value;
      assert a == a[..|REF_PREFIX| + REF_HEX_LEN] + b;
      LiteralRead(" \U{b7} ~", b);
      var c := AfterLiteral(" \U{b7} ~", b).value;
      n := DigitsRead(c);
      var d := AfterDigits(c).value;
      LiteralRead(" tokens \U{b7} ", d);
      var e := AfterLiteral(" tokens \U{b7} ", d).value;
      m := DigitsRead(e);
      LiteralRead(" bytes]", AfterDigits(e).value);
    } else {
      LiteralRead(BACKREF_HEAD, s);
      var a := AfterLiteral(BACKREF_HEAD, s).value;
      var b := AfterRefId(a).value;
      assert a == a[..|REF_PREFIX| + REF_HEX_LEN] + b;
      LiteralRead("]", b);
    }
  }
}
