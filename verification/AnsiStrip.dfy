/** Pass D: removing terminal escape sequences and control characters. */
module AnsiStrip {
  import opened Basics

  const ESC: char := '\U{1b}'

  /** Unicode category Cc: the C0 block, DEL and the C1 block. */
  predicate IsControl(c: char) {
    var k := c as int;
    k < 0x20 || 0x7f <= k < 0xa0
  }

  /** The final byte of a control sequence (section 5.4 of ECMA-48). */
  predicate IsFinal(c: char) { 0x40 <= c as int <= 0x7e }

  /** Characters that survive stripping. */
  predicate Keeps(c: char) { c == '\n' || c == '\t' || !IsControl(c) }

  predicate AllKept(s: string) { forall i :: 0 <= i < |s| ==> Keeps(s[i]) }

  // ---- the specification of the stripper, as functions of the unread text ----

  /** What is left after the parameters and final byte of a control sequence. */
  function SkipCsi(s: string): (rest: string)
    ensures |rest| <= |s|
  {
    if s == "" then "" else if IsFinal(s[0]) then s[1..] else SkipCsi(s[1..])
  }

  /** What is left after the part of an escape sequence that follows ESC. */
  function SkipEscape(s: string): (rest: string)
    ensures |rest| <= |s|
  {
    if s == "" then "" else if s[0] == '[' then SkipCsi(s[1..]) else s[1..]
  }

  function Strip(s: string): string
    decreases |s|
  {
    if s == "" then ""
    else if s[0] == ESC then Strip(SkipEscape(s[1..]))
    else if Keeps(s[0]) then [s[0]] + Strip(s[1..])
    else Strip(s[1..])
  }

  // ---- the character loop of the source ----

  method SkipEscapeAt(input: string, start: nat) returns (i: nat)
    requires start <= |input|
    ensures start <= i <= |input|
    ensures input[i..] == SkipEscape(input[start..])
  {
    i := start;
    if i < |input| && input[i] == '[' {
      i := i + 1;
      assert input[start..][1..] == input[i..];
      while i < |input|
        invariant start < i <= |input|
        invariant SkipCsi(input[i..]) == SkipCsi(input[start + 1..])
      {
        var c := input[i];
        assert input[i..][1..] == input[i + 1..];
        i := i + 1;
        if IsFinal(c) { return; }
      }
    } else if i < |input| {
      i := i + 1;
      assert input[start..][1..] == input[i..];
    }
  }

  method StripAnsi(input: string) returns (out: string)
    ensures out == Strip(input)
  {
    out := "";
    var i := 0;
    while i < |input|
      invariant i <= |input|
      invariant out + Strip(input[i..]) == Strip(input)
    {
      var c := input[i];
      assert input[i..][1..] == input[i + 1..];
      i := i + 1;
      if c == ESC {
        i := SkipEscapeAt(input, i);
      } else if Keeps(c) {
        assert out + ([c] + Strip(input[i..])) == (out + [c]) + Strip(input[i..]);
        out := out + [c];
      }
    }
  }

  // ---- what stripping guarantees ----

  lemma {:induction false} StripKeepsOnly(s: string)
    ensures AllKept(Strip(s))
    decreases |s|
  {
    if s != "" {
      if s[0] == ESC { StripKeepsOnly(SkipEscape(s[1..])); } else { StripKeepsOnly(s[1..]); }
    }
  }

  lemma {:induction false} StripIsIdentityOnKept(s: string)
    requires AllKept(s)
    ensures Strip(s) == s
  {
    if s != "" { StripIsIdentityOnKept(s[1..]); }
  }

  lemma {:induction false} StripIdempotent(s: string)
    ensures Strip(Strip(s)) == Strip(s)
  {
    StripKeepsOnly(s);
    StripIsIdentityOnKept(Strip(s));
  }

  /** `t` can be read off `s` left to right by leaving characters out. */
  predicate IsSubsequence(t: string, s: string) {
    t == "" || (s != "" && if t[0] == s[0] then IsSubsequence(t[1..], s[1..]) else IsSubsequence(t, s[1..]))
  }

  lemma {:induction false} SubsequenceSkipsHead(t: string, c: char, s: string)
    requires IsSubsequence(t, s)
    ensures IsSubsequence(t, [c] + s)
    decreases |t| + |s|
  {
    assert ([c] + s)[1..] == s;
    if t != "" && t[0] == c {
      if t[0] == s[0] {
        SubsequenceSkipsHead(t[1..], s[0], s[1..]);
        assert [s[0]] + s[1..] == s;
      } else {
        SubsequenceTail(t, s);
      }
    }
  }

  lemma {:induction false} SubsequenceTail(t: string, s: string)
    requires t != "" && IsSubsequence(t, s)
    ensures IsSubsequence(t[1..], s)
    decreases |t| + |s|, 1
  {
    if t[0] == s[0] {
      SubsequenceSkipsHead(t[1..], s[0], s[1..]);
      assert [s[0]] + s[1..] == s;
    } else {
      SubsequenceTail(t, s[1..]);
      SubsequenceSkipsHead(t[1..], s[0], s[1..]);
      assert [s[0]] + s[1..] == s;
    }
  }

  lemma {:induction false} SubsequencePrepended(t: string, p: string, s: string)
    requires IsSubsequence(t, s)
    ensures IsSubsequence(t, p + s)
  {
    if p == "" {
      assert p + s == s;
    } else {
      SubsequencePrepended(t, p[1..], s);
      SubsequenceSkipsHead(t, p[0], p[1..] + s);
      assert [p[0]] + (p[1..] + s) == p + s;
    }
  }

  lemma {:induction false} SkipCsiIsSuffix(s: string)
    ensures exists p: string :: s == p + SkipCsi(s)
  {
    if s == "" {
      assert s == "" + SkipCsi(s);
    } else if IsFinal(s[0]) {
      assert s == [s[0]] + SkipCsi(s);
    } else {
      SkipCsiIsSuffix(s[1..]);
      var p: string :| s[1..] == p + SkipCsi(s[1..]);
      assert s == ([s[0]] + p) + SkipCsi(s);
    }
  }

  lemma {:induction false} SkipEscapeIsSuffix(s: string)
    ensures exists p: string :: s == p + SkipEscape(s)
  {
    if s == "" {
      assert s == "" + SkipEscape(s);
    } else if s[0] == '[' {
      SkipCsiIsSuffix(s[1..]);
      var p: string :| s[1..] == p + SkipCsi(s[1..]);
      assert s == ([s[0]] + p) + SkipEscape(s);
    } else {
      assert s == [s[0]] + SkipEscape(s);
    }
  }

  lemma {:induction false} StripIsSubsequence(s: string)
    ensures IsSubsequence(Strip(s), s)
    decreases |s|
  {
    if s != "" {
      if s[0] == ESC {
        var rest := SkipEscape(s[1..]);
        StripIsSubsequence(rest);
        SkipEscapeIsSuffix(s[1..]);
        var p: string :| s[1..] == p + rest;
        assert s == ([s[0]] + p) + rest;
        SubsequencePrepended(Strip(s), [s[0]] + p, rest);
      } else {
        StripIsSubsequence(s[1..]);
        if !Keeps(s[0]) {
          SubsequenceSkipsHead(Strip(s), s[0], s[1..]);
          assert [s[0]] + s[1..] == s;
        }
      }
    }
  }

  /** A subsequence is never longer in bytes, and one of equal byte length is the text itself. */
  lemma {:induction false} SubsequenceByteLen(t: string, s: string)
    requires IsSubsequence(t, s)
    ensures ByteLen(t) <= ByteLen(s)
    ensures ByteLen(t) == ByteLen(s) ==> t == s
    decreases |s|
  {
    if t == "" {
      ByteLenAtLeast(s);
    } else if t[0] == s[0] {
      SubsequenceByteLen(t[1..], s[1..]);
      assert t == [t[0]] + t[1..] && s == [s[0]] + s[1..];
    } else {
      SubsequenceByteLen(t, s[1..]);
    }
  }

  lemma StripShrinksOrKeeps(s: string)
    ensures Strip(s) == s || ByteLen(Strip(s)) < ByteLen(s)
  {
    StripIsSubsequence(s);
    SubsequenceByteLen(Strip(s), s);
  }

  // ---- an independent reading: the token grammar of terminal output ----

  /** One token of terminal output, as section 5.4 of ECMA-48 shapes it. */
  datatype Token =
    | Glyph(c: char)                          // an ordinary character
    | Stray(c: char)                          // a lone control character
    | Csi(params: string, final: char)        // ESC [ params final
    | Escape(c: char)                         // ESC and one other character

  /** How a text may end inside an escape sequence. */
  datatype Ending = Complete | LoneEsc | OpenCsi(params: string)

  predicate NoFinal(s: string) { forall i :: 0 <= i < |s| ==> !(0x40 <= s[i] as int <= 0x7e) }

  /** Controls are the codes below 0x20 and from 0x7f up to 0xa0; of them newline and tab are ordinary. */
  predicate WellFormed(t: Token) {
    match t
    case Glyph(c) => c == '\n' || c == '\t' || 0x20 <= c as int < 0x7f || c as int >= 0xa0
    case Stray(c) => (c as int < 0x20 || 0x7f <= c as int < 0xa0) && c != '\n' && c != '\t' && c as int != 0x1b
    case Csi(params, final) => NoFinal(params) && 0x40 <= final as int <= 0x7e
    case Escape(c) => c != '['
  }

  function Spell(t: Token): string {
    match t
    case Glyph(c) => [c]
    case Stray(c) => [c]
    case Csi(params, final) => [ESC, '['] + params + [final]
    case Escape(c) => [ESC, c]
  }

  function SpellEnding(e: Ending): string {
    match e
    case Complete => ""
    case LoneEsc => [ESC]
    case OpenCsi(params) => [ESC, '['] + params
  }

  function SpellAll(ts: seq<Token>, e: Ending): string {
    if ts == [] then SpellEnding(e) else Spell(ts[0]) + SpellAll(ts[1..], e)
  }

  function Glyphs(ts: seq<Token>): string {
    if ts == [] then "" else (if ts[0].Glyph? then [ts[0].c] else "") + Glyphs(ts[1..])
  }

  ghost predicate Tokens(ts: seq<Token>, e: Ending) {
    (forall i :: 0 <= i < |ts| ==> WellFormed(ts[i])) && (e.OpenCsi? ==> NoFinal(e.params))
  }

  lemma {:induction false} SkipCsiParams(params: string, rest: string)
    requires NoFinal(params)
    ensures SkipCsi(params + rest) == SkipCsi(rest)
  {
    if params == "" {
      assert params + rest == rest;
    } else {
      assert (params + rest)[1..] == params[1..] + rest;
      SkipCsiParams(params[1..], rest);
    }
  }

  lemma StripToken(t: Token, rest: string)
    requires WellFormed(t)
    ensures Strip(Spell(t) + rest) == (if t.Glyph? then [t.c] else "") + Strip(rest)
  {
    var s := Spell(t) + rest;
    match t {
      case Glyph(c) => assert s[1..] == rest;
      case Stray(c) => assert s[1..] == rest;
      case Csi(params, final) =>
        assert s[0] == ESC && s[1] == '[' && s[1..][1..] == params + ([final] + rest);
        SkipCsiParams(params, [final] + rest);
        assert ([final] + rest)[1..] == rest;
      case Escape(c) => assert s[0] == ESC && s[1] == c && s[1..][1..] == rest;
    }
  }

  lemma StripEnding(e: Ending)
    requires e.OpenCsi? ==> NoFinal(e.params)
    ensures Strip(SpellEnding(e)) == ""
  {
    if e.OpenCsi? {
      assert SpellEnding(e)[1..][1..] == e.params == e.params + "";
      SkipCsiParams(e.params, "");
    }
  }

  /** Stripping removes exactly the control tokens, however the text is tokenized. */
  lemma {:induction false} StripKeepsGlyphs(ts: seq<Token>, e: Ending)
    requires Tokens(ts, e)
    ensures Strip(SpellAll(ts, e)) == Glyphs(ts)
  {
    if ts == [] {
      StripEnding(e);
    } else {
      StripToken(ts[0], SpellAll(ts[1..], e));
      StripKeepsGlyphs(ts[1..], e);
    }
  }

  lemma {:induction false} CsiSplit(s: string) returns (params: string, closed: bool, final: char)
    ensures NoFinal(params)
    ensures closed ==> IsFinal(final) && s == params + [final] + SkipCsi(s)
    ensures !closed ==> s == params && SkipCsi(s) == ""
  {
    if s == "" {
      params, closed, final := "", false, ' ';
    } else if IsFinal(s[0]) {
      params, closed, final := "", true, s[0];
    } else {
      params, closed, final := CsiSplit(s[1..]);
      params := [s[0]] + params;
    }
  }

  /** Every text has such a tokenization, so StripKeepsGlyphs speaks of every input. */
  lemma {:induction false} EveryTextTokenizes(s: string) returns (ts: seq<Token>, e: Ending)
    ensures Tokens(ts, e) && SpellAll(ts, e) == s
    decreases |s|
  {
    if s == "" {
      ts, e := [], Complete;
    } else if s == [ESC] {
      ts, e := [], LoneEsc;
    } else {
      var t, rest;
      if s[0] != ESC {
        t, rest := if Keeps(s[0]) then Glyph(s[0]) else Stray(s[0]), s[1..];
      } else if s[1] != '[' {
        t, rest := Escape(s[1]), s[2..];
      } else {
        var params, closed, final := CsiSplit(s[2..]);
        if !closed {
          ts, e := [], OpenCsi(params);
          return;
        }
        t, rest := Csi(params, final), SkipCsi(s[2..]);
      }
      assert Spell(t) + rest == s;
      ts, e := EveryTextTokenizes(rest);
      ts := [t] + ts;
      assert ts[1..] == ts[1..];
    }
  }
}
