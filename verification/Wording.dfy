/** The exact wording of the markers. */
module Wording {
  import opened Basics
  import opened Marker

  /** What a run of decimal digits stands for. */
  function Value(s: string): nat
    requires AllDigits(s)
  {
    if s == "" then 0 else 10 * Value(s[..|s| - 1]) + (s[|s| - 1] - '0') as nat
  }

  /** A count is written in decimal, without leading zeros. */
  lemma {:induction false} DecimalRoundTrips(n: nat)
    ensures Value(Decimal(n)) == n && (n > 0 ==> Decimal(n)[0] != '0') && (n == 0 ==> Decimal(n) == "0")
  {
    if n >= 10 {
      DecimalRoundTrips(n / 10);
      var s := Decimal(n);
      assert s[..|s| - 1] == Decimal(n / 10);
    } else {
      assert Decimal(n)[..0] == "";
    }
  }

  lemma BackrefHeadReads()
    ensures BACKREF_HEAD == "[same as earlier message \U{b7} ref="
  {
  }

  lemma PlaceholderHeadReads()
    ensures PLACEHOLDER_HEAD == "[cc-squash: squashed segment \U{b7} ref="
  {
  }

  lemma Joined(a: string, b: string, c: string, d: string, e: string, f: string, g: string)
    ensures a + (b + (c + (d + (e + (f + g))))) == a + b + c + d + e + f + g
  {
  }

  /** A back-reference reads `[same as earlier message · ref=<id>]`. */
  lemma BackrefReads(id: RefId)
    ensures RenderBackref(id) == "[same as earlier message \U{b7} ref=" + id + "]"
  {
    BackrefHeadReads();
    Joined(BACKREF_HEAD, id, "]", "", "", "", "");
  }

  /** A placeholder's first line reads `[cc-squash: squashed segment · ref=<id> · ~<tokens> tokens · <bytes>
      bytes]`; the summary and how to pull the original follow. */
  lemma PlaceholderReads(id: RefId, tokens: nat, bytes: nat, summary: string, fuseUp: bool)
    ensures RenderPlaceholder(id, tokens, bytes, summary, fuseUp) ==
            "[cc-squash: squashed segment \U{b7} ref=" + id + " \U{b7} ~" + Decimal(tokens) + " tokens \U{b7} " +
            Decimal(bytes) + " bytes]" + ("\n" + (summary + Advice(id, fuseUp)))
  {
    hide Decimal, Advice;
    PlaceholderHeadReads();
    Joined(PLACEHOLDER_HEAD, id, " \U{b7} ~", Decimal(tokens), " tokens \U{b7} ", Decimal(bytes), " bytes]");
  }
}
