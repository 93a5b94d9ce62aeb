/** What a splice does to each message beyond its blocks: where cache hints go, what stays verbatim, and
    when it succeeds. */
module Hints {
  import opened Basics
  import opened Wire
  import opened Targets
  import opened Rewrite

  /** What a kept message must end in. */
  predicate EndsHinted(c: Content) {
    c.Blocks? && c.blocks != [] &&
    var last := c.blocks[|c.blocks| - 1];
    last.Object? ==>
      "cache_control" in last.fields && last.fields["cache_control"] == Opaque("{\"type\":\"ephemeral\"}")
  }

  predicate Targeted(rs: seq<Rendered>, i: nat) { exists k :: 0 <= k < |rs| && rs[k].message == i }

  /** Every kept position carries the hint on its last block; a string content becomes one hinted text
      block. */
  lemma KeptPositionsAreHinted(
    body: Body, rs: seq<Rendered>, kept: seq<nat>, mentionsHint: Message -> bool, printer: Printer, i: nat)
    requires Splice(body, rs, kept, mentionsHint, printer).Ok? && i < |body.messages| && i in kept
    ensures var out := Splice(body, rs, kept, mentionsHint, printer).value;
            i < |out.messages| && EndsHinted(out.messages[i].content) &&
            (body.messages[i].content.Text? && !Targeted(rs, i) ==>
               |out.messages[i].content.blocks| == 1 && out.messages[i].content.blocks[0].Object? &&
               out.messages[i].content.blocks[0].fields ==
               map["type" := Str("text"), "text" := Str(body.messages[i].content.text),
                   "cache_control" := Opaque("{\"type\":\"ephemeral\"}")])
  {
    SpliceIsMessagewise(0, body.messages, rs, kept, mentionsHint, printer);
    var m := body.messages[i];
    hide Splice, SpliceFrom, Touched, Overwrite;
    if !Targeted(rs, i) { UntargetedIsKept(i, m.content, rs); }
    WantedHintIsPlaced(Overwrite(i, m.content, rs).value, printer);
  }

  lemma WantedHintIsPlaced(c: Content, printer: Printer)
    requires SetHint(c, true, printer).Ok?
    ensures EndsHinted(SetHint(c, true, printer).value)
    ensures c.Text? ==>
              |SetHint(c, true, printer).value.blocks| == 1 && SetHint(c, true, printer).value.blocks[0].Object? &&
              SetHint(c, true, printer).value.blocks[0].fields ==
              map["type" := Str("text"), "text" := Str(c.text), "cache_control" := Opaque("{\"type\":\"ephemeral\"}")]
  {
  }

  lemma {:induction false} UntargetedIsKept(i: nat, c: Content, rs: seq<Rendered>)
    requires !Targeted(rs, i)
    ensures Overwrite(i, c, rs) == Ok(c)
    decreases |rs|
  {
    if rs != [] {
      assert rs[0].message != i;
      forall k | 0 <= k < |rs[1..]| ensures rs[1..][k].message != i { assert rs[1..][k] == rs[k + 1]; }
      UntargetedIsKept(i, c, rs[1..]);
    }
  }

  /** A block of the result is hinted exactly when it is the last block, an object, of a kept position. */
  lemma HintedIff(
    body: Body, rs: seq<Rendered>, positions: seq<nat>, prefixHints: nat, mentionsHint: Message -> bool,
    printer: Printer, i: nat, j: nat)
    requires forall m: Message, k ::
               0 <= k < |BlocksOf(m.content)| && Hinted(BlocksOf(m.content)[k]) ==> mentionsHint(m)
    requires var kept := KeptHints(positions, |body.messages|, prefixHints);
             Splice(body, rs, kept, mentionsHint, printer).Ok? && i < |body.messages| &&
             i < |Splice(body, rs, kept, mentionsHint, printer).value.messages| &&
             j < |BlocksOf(Splice(body, rs, kept, mentionsHint, printer).value.messages[i].content)|
    ensures var kept := KeptHints(positions, |body.messages|, prefixHints);
            var bs := BlocksOf(Splice(body, rs, kept, mentionsHint, printer).value.messages[i].content);
            Hinted(bs[j]) <==> i in kept && j == |bs| - 1 && bs[j].Object?
  {
    hide Splice, KeptHints;
    var kept := KeptHints(positions, |body.messages|, prefixHints);
    HintsOnlyWhereKept(body, rs, positions, prefixHints, mentionsHint, printer, i, j);
    if i in kept { KeptPositionsAreHinted(body, rs, kept, mentionsHint, printer, i); }
  }

  // ---- which positions are kept ----

  function Filter(ps: seq<nat>, keep: nat -> bool): seq<nat> {
    if ps == [] then [] else (if keep(ps[0]) then [ps[0]] else []) + Filter(ps[1..], keep)
  }

  /** How many of the positions count. */
  function Count(ps: seq<nat>, keep: nat -> bool): nat {
    if ps == [] then 0 else (if keep(ps[0]) then 1 else 0) + Count(ps[1..], keep)
  }

  /** `i` is among the last `room` positions that count. */
  ghost predicate AmongLast(ps: seq<nat>, keep: nat -> bool, room: nat, i: nat) {
    keep(i) && exists q :: 0 <= q < |ps| && ps[q] == i && Count(ps[q + 1..], keep) < room
  }

  function Last(s: seq<nat>, room: nat): seq<nat> { s[if |s| <= room then 0 else |s| - room..] }

  lemma {:induction false} CountIsLength(ps: seq<nat>, keep: nat -> bool)
    ensures |Filter(ps, keep)| == Count(ps, keep)
  {
    if ps != [] { CountIsLength(ps[1..], keep); }
  }

  lemma {:induction false} LastOfFilter(ps: seq<nat>, keep: nat -> bool, room: nat, i: nat)
    ensures i in Last(Filter(ps, keep), room) <==> AmongLast(ps, keep, room, i)
  {
    if ps != [] {
      var rest := ps[1..];
      LastOfFilter(rest, keep, room, i);
      CountIsLength(rest, keep);
      assert ps[0 + 1..] == rest;
      forall q | 0 <= q < |rest| ensures ps[q + 1 + 1..] == rest[q + 1..] && ps[q + 1] == rest[q] {}
      var f := Filter(rest, keep);
      if keep(ps[0]) && |f| < room { assert Last([ps[0]] + f, room) == [ps[0]] + Last(f, room); }
      if keep(ps[0]) && |f| >= room { assert Last([ps[0]] + f, room) == Last(f, room); }
      assert !keep(ps[0]) ==> [] + f == f;
      if q :| 0 <= q < |ps| && ps[q] == i && Count(ps[q + 1..], keep) < room && q > 0 { assert rest[q - 1] == i; }
    }
  }

  function Below(n: nat): nat -> bool { k => k < n }

  lemma {:induction false} InRangeFilters(ps: seq<nat>, messages: nat)
    ensures InRange(ps, messages) == Filter(ps, Below(messages))
  {
    if ps != [] { InRangeFilters(ps[1..], messages); }
  }

  /** Of the planned positions that name a message, the last four are kept, less the hints the prefix has. */
  lemma KeptHintsIff(positions: seq<nat>, messages: nat, prefixHints: nat, i: nat)
    ensures i in KeptHints(positions, messages, prefixHints) <==>
            AmongLast(positions, Below(messages), if prefixHints >= 4 then 0 else 4 - prefixHints, i)
  {
    hide AmongLast, Filter;
    InRangeFilters(positions, messages);
    LastOfFilter(positions, Below(messages), if prefixHints >= 4 then 0 else 4 - prefixHints, i);
    var wanted := InRange(positions, messages);
    assert wanted[0..] == wanted;
  }

  /** A message that no rendering targets, that is to carry no hint and mentions none is sent byte for
      byte as it came. */
  lemma UntouchedStaysVerbatim(
    body: Body, rs: seq<Rendered>, kept: seq<nat>, mentionsHint: Message -> bool, printer: Printer, i: nat)
    requires Splice(body, rs, kept, mentionsHint, printer).Ok? && i < |body.messages|
    requires !Targeted(rs, i) && i !in kept && !mentionsHint(body.messages[i])
    ensures var out := Splice(body, rs, kept, mentionsHint, printer).value;
            |out.messages| == |body.messages| && out.messages[i] == body.messages[i]
  {
    SpliceIsMessagewise(0, body.messages, rs, kept, mentionsHint, printer);
  }

  /** Every object block of any other message is printed from its fields. */
  lemma TouchedIsPrinted(
    body: Body, rs: seq<Rendered>, kept: seq<nat>, mentionsHint: Message -> bool, printer: Printer, i: nat)
    requires Splice(body, rs, kept, mentionsHint, printer).Ok? && i < |body.messages|
    requires Targeted(rs, i) || i in kept || mentionsHint(body.messages[i])
    ensures var out := Splice(body, rs, kept, mentionsHint, printer).value;
            |out.messages| == |body.messages| &&
            match out.messages[i].content
            case Text(raw, text) => raw == printer.text(text)
            case Blocks(bs) => forall j :: 0 <= j < |bs| && bs[j].Object? ==> bs[j].raw == printer.block(bs[j].fields)
  {
    SpliceIsMessagewise(0, body.messages, rs, kept, mentionsHint, printer);
    var c := Overwrite(i, body.messages[i].content, rs).value;
    hide Splice, SpliceFrom, Overwrite;
    SetHintPrints(c, i in kept, printer);
  }

  lemma SetHintPrints(c: Content, wantsHint: bool, printer: Printer)
    requires SetHint(c, wantsHint, printer).Ok?
    ensures match SetHint(c, wantsHint, printer).value
            case Text(raw, text) => raw == printer.text(text)
            case Blocks(bs) => forall j :: 0 <= j < |bs| && bs[j].Object? ==> bs[j].raw == printer.block(bs[j].fields)
  {
  }

  // ---- when a splice succeeds ----

  lemma SetHintOkIff(c: Content, wantsHint: bool, printer: Printer)
    ensures SetHint(c, wantsHint, printer).Ok? <==> !(wantsHint && c == Blocks([]))
  {
  }

  lemma {:induction false} SpliceFromOkIff(
    i: nat, msgs: seq<Message>, rs: seq<Rendered>, kept: seq<nat>, mentionsHint: Message -> bool, printer: Printer)
    requires i <= |msgs|
    ensures SpliceFrom(i, msgs, rs, kept, mentionsHint, printer).Ok? <==>
            forall k :: i <= k < |msgs| ==> EditSpec(k, msgs[k], rs, k in kept, mentionsHint, printer).Ok?
    decreases |msgs| - i
  {
    hide EditSpec;
    if i < |msgs| { SpliceFromOkIff(i + 1, msgs, rs, kept, mentionsHint, printer); }
  }

  /** Fitting renderings go in unless a hint is wanted on a message without blocks. */
  lemma SpliceOkIff(body: Body, rs: seq<Rendered>, kept: seq<nat>, mentionsHint: Message -> bool, printer: Printer)
    requires AllFit(rs, body.messages)
    ensures Splice(body, rs, kept, mentionsHint, printer).Ok? <==>
            forall i :: i in kept && i < |body.messages| ==> body.messages[i].content != Blocks([])
  {
    SpliceFromOkIff(0, body.messages, rs, kept, mentionsHint, printer);
    hide SpliceFrom, Overwrite, SetHint, Fits, Touched;
    forall i | 0 <= i < |body.messages|
      ensures EditSpec(i, body.messages[i], rs, i in kept, mentionsHint, printer).Ok? <==>
              !(i in kept && body.messages[i].content == Blocks([]))
    {
      var c := body.messages[i].content;
      FittingOverwrite(i, body.messages, rs);
      var c' := Overwrite(i, c, rs).value;
      SetHintOkIff(c', i in kept, printer);
      EmptyStaysEmpty(i, c, rs, c');
    }
  }

  lemma EmptyStaysEmpty(i: nat, c: Content, rs: seq<Rendered>, c': Content)
    requires Expected(i, c, rs, c')
    ensures c' == Blocks([]) <==> c == Blocks([])
  {
    hide LastAt;
  }

  /** The gate's pair and role checks, spelled out. */
  lemma GatePassesIff(original: Body, rewritten: Body)
    ensures CheckPairsAndRoles(original, rewritten) == Pass <==>
            (forall id :: id in IdsOf(rewritten.messages, ToolUse) <==> id in IdsOf(rewritten.messages, ToolResult)) &&
            |original.messages| == |rewritten.messages| &&
            forall i :: 0 <= i < |original.messages| ==> original.messages[i].role == rewritten.messages[i].role
  {
    hide IdsOf;
    var a, b := Roles(original), Roles(rewritten);
    if a == b {
      forall i | 0 <= i < |original.messages| ensures original.messages[i].role == rewritten.messages[i].role {
        assert a[i] == b[i];
      }
    }
  }
}
