/** Which segments the over-budget ladder strips and drops, by their tokens and positions alone. */
module Rungs {
  import opened Basics
  import opened Wire
  import opened Segmentation
  import opened SegmentFields
  import opened Budget

  // ---- candidates, spelled out ----

  predicate Thinks(b: Block) {
    b.Object? && "type" in b.fields &&
        (b.fields["type"] == Str("thinking") || b.fields["type"] == Str("redacted_thinking"))
  }

  /** An assistant turn that holds reasoning, with another assistant turn after it. */
  ghost predicate HistoricalReasoning(body: Body, segs: seq<Segment>, k: nat) {
    k < |segs| && segs[k].kind == AssistantTurn &&
    (exists later :: k < later < |segs| && segs[later].kind == AssistantTurn) &&
    exists m, b :: m in segs[k].sources && m < |body.messages| && b in BlocksOf(body.messages[m].content) && Thinks(b)
  }

  function UnpinnedPair(segs: seq<Segment>): nat -> bool {
    (k: nat) => k < |segs| && segs[k].kind == ToolPair && !segs[k].pinned
  }

  /** Anything but the last segment, the tools and system text, and what was dropped already. */
  function OldTurn(segs: seq<Segment>, dropped: seq<nat>): nat -> bool {
    (k: nat) => k + 1 < |segs| && segs[k].kind != SystemKind && segs[k].kind != ToolsKind && k !in dropped
  }

  /** The tokens of the segments from `lo` up to `hi` that count. */
  function Weight(segs: seq<Segment>, keep: nat -> bool, lo: nat, hi: nat): nat
    decreases hi - lo
  {
    if lo >= hi || lo >= |segs| then 0
    else (if keep(lo) then segs[lo].tokens else 0) + Weight(segs, keep, lo + 1, hi)
  }

  // ---- the rungs ----

  lemma {:induction false} PairRungIff(segs: seq<Segment>, k: nat, running: nat, target: nat, i: nat)
    requires k <= |segs|
    ensures i in PairRung(segs, k, running, target).dropped <==>
            k <= i && UnpinnedPair(segs)(i) && running - Weight(segs, UnpinnedPair(segs), k, i) > target
    decreases |segs| - k
  {
    if k < |segs| {
      var next := if DropsAsPair(segs[k]) then SatSub(running, segs[k].tokens) else running;
      PairRungIff(segs, k + 1, next, target, i);
    }
  }

  /** The tokens of the segments named. */
  function TokensOf(segs: seq<Segment>, indices: seq<nat>): nat {
    if indices == [] then 0
    else (if indices[0] < |segs| then segs[indices[0]].tokens else 0) + TokensOf(segs, indices[1..])
  }

  lemma {:induction false} PairRungRuns(segs: seq<Segment>, k: nat, running: nat, target: nat)
    requires k <= |segs|
    ensures var rung := PairRung(segs, k, running, target);
            rung.running == SatSub(running, TokensOf(segs, rung.dropped))
    decreases |segs| - k
  {
    if k < |segs| && DropsAsPair(segs[k]) && running > target {
      var next := SatSub(running, segs[k].tokens);
      PairRungRuns(segs, k + 1, next, target);
      var rest := PairRung(segs, k + 1, next, target).dropped;
      assert ([k] + rest)[1..] == rest;
    } else if k < |segs| {
      PairRungRuns(segs, k + 1, running, target);
    }
  }

  lemma {:induction false} OldestRungIff(
    segs: seq<Segment>, k: nat, running: nat, target: nat, pairs: seq<nat>, i: nat)
    requires k <= |segs|
    ensures i in OldestRung(segs, k, running, target, pairs).dropped <==>
            k <= i && OldTurn(segs, pairs)(i) && running - Weight(segs, OldTurn(segs, pairs), k, i) > target
    decreases |segs| - k
  {
    if k < |segs| && running > target {
      var next := if !DropsAsOldest(segs, k) || k in pairs then running else SatSub(running, segs[k].tokens);
      OldestRungIff(segs, k + 1, next, target, pairs, i);
    }
  }

  lemma {:induction false} OldestRungRuns(segs: seq<Segment>, k: nat, running: nat, target: nat, pairs: seq<nat>)
    requires k <= |segs|
    ensures var rung := OldestRung(segs, k, running, target, pairs);
            rung.running == SatSub(running, TokensOf(segs, rung.dropped))
    decreases |segs| - k
  {
    if k < |segs| && running > target {
      if !DropsAsOldest(segs, k) || k in pairs {
        OldestRungRuns(segs, k + 1, running, target, pairs);
      } else {
        var next := SatSub(running, segs[k].tokens);
        OldestRungRuns(segs, k + 1, next, target, pairs);
        var rest := OldestRung(segs, k + 1, next, target, pairs).dropped;
        assert ([k] + rest)[1..] == rest;
      }
    }
  }

  // ---- the reasoning counted as shed ----

  lemma {:induction false} SourceBlocksMembers(msgs: seq<Message>, sources: seq<nat>, b: Block)
    ensures b in SourceBlocks(msgs, sources) <==>
            exists m :: m in sources && m < |msgs| && b in BlocksOf(msgs[m].content)
  {
    if sources != [] {
      SourceBlocksMembers(msgs, sources[1..], b);
      assert sources == [sources[0]] + sources[1..];
    }
  }

  lemma ReasoningIff(b: Block)
    ensures IsReasoning(b) <==> Thinks(b)
  {
  }

  lemma StripsIff(body: Body, segs: seq<Segment>, k: nat)
    requires k < |segs|
    ensures Strips(body, segs, k) <==> HistoricalReasoning(body, segs, k)
  {
    hide IsReasoning, Thinks, SourceBlocks;
    forall b ensures b in SourceBlocks(body.messages, segs[k].sources) <==>
                     exists m :: m in segs[k].sources && m < |body.messages| && b in BlocksOf(body.messages[m].content)
    {
      SourceBlocksMembers(body.messages, segs[k].sources, b);
    }
    forall b ensures IsReasoning(b) <==> Thinks(b) { ReasoningIff(b); }
  }

  lemma {:induction false} StripFromIff(body: Body, segs: seq<Segment>, k: nat, i: nat)
    requires k <= |segs|
    ensures i in StripFrom(body, segs, k) <==> k <= i && HistoricalReasoning(body, segs, i)
    decreases |segs| - k
  {
    hide Strips, HistoricalReasoning;
    if k < |segs| {
      StripFromIff(body, segs, k + 1, i);
      StripsIff(body, segs, k);
      if i == k { assert i in StripFrom(body, segs, k) <==> Strips(body, segs, k); }
    } else {
      OutOfRange(body, segs, i);
    }
  }

  lemma OutOfRange(body: Body, segs: seq<Segment>, i: nat)
    ensures HistoricalReasoning(body, segs, i) ==> i < |segs|
  {
  }

  /** What a message would read as without its reasoning. */
  function Unthinking(bs: seq<Block>): seq<Block> {
    if bs == [] then [] else (if Thinks(bs[0]) then [] else [bs[0]]) + Unthinking(bs[1..])
  }

  lemma {:induction false} KeptIsUnthinking(bs: seq<Block>)
    ensures KeptText(bs) == AllRaw(Unthinking(bs)) && |KeptText(bs)| <= |AllRaw(bs)|
  {
    if bs != [] {
      KeptIsUnthinking(bs[1..]);
      ReasoningIff(bs[0]);
      var rest := Unthinking(bs[1..]);
      assert ([bs[0]] + rest)[1..] == rest && [] + rest == rest;
    }
  }

  /** A stripped segment is one message of blocks, and is counted as shedding what its estimate would lose
      without its reasoning. */
  lemma ShedIsReasoning(body: Body, k: nat)
    requires HistoricalReasoning(body, Segments(body), k)
    ensures var seg := Segments(body)[k];
            |seg.sources| == 1 && seg.sources[0] < |body.messages| &&
            var bs := BlocksOf(body.messages[seg.sources[0]].content);
            ShedTokens(body, seg) == EstimateTokens(AllRaw(bs)) - EstimateTokens(AllRaw(Unthinking(bs)))
  {
    hide Segments, AnsweredNext, WireBytes, Thinks;
    var seg := Segments(body)[k];
    assert k >= HeadSegments(body) by { PreambleIsHead(body); SegmentShape(body, k); }
    SegmentIsItsMessages(body, k);
    assert seg.sources == [seg.sources[0]] && seg.sources[1..] == [];
    var m := seg.sources[0];
    var bs := BlocksOf(body.messages[m].content);
    assert SourceBlocks(body.messages, seg.sources) == bs + [];
    assert bs + [] == bs;
    KeptIsUnthinking(bs);
    assert Reading(body.messages[m].content) + "" == AllRaw(bs);
    EstimateIsCeiling(AllRaw(bs));
  }

  /** The tokens of the reasoning in the segments named. */
  function ReasoningTokens(body: Body, segs: seq<Segment>, indices: seq<nat>): int {
    if indices == [] then 0
    else
      var k := indices[0];
      var m := if k < |segs| && segs[k].sources != [] then segs[k].sources[0] else 0;
      var bs := if m < |body.messages| then BlocksOf(body.messages[m].content) else [];
      EstimateTokens(AllRaw(bs)) - EstimateTokens(AllRaw(Unthinking(bs))) + ReasoningTokens(body, segs, indices[1..])
  }

  lemma {:induction false} ShedOfIsReasoning(body: Body, indices: seq<nat>)
    requires forall j :: 0 <= j < |indices| ==> HistoricalReasoning(body, Segments(body), indices[j])
    ensures ShedOf(body, Segments(body), indices) == ReasoningTokens(body, Segments(body), indices)
  {
    hide Segments, HistoricalReasoning, ShedTokens;
    if indices != [] {
      ShedIsReasoning(body, indices[0]);
      OutOfRange(body, Segments(body), indices[0]);
      ShedOfIsReasoning(body, indices[1..]);
    }
  }

  // ---- the ladder ----

  /** For every body: nothing goes at or under the target. Above it, exactly the historical reasoning is
      counted as shed; an unpinned tool pair is dropped exactly when what is left after that and after all
      older ones is still above; and any other turn but the last exactly when what is left after the pairs
      and after all older turns is. */
  lemma LadderIff(body: Body, target: nat, k: nat)
    ensures var segs := Segments(body);
            var plan, over := Ladder(body, segs, target), TokensOf(segs, Range(0, |segs|)) > target;
            var left := TokensOf(segs, Range(0, |segs|)) - ReasoningTokens(body, segs, plan.strip);
            (k in plan.strip <==> over && HistoricalReasoning(body, segs, k)) &&
            (k in plan.pairs <==>
             over && UnpinnedPair(segs)(k) && left - Weight(segs, UnpinnedPair(segs), 0, k) > target) &&
            (k in plan.oldest <==>
             over && OldTurn(segs, plan.pairs)(k) &&
             left - TokensOf(segs, plan.pairs) - Weight(segs, OldTurn(segs, plan.pairs), 0, k) > target)
  {
    hide Segments, HistoricalReasoning, ShedOf, StripFrom, PairRung, OldestRung, Weight, UnpinnedPair, OldTurn,
        ReasoningTokens;
    var segs := Segments(body);
    TotalIsAll(segs, 0);
    assert segs[0..] == segs;
    var strip := StripFrom(body, segs, 0);
    forall i: nat ensures i in strip <==> HistoricalReasoning(body, segs, i) { StripFromIff(body, segs, 0, i); }
    forall j | 0 <= j < |strip| ensures HistoricalReasoning(body, segs, strip[j]) { assert strip[j] in strip; }
    ShedOfIsReasoning(body, strip);
    var rung1 := SatSub(TotalTokens(segs), ShedOf(body, segs, strip));
    var rung2 := PairRung(segs, 0, rung1, target);
    PairRungIff(segs, 0, rung1, target, k);
    PairRungRuns(segs, 0, rung1, target);
    OldestRungIff(segs, 0, rung2.running, target, rung2.dropped, k);
  }

  lemma {:induction false} TotalIsAll(segs: seq<Segment>, k: nat)
    requires k <= |segs|
    ensures TotalTokens(segs[k..]) == TokensOf(segs, Range(k, |segs|))
    decreases |segs| - k
  {
    if k < |segs| {
      TotalIsAll(segs, k + 1);
      assert segs[k..][1..] == segs[k + 1..] && Range(k, |segs|)[1..] == Range(k + 1, |segs|);
    }
  }
}
