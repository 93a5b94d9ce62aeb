/** Which blocks an interception never replaces, and what the budget's first rung changes in fact. */
module Reasoning {
  import opened Basics
  import opened Wire
  import opened Segmentation
  import opened Recode
  import opened Targets
  import opened Rewrite
  import opened FastLane
  import opened Intercept
  import Budget
  import Ledger

  // ---- only texts and tool results are replaced ----

  predicate Replaceable(b: Block) { Kind(b) == TextBlock || Kind(b) == ToolResult }

  /** Whatever the rendering replaces is a text or a tool result. */
  predicate Spares(r: Rendered, msgs: seq<Message>) {
    r.at.Some? && r.message < |msgs| && r.at.value < |BlocksOf(msgs[r.message].content)| ==>
      Replaceable(BlocksOf(msgs[r.message].content)[r.at.value])
  }

  lemma TargetSpares(body: Body, seg: Segment, j: nat, text: string, printer: Printer)
    requires j < |SquashTargets(body, seg)|
    ensures Spares(Targets.Render(SquashTargets(body, seg)[j], text, printer), body.messages)
  {
    SquashTargetsOffered(body, seg, j);
    hide Kind, ToolUseId, SquashTargets, Replacement;
  }

  lemma {:induction false} StagedSpares(
    body: Body, segs: seq<Segment>, live: seq<nat>, choice: Choice, printer: Printer, r: Rendered)
    requires r in StagedBase(body, segs, live, choice, printer)
    ensures Spares(r, body.messages)
  {
    hide SquashTargets, Spares, Targets.Render;
    var k := live[0];
    var texts := (t: Target) => Some(choice.texts(k, t));
    if k < |segs| && r in RenderTargets(SquashTargets(body, segs[k]), texts, printer) {
      var j := RenderTargetsMembers(SquashTargets(body, segs[k]), texts, printer, r);
      TargetSpares(body, segs[k], j, texts(SquashTargets(body, segs[k])[j]).value, printer);
    } else {
      StagedSpares(body, segs, live[1..], choice, printer, r);
    }
  }

  lemma {:induction false} BudgetSpares(
    body: Body, segs: seq<Segment>, ps: seq<Ledger.Proposal>, window: nat, printer: Printer, r: Rendered)
    requires r in BudgetBase(body, segs, ps, window, printer)
    ensures Spares(r, body.messages)
  {
    hide SquashTargets, Spares, Targets.Render, DropText;
    var k := ps[0].segIndex;
    if k < |segs| && r in RenderTargets(SquashTargets(body, segs[k]), DropText(printer), printer) {
      var j := RenderTargetsMembers(SquashTargets(body, segs[k]), DropText(printer), printer, r);
      TargetSpares(body, segs[k], j, DropText(printer)(SquashTargets(body, segs[k])[j]).value, printer);
    } else {
      BudgetSpares(body, segs, ps[1..], window, printer, r);
    }
  }

  lemma LaneSpares(body: Body, segs: seq<Segment>, k: nat, inputs: Inputs, w: World, r: Rendered)
    requires k < |segs| && LaneFor(body, segs, k, inputs, w).Some?
    requires r in LaneFor(body, segs, k, inputs, w).value.rendered
    ensures Spares(r, body.messages)
  {
    hide FastLaneClean, SquashTargets, RawLeaf, ProvablyUncached, Spares, Targets.Render;
    var cleaned := FastLaneClean(FastLaneLeaf(body, segs[k]).value, w.minify).value;
    var j := LaneRenderingMembers(SquashTargets(body, segs[k]), cleaned, w.printer, r);
    TargetSpares(body, segs[k], j, cleaned, w.printer);
  }

  lemma EverythingSpares(body: Body, inputs: Inputs, w: World, choice: Choice, r: Rendered)
    requires var base := BaseFor(body, inputs, w, choice).rendered;
             r in base + Flatten(Standing(LaneEntries(body, Segments(body), |Segments(body)|, inputs, w), base))
    ensures Spares(r, body.messages)
  {
    hide Segments, LaneFor, Live, Budget.LedgerLadder, Spares;
    var segs, base := Segments(body), BaseFor(body, inputs, w, choice).rendered;
    var lane := LaneEntries(body, segs, |segs|, inputs, w);
    if r in base {
      match inputs.staged {
        case Some(plan) => StagedSpares(body, segs, Live(body, segs, |segs|, plan, choice, w), choice, w.printer, r);
        case None =>
          BudgetSpares(body, segs, Budget.LedgerLadder(body, segs, Budget.Target(body)), inputs.recencyWindow,
                       w.printer, r);
      }
    } else {
      FlattenMembers(Standing(lane, base), r);
      var e :| e in Standing(lane, base) && r in e.rendered;
      StandingMembers(lane, base, e);
      LaneEntryOrigin(body, segs, |segs|, inputs, w, e);
      LaneSpares(body, segs, e.seg, inputs, w, r);
    }
  }

  lemma {:induction false} LastAtIsThere(i: nat, at: Option<nat>, rs: seq<Rendered>)
    requires LastAt(i, at, rs).Some?
    ensures exists q :: 0 <= q < |rs| && rs[q].message == i && rs[q].at == at
    decreases |rs|
  {
    if !(rs[|rs| - 1].message == i && rs[|rs| - 1].at == at) {
      var init := rs[..|rs| - 1];
      LastAtIsThere(i, at, init);
      var q :| 0 <= q < |init| && init[q].message == i && init[q].at == at;
      assert rs[q] == init[q];
    }
  }

  /** Every block that is neither a text nor a tool result, reasoning above all, comes through any
      interception at its place, up to its cache hint. */
  lemma OtherBlocksSurvive(body: Body, inputs: Inputs, w: World, choice: Choice, i: nat, j: nat)
    requires Intercept.Intercept(body, inputs, w, choice).Spliced?
    requires i < |body.messages| && j < |BlocksOf(body.messages[i].content)|
    requires !Replaceable(BlocksOf(body.messages[i].content)[j])
    ensures var out := Intercept.Intercept(body, inputs, w, choice).body;
            i < |out.messages| && j < |BlocksOf(out.messages[i].content)| &&
            SameUpToHint(BlocksOf(body.messages[i].content)[j], BlocksOf(out.messages[i].content)[j])
  {
    hide Segments, LaneEntries, BaseFor, Standing, Flatten, KeptHints, CheckPairsAndRoles, Splice, Replaceable,
        SameUpToHint;
    var base := BaseFor(body, inputs, w, choice);
    var rs := base.rendered +
              Flatten(Standing(LaneEntries(body, Segments(body), |Segments(body)|, inputs, w), base.rendered));
    var kept := KeptHints(base.positions, |body.messages|, w.prefixHints(body));
    EverythingFits(body, inputs, w, choice);
    SpliceIsExact(body, rs, kept, w.mentionsHint, w.printer, i);
    if LastAt(i, Some(j), rs).Some? {
      LastAtIsThere(i, Some(j), rs);
      var q :| 0 <= q < |rs| && rs[q].message == i && rs[q].at == Some(j);
      EverythingSpares(body, inputs, w, choice, rs[q]);
      assert false;
    }
  }

  /** So the first rung, which counts the tokens of historical reasoning as shed, sheds none of it. */
  lemma ReasoningIsNeverShed(body: Body, inputs: Inputs, w: World, choice: Choice, i: nat, j: nat)
    requires Intercept.Intercept(body, inputs, w, choice).Spliced?
    requires i < |body.messages| && j < |BlocksOf(body.messages[i].content)|
    requires Budget.IsReasoning(BlocksOf(body.messages[i].content)[j])
    ensures var out := Intercept.Intercept(body, inputs, w, choice).body;
            i < |out.messages| && j < |BlocksOf(out.messages[i].content)| &&
            SameUpToHint(BlocksOf(body.messages[i].content)[j], BlocksOf(out.messages[i].content)[j])
  {
    hide Kind, Intercept.Intercept, SameUpToHint;
    OtherBlocksSurvive(body, inputs, w, choice, i, j);
  }

  // ---- what a budget proposal changes ----

  /** The placeholder shrinks the target. */
  predicate Shrinks(t: Target, printer: Printer) {
    t.originalLen > PrintedLen(t.kind, DROP_PLACEHOLDER, printer)
  }

  lemma {:induction false} RendersShrinking(ts: seq<Target>, printer: Printer)
    ensures RenderTargets(ts, DropText(printer), printer) != [] <==>
            exists j :: 0 <= j < |ts| && Shrinks(ts[j], printer)
  {
    hide Replacement;
    if ts != [] {
      RendersShrinking(ts[1..], printer);
      if Shrinks(ts[0], printer) {
        assert RenderTargets(ts, DropText(printer), printer) != [];
      }
      if j :| 0 <= j < |ts| && Shrinks(ts[j], printer) && j > 0 { assert Shrinks(ts[1..][j - 1], printer); }
      if j :| 0 <= j < |ts[1..]| && Shrinks(ts[1..][j], printer) { assert Shrinks(ts[j + 1], printer); }
    }
  }

  lemma {:induction false} BudgetBaseMembers(
    body: Body, segs: seq<Segment>, ps: seq<Ledger.Proposal>, window: nat, printer: Printer, r: Rendered)
    ensures r in BudgetBase(body, segs, ps, window, printer) <==>
            exists q :: 0 <= q < |ps| && RendersFor(body, segs, ps[q].segIndex, window, printer, r)
  {
    hide SquashTargets, RenderTargets, DropText;
    if ps != [] {
      BudgetBaseMembers(body, segs, ps[1..], window, printer, r);
      hide RendersFor;
      if q :| 0 <= q < |ps| && RendersFor(body, segs, ps[q].segIndex, window, printer, r) && q > 0 {
        assert ps[1..][q - 1] == ps[q];
      }
      if q :| 0 <= q < |ps[1..]| && RendersFor(body, segs, ps[1..][q].segIndex, window, printer, r) {
        assert ps[q + 1] == ps[1..][q];
      }
      HeadRenders(body, segs, ps, window, printer, r);
    }
  }

  ghost predicate RendersFor(body: Body, segs: seq<Segment>, k: nat, window: nat, printer: Printer, r: Rendered) {
    k < |segs| && !segs[k].pinned && !RecencyProtected(segs, k, window) &&
    r in RenderTargets(SquashTargets(body, segs[k]), DropText(printer), printer)
  }

  lemma HeadRenders(
    body: Body, segs: seq<Segment>, ps: seq<Ledger.Proposal>, window: nat, printer: Printer, r: Rendered)
    requires ps != []
    ensures r in BudgetBase(body, segs, ps, window, printer) <==>
            RendersFor(body, segs, ps[0].segIndex, window, printer, r) ||
                r in BudgetBase(body, segs, ps[1..], window, printer)
  {
    hide SquashTargets, RenderTargets, DropText;
  }

  /** A segment the budget proposed to strip or drop changes exactly when it is unpinned, outside the
      recency window, and offers a target that the placeholder shrinks. */
  lemma BudgetChangesIff(body: Body, ps: seq<Ledger.Proposal>, window: nat, printer: Printer, k: nat)
    requires k < |Segments(body)| && k in Budget.Indices(ps)
    ensures var segs := Segments(body);
            (exists r :: r in BudgetBase(body, segs, ps, window, printer) && r.message in segs[k].sources) <==>
            !segs[k].pinned && !RecencyProtected(segs, k, window) &&
            exists j :: 0 <= j < |SquashTargets(body, segs[k])| && Shrinks(SquashTargets(body, segs[k])[j], printer)
  {
    hide Segments, SquashTargets, RenderTargets, DropText, BudgetBase, Shrinks;
    var segs := Segments(body);
    var ts := SquashTargets(body, segs[k]);
    var rs := RenderTargets(ts, DropText(printer), printer);
    RendersShrinking(ts, printer);
    var p :| p in ps && p.segIndex == k;
    var q :| 0 <= q < |ps| && ps[q] == p;
    if !segs[k].pinned && !RecencyProtected(segs, k, window) && rs != [] {
      var r := rs[0];
      assert RendersFor(body, segs, ps[q].segIndex, window, printer, r);
      BudgetBaseMembers(body, segs, ps, window, printer, r);
      RenderedInSources(body, segs[k], printer, r);
    }
    if r :| r in BudgetBase(body, segs, ps, window, printer) && r.message in segs[k].sources {
      BudgetBaseMembers(body, segs, ps, window, printer, r);
      var q' :| 0 <= q' < |ps| && RendersFor(body, segs, ps[q'].segIndex, window, printer, r);
      RenderedInSources(body, segs[ps[q'].segIndex], printer, r);
      if ps[q'].segIndex != k { SegmentsAreDisjoint(body, k, ps[q'].segIndex, r.message); }
    }
  }

  lemma RenderedInSources(body: Body, seg: Segment, printer: Printer, r: Rendered)
    requires r in RenderTargets(SquashTargets(body, seg), DropText(printer), printer)
    ensures r.message in seg.sources
  {
    hide SquashTargets, DropText;
    var j := RenderTargetsMembers(SquashTargets(body, seg), DropText(printer), printer, r);
    SquashTargetsOffered(body, seg, j);
  }

  /** The block is a text or readable tool result of more than 256 bytes that the placeholder shrinks. */
  predicate DropShrinks(b: Block, printer: Printer) {
    ByteLen(b.raw) > MIN_BLOCK_SPAN &&
    if Kind(b) == ToolResult then
      ToolUseId(b).Some? && ResultFieldsDecode(b.fields) &&
      ByteLen(b.raw) >
        PrintedLen(ResultBlock(ToolUseId(b).value, IsError(b.fields)), DROP_PLACEHOLDER, printer)
    else
      Kind(b) == TextBlock && ByteLen(b.raw) > PrintedLen(PlainText, DROP_PLACEHOLDER, printer)
  }

  ghost predicate AnyShrinks(ts: seq<Target>, printer: Printer) {
    exists j :: 0 <= j < |ts| && Shrinks(ts[j], printer)
  }

  ghost predicate AnyDropShrinks(bs: seq<Block>, from: nat, printer: Printer) {
    exists i :: from <= i < |bs| && DropShrinks(bs[i], printer)
  }

  lemma NextDropShrinks(bs: seq<Block>, from: nat, printer: Printer)
    requires from < |bs|
    ensures AnyDropShrinks(bs, from, printer) <==>
            DropShrinks(bs[from], printer) || AnyDropShrinks(bs, from + 1, printer)
  {
    hide DropShrinks;
  }

  lemma {:induction false} BlockTargetsShrink(m: nat, bs: seq<Block>, from: nat, printer: Printer)
    requires from <= |bs|
    ensures AnyShrinks(BlockTargets(m, bs, from, false), printer) <==> AnyDropShrinks(bs, from, printer)
    decreases |bs| - from
  {
    hide Shrinks, DropShrinks, BlockTarget;
    if from < |bs| {
      var t, rest := BlockTarget(m, from, bs[from], false), BlockTargets(m, bs, from + 1, false);
      BlockTargetsShrink(m, bs, from + 1, printer);
      BlockShrinks(m, from, bs[from], printer);
      NextDropShrinks(bs, from, printer);
      ShrinkingPush(t, rest, printer);
      hide AnyShrinks, AnyDropShrinks;
    }
  }

  lemma BlockShrinks(m: nat, i: nat, b: Block, printer: Printer)
    ensures var t := BlockTarget(m, i, b, false); (t.Some? && Shrinks(t.value, printer)) <==> DropShrinks(b, printer)
  {
    hide Kind, ToolUseId, ResultFieldsDecode, Replacement;
  }

  lemma ShrinkingPush(t: Option<Target>, rest: seq<Target>, printer: Printer)
    ensures AnyShrinks((if t.Some? then [t.value] else []) + rest, printer) <==>
            (t.Some? && Shrinks(t.value, printer)) || AnyShrinks(rest, printer)
  {
    hide Shrinks;
    var ts := (if t.Some? then [t.value] else []) + rest;
    var d := if t.Some? then 1 else 0;
    assert forall j :: 0 <= j < |rest| ==> ts[j + d] == rest[j];
    if j :| 0 <= j < |rest| && Shrinks(rest[j], printer) { assert Shrinks(ts[j + d], printer); }
    if j :| 0 <= j < |ts| && Shrinks(ts[j], printer) && j >= d { assert Shrinks(rest[j - d], printer); }
    if t.Some? { assert ts[0] == t.value; }
  }

  /** A segment whose reasoning the first rung counts as shed loses a text or a result instead, and exactly
      when it is unpinned, outside the recency window and has one that the placeholder shrinks. */
  lemma StrippedSegmentChangesIff(body: Body, ps: seq<Ledger.Proposal>, window: nat, printer: Printer, k: nat)
    requires k < |Segments(body)| && k in Budget.Indices(ps) && Budget.Strips(body, Segments(body), k)
    ensures var segs := Segments(body);
            |segs[k].sources| == 1 && segs[k].sources[0] < |body.messages| &&
            var bs := BlocksOf(body.messages[segs[k].sources[0]].content);
            (exists r :: r in BudgetBase(body, segs, ps, window, printer) && r.message in segs[k].sources) <==>
            !segs[k].pinned && !RecencyProtected(segs, k, window) &&
            exists i :: 0 <= i < |bs| && DropShrinks(bs[i], printer)
  {
    hide Segments, BudgetBase, Shrinks, DropShrinks, Paired;
    var seg := Segments(body)[k];
    SegmentShape(body, k);
    var m := StrippedMessage(body, seg);
    BudgetChangesIff(body, ps, window, printer, k);
    BlockTargetsShrink(m, BlocksOf(body.messages[m].content), 0, printer);
  }

  lemma StrippedMessage(body: Body, seg: Segment) returns (m: nat)
    requires seg.kind == AssistantTurn && Budget.HasReasoning(body, seg)
    requires SoundSegment(seg, body.messages) || seg.sources == []
    ensures seg.sources == [m] && m < |body.messages|
    ensures SquashTargets(body, seg) == BlockTargets(m, BlocksOf(body.messages[m].content), 0, false)
  {
    hide Paired, Kind;
    var b :| b in Budget.SourceBlocks(body.messages, seg.sources) && Budget.IsReasoning(b);
    if seg.sources == [] { assert false; }
    m := seg.sources[0];
    assert seg.sources == [m] && [m][1..] == [];
    assert Budget.SourceBlocks(body.messages, []) == [];
  }
}
